/**
 * `process_videos`, `format_results` and the result loop of `search`.
 *
 * The transcript provider (`get_transcript`, which calls the remote
 * transcript service with its language fallbacks) is a parameter: a total
 * function from a video id to what the call produced.
 */
module Search {
  import opened Wrappers
  import opened VideoId
  import opened KeywordSearch
  import opened Tables

  /**
   * What `get_transcript` produces for a video id: a list of segments
   * (possibly empty), `None`, or an exception that escapes it (the Hindi
   * fallback call is not guarded).
   */
  datatype TranscriptOutcome = Found(segments: seq<Segment>) | NoTranscript | Raised

  /** An element of the list `process_videos` returns: a timestamp or a message. */
  datatype Item = Stamp(seconds: nat) | Note(message: string)

  /** A call of `process_videos`: the list it returned, or the exception it let through. */
  datatype Processed = Returned(items: seq<Item>) | Threw

  const FetchFailedMessage: string := "Failed to fetch transcript"

  function InvalidUrlMessage(url: string): string {
    "Invalid YouTube URL: " + url
  }

  /** `format_results`: the timestamps, unchanged; the url is not used. */
  function FormatResults(url: string, timestamps: seq<nat>): (r: seq<Item>)
    ensures |r| == |timestamps|
    ensures forall k :: 0 <= k < |r| ==> r[k] == Stamp(timestamps[k])
  {
    seq(|timestamps|, k requires 0 <= k < |timestamps| => Stamp(timestamps[k]))
  }

  /**
   * `process_videos`: the timestamps of the matching segments when the URL
   * yields an id and the transcript is non-empty; a one-message list when
   * the URL yields no id or the transcript is missing or empty.
   */
  function ProcessVideos(url: string, term: string, transcripts: string -> TranscriptOutcome): (r: Processed)
    ensures r.Threw? <==> ExtractVideoId(url).Some? && transcripts(ExtractVideoId(url).value).Raised?
    ensures ExtractVideoId(url).None? ==> r == Returned([Note(InvalidUrlMessage(url))])
    ensures ExtractVideoId(url).Some? ==>
      var outcome := transcripts(ExtractVideoId(url).value);
      (outcome.NoTranscript? || outcome == Found([])) ==> r == Returned([Note(FetchFailedMessage)])
    ensures ExtractVideoId(url).Some? && transcripts(ExtractVideoId(url).value).Found? ==>
      var t := transcripts(ExtractVideoId(url).value).segments;
      var matching := MatchingIndices(t, term);
      t != [] ==>
        && r.Returned?
        && |r.items| == |matching|
        && forall k :: 0 <= k < |matching| ==> r.items[k] == Stamp(Truncate(t[matching[k]].start))
  {
    match ExtractVideoId(url)
    case None => Returned([Note(InvalidUrlMessage(url))])
    case Some(id) =>
      match transcripts(id)
      case Raised => Threw
      case NoTranscript => Returned([Note(FetchFailedMessage)])
      case Found(t) =>
        if t == [] then Returned([Note(FetchFailedMessage)])
        else
          TimestampsAreMatchingStarts(t, term);
          Returned(FormatResults(url, Timestamps(t, term)))
  }

  /** A `video_info` row reported by `search`, with its `time_stamps`. */
  datatype SearchHit = SearchHit(row: InfoRow, timeStamps: seq<Item>)

  /** What one loop iteration adds: nothing when processing threw or returned an empty list. */
  function HitFor(row: InfoRow, term: string, transcripts: string -> TranscriptOutcome): (r: Option<SearchHit>)
    ensures r.Some? <==> (ProcessVideos(row.url, term, transcripts).Returned?
                          && ProcessVideos(row.url, term, transcripts).items != [])
    ensures r.Some? ==> r.value == SearchHit(row, ProcessVideos(row.url, term, transcripts).items)
  {
    match ProcessVideos(row.url, term, transcripts)
    case Threw => None
    case Returned(items) => if items == [] then None else Some(SearchHit(row, items))
  }

  /** The values f gives for the rows, in row order, leaving out the rows it gives None for. */
  function Collect<T, U>(rows: seq<T>, f: T -> Option<U>): (r: seq<U>)
    ensures |r| <= |rows|
  {
    if rows == [] then []
    else
      var n := |rows| - 1;
      Collect(rows[..n], f) + (match f(rows[n]) case None => [] case Some(u) => [u])
  }

  lemma {:induction false} CollectAppend<T, U>(a: seq<T>, b: seq<T>, f: T -> Option<U>)
    ensures Collect(a + b, f) == Collect(a, f) + Collect(b, f)
    decreases |b|
  {
    if b == [] {
      assert a + b == a;
    } else {
      var n := |b| - 1;
      assert (a + b)[..|a + b| - 1] == a + b[..n];
      CollectAppend(a, b[..n], f);
    }
  }

  lemma {:induction false} CollectMembership<T, U>(rows: seq<T>, f: T -> Option<U>, u: U)
    ensures u in Collect(rows, f) <==> exists i :: 0 <= i < |rows| && f(rows[i]) == Some(u)
  {
    if rows != [] {
      var n := |rows| - 1;
      var prefix := rows[..n];
      var last := match f(rows[n]) case None => [] case Some(v) => [v];
      assert Collect(rows, f) == Collect(prefix, f) + last;
      assert u in last <==> f(rows[n]) == Some(u);
      assert forall i :: 0 <= i < n ==> prefix[i] == rows[i];
      CollectMembership(prefix, f, u);
    }
  }

  /** One loop iteration of `search`, as a function of the row. */
  function Step(term: string, transcripts: string -> TranscriptOutcome): InfoRow -> Option<SearchHit> {
    row => HitFor(row, term, transcripts)
  }

  /** The results of the `search` loop over the rows, defined row by row. */
  function Hits(rows: seq<InfoRow>, term: string, transcripts: string -> TranscriptOutcome): (r: seq<SearchHit>)
    ensures |r| <= |rows|
  {
    Collect(rows, Step(term, transcripts))
  }

  /** Results follow the order of the rows: the rows of a concatenation give concatenated results. */
  lemma HitsAppend(a: seq<InfoRow>, b: seq<InfoRow>, term: string, transcripts: string -> TranscriptOutcome)
    ensures Hits(a + b, term, transcripts) == Hits(a, term, transcripts) + Hits(b, term, transcripts)
  {
    CollectAppend(a, b, Step(term, transcripts));
  }

  /**
   * A result is exactly what some row's iteration adds (see HitFor): rows
   * whose processing returned a non-empty list, error messages included,
   * appear with that list; rows with no match and rows whose processing
   * threw do not.
   */
  lemma HitsMembership(rows: seq<InfoRow>, term: string, transcripts: string -> TranscriptOutcome, h: SearchHit)
    ensures h in Hits(rows, term, transcripts) <==>
      exists i :: 0 <= i < |rows| && HitFor(rows[i], term, transcripts) == Some(h)
  {
    CollectMembership(rows, Step(term, transcripts), h);
  }

  /** The `for info in video_info` loop of `search`. */
  method CollectHits(rows: seq<InfoRow>, term: string, transcripts: string -> TranscriptOutcome)
    returns (results: seq<SearchHit>)
    ensures results == Hits(rows, term, transcripts)
  {
    results := [];
    for i := 0 to |rows|
      invariant results == Hits(rows[..i], term, transcripts)
    {
      var info := rows[i];
      assert rows[..i + 1][..i] == rows[..i];
      match ProcessVideos(info.url, term, transcripts)
      case Threw =>
        // logged and skipped; the loop goes on
      case Returned(timeStamps) =>
        if timeStamps != [] {
          results := results + [SearchHit(info, timeStamps)];
        }
    }
    assert rows[..|rows|] == rows;
  }
}
