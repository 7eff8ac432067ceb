/**
 * `find_timestamps`: the start seconds of the transcript segments whose text
 * contains the search term, ignoring case, with a regular-expression word
 * boundary `\b` on both sides of it.
 *
 * The term is escaped before it is compiled, so it matches literally.
 * Letters are compared after ASCII lower-casing, and the word characters
 * are the ASCII letters, the digits and `_`. A word boundary at position i
 * of a text means "the characters at i - 1 and at i differ in being word
 * characters", a position outside the text counting as a non-word
 * character. Because of that literal reading, a term that begins or ends
 * with punctuation is not a "whole word" search.
 */
module KeywordSearch {
  import opened Wrappers

  /** A transcript start time in seconds; the provider never gives a negative one. */
  type Seconds = r: real | r >= 0.0

  /** One transcript segment: `{'text': ..., 'start': ...}`. */
  datatype Segment = Segment(text: string, start: Seconds)

  function Lower(c: char): char {
    if 'A' <= c <= 'Z' then (c as int + 32) as char else c
  }

  /** `\w`, restricted to ASCII. */
  predicate IsWordChar(c: char) {
    ('0' <= c <= '9') || ('A' <= c <= 'Z') || ('a' <= c <= 'z') || c == '_'
  }

  predicate WordAt(s: string, i: int) {
    0 <= i < |s| && IsWordChar(s[i])
  }

  /** `\b` at position i of s. */
  predicate Boundary(s: string, i: int) {
    WordAt(s, i - 1) != WordAt(s, i)
  }

  /** The term occurs at position i of the text, ignoring case. */
  predicate SameIgnoringCaseAt(text: string, term: string, i: nat) {
    i + |term| <= |text| && forall k :: 0 <= k < |term| ==> Lower(text[i + k]) == Lower(term[k])
  }

  /** The compiled pattern `\b<term>\b` matches at position i. */
  predicate WholeWordAt(text: string, term: string, i: nat) {
    SameIgnoringCaseAt(text, term, i) && Boundary(text, i) && Boundary(text, i + |term|)
  }

  /** `pattern.search(text)` started at position i: the leftmost match, if any. */
  function SearchFrom(text: string, term: string, i: nat): (r: Option<nat>)
    ensures r.Some? ==> i <= r.value && WholeWordAt(text, term, r.value)
    ensures r.Some? ==> forall k :: i <= k < r.value ==> !WholeWordAt(text, term, k)
    ensures r.None? ==> forall k :: i <= k ==> !WholeWordAt(text, term, k)
    decreases |text| + 1 - i
  {
    if i + |term| > |text| then None
    else if WholeWordAt(text, term, i) then Some(i)
    else SearchFrom(text, term, i + 1)
  }

  /** The truth value of `pattern.search(text)`: the term occurs somewhere as a whole word. */
  function HasWholeWord(text: string, term: string): (b: bool)
    ensures b <==> exists i: nat :: WholeWordAt(text, term, i)
  {
    SearchFrom(text, term, 0).Some?
  }

  /** `int(start)` of a non-negative start time. */
  function Truncate(start: Seconds): (n: nat)
    ensures n as real <= start < n as real + 1.0
  {
    start.Floor
  }

  /** The timestamps `find_timestamps` returns, defined segment by segment. */
  function Timestamps(transcript: seq<Segment>, term: string): (r: seq<nat>)
    ensures |r| <= |transcript|
  {
    if transcript == [] then []
    else
      var last := transcript[|transcript| - 1];
      Timestamps(transcript[..|transcript| - 1], term)
        + (if HasWholeWord(last.text, term) then [Truncate(last.start)] else [])
  }

  /** The positions, in transcript order, of the segments that match. */
  function MatchingIndices(transcript: seq<Segment>, term: string): (r: seq<nat>)
    ensures forall k :: 0 <= k < |r| ==> r[k] < |transcript| && HasWholeWord(transcript[r[k]].text, term)
    ensures forall k, l :: 0 <= k < l < |r| ==> r[k] < r[l]
    ensures forall j :: 0 <= j < |transcript| && HasWholeWord(transcript[j].text, term) ==> j in r
  {
    if transcript == [] then []
    else
      var n := |transcript| - 1;
      var prefix := transcript[..n];
      assert forall j :: 0 <= j < n ==> prefix[j] == transcript[j];
      MatchingIndices(prefix, term) + (if HasWholeWord(transcript[n].text, term) then [n] else [])
  }

  /**
   * The timestamps are the truncated starts of exactly the matching
   * segments, in transcript order: a filter followed by a map.
   */
  lemma {:induction false} TimestampsAreMatchingStarts(transcript: seq<Segment>, term: string)
    ensures |Timestamps(transcript, term)| == |MatchingIndices(transcript, term)|
    ensures forall k :: 0 <= k < |Timestamps(transcript, term)| ==>
      Timestamps(transcript, term)[k] == Truncate(transcript[MatchingIndices(transcript, term)[k]].start)
  {
    if transcript != [] {
      var n := |transcript| - 1;
      var prefix := transcript[..n];
      TimestampsAreMatchingStarts(prefix, term);
      var ts, mi := Timestamps(prefix, term), MatchingIndices(prefix, term);
      var hit := HasWholeWord(transcript[n].text, term);
      assert Timestamps(transcript, term) == ts + (if hit then [Truncate(transcript[n].start)] else []);
      assert MatchingIndices(transcript, term) == mi + (if hit then [n] else []);
      forall k | 0 <= k < |mi| ensures ts[k] == Truncate(transcript[mi[k]].start) {
        assert transcript[mi[k]] == prefix[mi[k]];
      }
    }
  }

  /** Splitting a transcript splits its timestamps. */
  lemma {:induction false} TimestampsAppend(a: seq<Segment>, b: seq<Segment>, term: string)
    ensures Timestamps(a + b, term) == Timestamps(a, term) + Timestamps(b, term)
    decreases |b|
  {
    if b == [] {
      assert a + b == a;
    } else {
      var n := |b| - 1;
      assert (a + b)[..|a + b| - 1] == a + b[..n];
      TimestampsAppend(a, b[..n], term);
    }
  }

  /** `find_timestamps`: one pass over the transcript, appending as it goes. */
  method FindTimestamps(transcript: seq<Segment>, term: string) returns (timestamps: seq<nat>)
    ensures timestamps == Timestamps(transcript, term)
  {
    timestamps := [];
    for i := 0 to |transcript|
      invariant timestamps == Timestamps(transcript[..i], term)
    {
      var entry := transcript[i];
      assert transcript[..i + 1][..i] == transcript[..i];
      if HasWholeWord(entry.text, term) {
        timestamps := timestamps + [Truncate(entry.start)];
      }
    }
    assert transcript[..|transcript|] == transcript;
  }

  /** A segment `hello world` starting at 12.0 s, searched for `WORLD`, yields 12. */
  lemma HelloWorldAtTwelve()
    ensures Timestamps([Segment("hello world", 12.0)], "WORLD") == [12]
  {
    var text := "hello world";
    assert WholeWordAt(text, "WORLD", 6);
    assert HasWholeWord(text, "WORLD");
  }

  /** The term must not match inside a larger word. */
  lemma NoMatchInsideWord()
    ensures !HasWholeWord("helloworld", "world")
  {
    var text := "helloworld";
    forall i: nat ensures !WholeWordAt(text, "world", i) {
      if i == 5 {
        assert !Boundary(text, 5);
      }
    }
  }

  /**
   * A term that starts with a non-word character needs a word character
   * before it, so ".net" is not found as a text of its own.
   */
  lemma PunctuatedTermMissesStandaloneWord()
    ensures !HasWholeWord(".net", ".net")
    ensures HasWholeWord("asp.net", ".net")
  {
    assert !Boundary(".net", 0);
    assert WholeWordAt("asp.net", ".net", 3);
  }
}
