/**
 * Video-id extraction and the canonical URL built from an id.
 *
 * The source finds the id with a regular-expression search for
 * `(?:v=|/)([0-9A-Za-z_-]{11}).*`. Here the search is a left-to-right
 * scan: a position qualifies when `v=` or `/` starts there and eleven id
 * characters follow; the first qualifying position wins. The trailing `.*`
 * constrains nothing.
 */
module VideoId {
  import opened Wrappers

  /** Length of a platform video identifier. */
  const IdLength: nat := 11

  /** The character class `[0-9A-Za-z_-]`. */
  predicate IsIdChar(c: char) {
    ('0' <= c <= '9') || ('A' <= c <= 'Z') || ('a' <= c <= 'z') || c == '_' || c == '-'
  }

  /** Eleven id characters start at position j of s. */
  predicate IdRunAt(s: string, j: nat) {
    j + IdLength <= |s| && forall k :: j <= k < j + IdLength ==> IsIdChar(s[k])
  }

  /** A well-formed video identifier. */
  predicate IsVideoId(id: string) {
    |id| == IdLength && forall k :: 0 <= k < |id| ==> IsIdChar(id[k])
  }

  /** The pattern matches with its marker (`v=` or `/`) starting at position i. */
  predicate MatchAt(s: string, i: nat) {
    || (i + 2 <= |s| && s[i] == 'v' && s[i + 1] == '=' && IdRunAt(s, i + 2))
    || (i < |s| && s[i] == '/' && IdRunAt(s, i + 1))
  }

  /** Where the captured group starts for a match at i. */
  function IdStart(s: string, i: nat): (j: nat)
    requires MatchAt(s, i)
    ensures IdRunAt(s, j)
  {
    if s[i] == '/' then i + 1 else i + 2
  }

  /** The captured group of a match at i. */
  function IdAt(s: string, i: nat): (id: string)
    requires MatchAt(s, i)
    ensures IsVideoId(id)
  {
    s[IdStart(s, i)..IdStart(s, i) + IdLength]
  }

  /** The leftmost position at or after i where the pattern matches. */
  function FindFrom(s: string, i: nat): (r: Option<nat>)
    requires i <= |s|
    ensures r.Some? ==> i <= r.value < |s| && MatchAt(s, r.value)
    ensures r.Some? ==> forall k :: i <= k < r.value ==> !MatchAt(s, k)
    ensures r.None? ==> forall k :: i <= k ==> !MatchAt(s, k)
    decreases |s| - i
  {
    if i == |s| then None
    else if MatchAt(s, i) then Some(i)
    else FindFrom(s, i + 1)
  }

  /**
   * `extract_video_id`: the id captured by the leftmost match, or None when
   * no position qualifies.
   */
  function ExtractVideoId(url: string): (r: Option<string>)
    ensures r.None? <==> forall i :: !MatchAt(url, i)
    ensures r.Some? ==> IsVideoId(r.value)
    ensures r.Some? ==>
      exists i: nat :: MatchAt(url, i) && r.value == IdAt(url, i) && forall k :: 0 <= k < i ==> !MatchAt(url, k)
  {
    match FindFrom(url, 0)
    case None => None
    case Some(i) => Some(IdAt(url, i))
  }

  /** If the leftmost match is at i, extraction returns the id captured there. */
  lemma {:induction false} ExtractAtLeftmost(url: string, i: nat)
    requires MatchAt(url, i)
    requires forall k :: 0 <= k < i ==> !MatchAt(url, k)
    ensures ExtractVideoId(url) == Some(IdAt(url, i))
  {
    FindFromReaches(url, 0, i);
  }

  lemma {:induction false} FindFromReaches(s: string, from: nat, i: nat)
    requires from <= i && MatchAt(s, i)
    requires forall k :: from <= k < i ==> !MatchAt(s, k)
    ensures FindFrom(s, from) == Some(i)
    decreases i - from
  {
    if from < i {
      FindFromReaches(s, from + 1, i);
    }
  }

  /**
   * The watch URL prefix `https://www.youtube.com/watch?v=`, written as the
   * scheme `https:` and the path after it: past the scheme there is no `s`,
   * which is how ShortsNotInWatchPrefix shows that `shorts` cannot start in
   * the prefix without comparing the whole literal character by character.
   */
  const WatchPath: string := "//www.youtube.com/watch?v="
  const WatchPrefix: string := "https:" + WatchPath
  const ShortsPrefix: string := "https://www.youtube.com/shorts/"

  /** sub occurs in s starting at position i. */
  predicate OccursAt(s: string, sub: string, i: nat) {
    i + |sub| <= |s| && s[i..i + |sub|] == sub
  }

  /** Python's `sub in s` on strings. */
  predicate Contains(s: string, sub: string) {
    exists i: nat | i <= |s| :: OccursAt(s, sub, i)
  }

  /**
   * The base URL stored for a registration: a shorts URL when the submitted
   * URL mentions `shorts` anywhere, a watch URL otherwise.
   */
  function CanonicalUrl(input: string, id: string): (r: string)
    requires IsVideoId(id)
    ensures Contains(input, "shorts") ==> r == ShortsPrefix + id
    ensures !Contains(input, "shorts") ==> r == WatchPrefix + id
    ensures ExtractVideoId(r) == Some(id)
  {
    WatchRoundTrip(id);
    ShortsRoundTrip(id);
    if Contains(input, "shorts") then ShortsPrefix + id else WatchPrefix + id
  }

  /** Extracting from the watch URL of an id gives the id back. */
  lemma WatchRoundTrip(id: string)
    requires IsVideoId(id)
    ensures ExtractVideoId(WatchPrefix + id) == Some(id)
  {
    var u := WatchPrefix + id;
    assert !IsIdChar(u[7]) && !IsIdChar(u[11]) && !IsIdChar(u[29]);
    forall k | 0 <= k < 30 ensures !MatchAt(u, k) {
      assert u[k] == WatchPrefix[k];
    }
    assert MatchAt(u, 30) && IdStart(u, 30) == 32;
    ExtractAtLeftmost(u, 30);
    assert u[32..43] == id;
  }

  /** Extracting from the shorts URL of an id gives the id back. */
  lemma ShortsRoundTrip(id: string)
    requires IsVideoId(id)
    ensures ExtractVideoId(ShortsPrefix + id) == Some(id)
  {
    var u := ShortsPrefix + id;
    assert !IsIdChar(u[7]) && !IsIdChar(u[11]) && !IsIdChar(u[30]);
    forall k | 0 <= k < 30 ensures !MatchAt(u, k) {
      assert u[k] == ShortsPrefix[k];
    }
    assert MatchAt(u, 30) && IdStart(u, 30) == 31;
    ExtractAtLeftmost(u, 30);
    assert u[31..42] == id;
  }

  /**
   * The pattern asks for eleven id characters and nothing about what comes
   * next: after a `/`, a longer run of id characters yields its first eleven.
   */
  lemma {:induction false} LongerRunIsTruncated(run: string)
    requires |run| > IdLength
    requires forall k :: 0 <= k < |run| ==> IsIdChar(run[k])
    ensures ExtractVideoId("/" + run) == Some(run[..IdLength])
  {
    var u := "/" + run;
    assert IdRunAt(u, 1) by {
      forall k | 1 <= k < 1 + IdLength ensures IsIdChar(u[k]) {
        assert u[k] == run[k - 1];
      }
    }
    ExtractAtLeftmost(u, 0);
    assert IdAt(u, 0) == u[1..12] == run[..IdLength];
  }

  /** No occurrence of `shorts` in a watch URL starts inside the prefix. */
  lemma ShortsNotInWatchPrefix(id: string)
    ensures forall j: nat | j < |WatchPrefix| :: !OccursAt(WatchPrefix + id, "shorts", j)
  {
    assert 's' !in WatchPath;
    var u := WatchPrefix + id;
    forall j: nat | j < |WatchPrefix| ensures !OccursAt(u, "shorts", j) {
      if j + 6 <= |u| {
        assert u[j..j + 6][0] == u[j] && u[j..j + 6][1] == u[j + 1];
        if j < 6 {
          assert u[j] == "https:"[j] && u[5] == ':';
        } else {
          assert u[j] == WatchPath[j - 6];
        }
      }
    }
  }

  /** The watch prefix does not contain `shorts`, so an occurrence in a watch URL lies in the id. */
  lemma {:induction false} ShortsInWatchUrlIsInId(id: string)
    ensures Contains(WatchPrefix + id, "shorts") ==> Contains(id, "shorts")
  {
    var u := WatchPrefix + id;
    ShortsNotInWatchPrefix(id);
    if Contains(u, "shorts") {
      var i: nat :| i <= |u| && OccursAt(u, "shorts", i);
      assert id[i - 32..i - 32 + 6] == u[i..i + 6];
      assert OccursAt(id, "shorts", i - 32);
    }
  }

  /** An occurrence of `shorts` in the id is one in its watch URL. */
  lemma {:induction false} ShortsInIdIsInWatchUrl(id: string)
    ensures Contains(id, "shorts") ==> Contains(WatchPrefix + id, "shorts")
  {
    var u := WatchPrefix + id;
    if Contains(id, "shorts") {
      var i: nat :| i <= |id| && OccursAt(id, "shorts", i);
      assert u[i + 32..i + 32 + 6] == id[i..i + 6];
      assert OccursAt(u, "shorts", i + 32);
    }
  }

  /** `shorts` occurs in a watch URL exactly when it occurs in the id. */
  lemma WatchUrlMentionsShorts(id: string)
    ensures Contains(WatchPrefix + id, "shorts") <==> Contains(id, "shorts")
  {
    ShortsInWatchUrlIsInId(id);
    ShortsInIdIsInWatchUrl(id);
  }

  /** A shorts URL mentions `shorts` in its own path. */
  lemma ShortsUrlMentionsShorts(id: string)
    ensures Contains(ShortsPrefix + id, "shorts")
  {
    var s := ShortsPrefix + id;
    assert s[24..30] == "shorts";
    assert OccursAt(s, "shorts", 24);
  }

  /** The shorts and watch URLs of an id are different URLs. */
  lemma ShortsUrlIsNotWatchUrl(id: string)
    ensures ShortsPrefix + id != WatchPrefix + id
  {
    assert (ShortsPrefix + id)[24] != (WatchPrefix + id)[24];
  }

  /**
   * Canonicalising a canonical URL again gives the same URL, except when a
   * watch URL was chosen and its id itself contains `shorts`: then the
   * second pass turns it into a shorts URL.
   */
  lemma {:induction false} CanonicalStableUnlessIdMentionsShorts(input: string, id: string)
    requires IsVideoId(id)
    ensures CanonicalUrl(CanonicalUrl(input, id), id) == CanonicalUrl(input, id)
        <==> Contains(input, "shorts") || !Contains(id, "shorts")
  {
    ShortsUrlMentionsShorts(id);
    WatchUrlMentionsShorts(id);
    ShortsUrlIsNotWatchUrl(id);
  }
}
