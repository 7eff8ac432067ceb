# youtube_transcript — a Dafny model of the transcript-search backend

The backend (`update_yt_transcript.py`) registers YouTube video URLs, stores
each video's title, thumbnail and length, and searches the videos' transcripts
for a keyword. For each video, the search returns the whole seconds at which
matching transcript segments start. This project models the parts of that file
that hold logic, and proves what they promise:

- **Video-id extraction** (`extract_video_id`). The model scans the URL left to
  right for `v=` or `/` followed by eleven characters from `[0-9A-Za-z_-]`, and
  the leftmost such position wins. This is what `re.search` does with the
  source's pattern. `add_urls` then builds the canonical base URL: a shorts URL
  when the submitted URL contains `shorts`, a watch URL otherwise.
- **Keyword search** (`find_timestamps`). A segment matches when its text
  contains the search term, ignoring case, with a regular-expression word
  boundary (`\b`) on both sides. The term is escaped first, so it matches
  literally. Each match contributes `int(start)` of its segment.
- **Result shaping** (`format_results` and `process_videos`) and the result
  loop of `search`. The transcript service is a parameter of the model: a
  function from a video id to a list of segments, `None`, or an exception.
- **Duration text** (`convert_duration`): hours, minutes and seconds by
  integer division, written out as `"<h> hrs <m> mins <s> secs"`. The source
  defines this function but never calls it: the call at line 159 is
  commented out.
- **The registry**: the `urls` and `video_info` tables, as `add_urls` and
  `rm_url` change them. This is a class whose fields are the two tables in
  rowid order, plus the two AUTOINCREMENT counters. Its invariant is the
  schema's constraints (unique urls, increasing ids bounded by the counters,
  `url_id` naming an existing `urls` row) plus the link `add_urls` keeps:
  each `video_info` row carries its parent's url, because both inserts write
  the same base URL (lines 149 and 162-163). The pytube results come in as
  parameters.

Modules: `Wrappers` (Option), `VideoId`, `KeywordSearch`, `Tables` (rows and
table constraints), `Search`, `Registry`, `Decimal` (`f"{n}"` for naturals)
and `Duration`.

Three behaviours of the code worth knowing:

- **Error rows in search results.** The search does not skip rows whose URL
  yields no id or whose transcript is missing. `process_videos` returns a
  one-message list for those rows. The list is non-empty, so the row is
  reported together with the message.
- **Failed metadata fetch.** `add_urls` commits the `urls` row before it reads
  the metadata. When that read fails, the `urls` row stays and has no
  `video_info` row. Registering the same URL again then fails as a duplicate.
- **Empty search term.** `find_timestamps` accepts any term, including an
  empty one. Only the `search` handler refuses an empty term.

## Model

| member | source | states |
|---|---|---|
| `VideoId.FindFrom` | update_yt_transcript.py:49 | The result is the leftmost position at or after the start where `v=` or `/` is followed by eleven id characters. The result is None exactly when no such position exists. |
| `VideoId.ExtractVideoId` | update_yt_transcript.py:48-50 | Returns None exactly when no position qualifies. Otherwise it returns an 11-character id over `[0-9A-Za-z_-]`: the group captured at the leftmost qualifying position, immediately after `v=` or `/`. |
| `VideoId.ExtractAtLeftmost` | update_yt_transcript.py:48-50 | Conversely: if position i qualifies and no earlier one does, extraction returns the id captured at i. |
| `VideoId.LongerRunIsTruncated` | update_yt_transcript.py:49 | A `/` followed by more than eleven id characters yields the first eleven. Nothing requires the run to end there. |
| `VideoId.CanonicalUrl` | update_yt_transcript.py:126-129 | Gives the shorts URL when the input contains `shorts`, otherwise the watch URL. Extracting from the result gives the id back. |
| `VideoId.WatchRoundTrip` | update_yt_transcript.py:129 | For every valid id, extraction from `https://www.youtube.com/watch?v=<id>` returns that id. |
| `VideoId.ShortsRoundTrip` | update_yt_transcript.py:127 | For every valid id, extraction from `https://www.youtube.com/shorts/<id>` returns that id. |
| `VideoId.WatchUrlMentionsShorts` | update_yt_transcript.py:126 | `shorts` occurs in a watch URL exactly when it occurs in the id. |
| `VideoId.CanonicalStableUnlessIdMentionsShorts` | update_yt_transcript.py:126-129 | Canonicalising a canonical URL again changes it exactly when the input lacked `shorts` but the id contains it. |
| `KeywordSearch.SearchFrom` | update_yt_transcript.py:80 | `pattern.search`: the leftmost position at or after the start where the term matches case-insensitively with `\b` at both ends; None when there is none. |
| `KeywordSearch.HasWholeWord` | update_yt_transcript.py:78-80 | True exactly when some position of the text holds a case-insensitive, word-bounded occurrence of the literal term. |
| `KeywordSearch.Truncate` | update_yt_transcript.py:81 | `int(start)` of a non-negative start: the natural n with n <= start < n + 1. |
| `KeywordSearch.Timestamps` | update_yt_transcript.py:76-82 | Never longer than the transcript. |
| `KeywordSearch.MatchingIndices` | update_yt_transcript.py:79-80 | Strictly increasing positions of segments that match, and every matching segment's position is included. |
| `KeywordSearch.TimestampsAreMatchingStarts` | update_yt_transcript.py:76-82 | The timestamps are, in order, the truncated starts of exactly the matching segments: a filter followed by a map. |
| `KeywordSearch.TimestampsAppend` | update_yt_transcript.py:79-81 | The timestamps of a concatenation are the concatenation of the timestamps, so transcript order is kept. |
| `KeywordSearch.FindTimestamps` | update_yt_transcript.py:76-82 | The loop returns exactly the specified timestamps; an empty transcript gives an empty list. |
| `KeywordSearch.HelloWorldAtTwelve` | update_yt_transcript.py:81 | The segment `{"hello world", 12.0}` searched for `WORLD` yields `[12]`. |
| `KeywordSearch.NoMatchInsideWord` | update_yt_transcript.py:78 | `world` is not found inside `helloworld`. |
| `KeywordSearch.PunctuatedTermMissesStandaloneWord` | update_yt_transcript.py:78 | `.net` is not found in the text `.net` (a word character must precede the `.`), but is found in `asp.net`. |
| `Decimal.NatToDecimal` | update_yt_transcript.py:187-190 | `f"{n}"`: non-empty, digits only, and no leading zero except for `0` itself. |
| `Decimal.DecimalRoundTrip` | update_yt_transcript.py:187-190 | Reading the decimal text of n gives n. |
| `Duration.Split` | update_yt_transcript.py:181-184 | h * 3600 + m * 60 + s == n, with m < 60 and s < 60. |
| `Duration.SplitUnique` | update_yt_transcript.py:181-184 | Any reading with minutes and seconds below 60 that adds up to n is the one computed. |
| `Duration.RenderRoundTrip` | update_yt_transcript.py:185-190 | The text reads back as the same hours, minutes and seconds. Hours are named exactly when positive, minutes exactly when positive, seconds always. |
| `Duration.DurationReadsBack` | update_yt_transcript.py:180-191 | The duration text of n reads back as n seconds in total. It names hours iff n >= 3600 and minutes iff n % 3600 >= 60. |
| `Duration.ConvertDuration` | update_yt_transcript.py:180-191 | The assembled text ends with `"<n % 60> secs"` and reads back as n. The `hrs` part is present iff h > 0, the `mins` part iff m > 0. |
| `Tables.Filter` | update_yt_transcript.py:273 | A DELETE keeps exactly the rows that do not match, and never adds any. |
| `Tables.AppendIncreasing` | update_yt_transcript.py:33 | Appending a row whose id exceeds every id keeps ids increasing. |
| `Tables.AppendDistinct` | update_yt_transcript.py:34 | Appending a row whose key no row has keeps the UNIQUE column unique. |
| `Tables.FilterIncreasing` | update_yt_transcript.py:33 | Deleting rows keeps ids increasing. |
| `Tables.FilterDistinct` | update_yt_transcript.py:37 | Deleting rows keeps a UNIQUE column unique. |
| `Tables.FilterKeepsAll` | update_yt_transcript.py:277 | A DELETE that matches no row leaves the table as it was. |
| `Tables.CascadeKeepsParents` | update_yt_transcript.py:42 | After `DELETE FROM urls WHERE id = ?` and its ON DELETE CASCADE, every remaining `video_info` row still has its `urls` row. |
| `Tables.DeleteOfAbsentIdKeepsAll` | update_yt_transcript.py:273-280 | Deleting an id that no `urls` row holds changes neither table, which is the not-found case. |
| `Tables.DeleteKeepsInvariant` | update_yt_transcript.py:32-42 | A delete with its cascade keeps the store's invariant: increasing ids, unique urls in both tables, ids within the counters, and every info row tied to its parent by id and url. |
| `Tables.UrlColumn` | update_yt_transcript.py:175 | `SELECT url FROM urls`: the urls, one per row, in row order. |
| `Tables.Registered` | update_yt_transcript.py:149 | True exactly when some `urls` row holds the url: the case in which the UNIQUE constraint refuses an insert. |
| `Tables.AtMostOneInfoPerUrl` | update_yt_transcript.py:35-42 | Under the invariant the handlers keep, no two `video_info` rows refer to the same `urls` row. This needs the url link `add_urls` keeps, not just the foreign key. |
| `Tables.NoInfoForUnregistered` | update_yt_transcript.py:41-42 | No `video_info` row names a url that is not in `urls`. |
| `Search.FormatResults` | update_yt_transcript.py:84-86 | Returns the timestamps unchanged, in order; the url is unused. |
| `Search.ProcessVideos` | update_yt_transcript.py:90-105 | No id gives `["Invalid YouTube URL: <url>"]`. A missing or empty transcript gives `["Failed to fetch transcript"]`. A provider exception propagates. Otherwise the result is the truncated starts of exactly the matching segments, in order, possibly none. |
| `Search.HitFor` | update_yt_transcript.py:244-254 | A row is reported exactly when processing it returned a non-empty list, and it is reported with that list. |
| `Search.Hits` | update_yt_transcript.py:241-258 | There are never more results than rows. |
| `Search.HitsAppend` | update_yt_transcript.py:241-258 | The results for concatenated rows are the concatenated results, so row order is kept. |
| `Search.HitsMembership` | update_yt_transcript.py:241-258 | A result is exactly a row whose processing returned a non-empty list, error messages included. Rows with zero matches are excluded. Rows whose processing threw are dropped, and the loop goes on. |
| `Search.CollectHits` | update_yt_transcript.py:241-258 | The loop returns exactly the specified results. |
| `Registry.Rejection` | update_yt_transcript.py:132-145 | Maps each failed validation to its response: regex mismatch to invalid URL (400), unavailable to 404, a pytube error or any other error to a 500 carrying the message. |
| `Registry.BaseUrl` | update_yt_transcript.py:120-129 | Gives no base URL exactly when no id is extracted. Otherwise it gives the watch or shorts URL of the id, and that URL yields the same id as the submitted one. |
| `Registry.VideoRegistry.constructor` | update_yt_transcript.py:29-44 | A fresh store has both tables empty and satisfies the store's invariant. |
| `Registry.VideoRegistry.InsertUrl` | update_yt_transcript.py:149-151 | An existing url is refused and nothing changes. Otherwise the row is appended with id one above every id ever handed out, so ids increase and are never reused. |
| `Registry.VideoRegistry.InsertInfo` | update_yt_transcript.py:162-164 | Appends the `video_info` row linked to its `urls` row, and keeps the invariant. |
| `Registry.VideoRegistry.StoreUrl` | update_yt_transcript.py:147-173 | A duplicate leaves both tables unchanged. A new url row is always committed. A metadata failure leaves it with no `video_info` row, and success adds exactly one. |
| `Registry.VideoRegistry.AddUrl` | update_yt_transcript.py:110-178 | A missing URL, no extractable id or a failed validation gives its response and leaves both tables unchanged. Otherwise the result is as StoreUrl on the base URL, and the store's invariant holds after every call. |
| `Registry.VideoRegistry.RemoveUrl` | update_yt_transcript.py:267-285 | Deletes the `urls` row with the id and, by the cascade, every `video_info` row with that `url_id`, and nothing else. It reports not-found, with both tables unchanged, exactly when no row had the id. |
| `Registry.VideoRegistry.Search` | update_yt_transcript.py:219-264 | An empty search term is refused. Otherwise the results are those of the loop over the `video_info` rows, in table order. |

## Left out

- Flask routing, JSON parsing, `jsonify`, CORS, logging and `app.run` are left out. HTTP status codes appear only as comments on the response datatypes.
- A missing `url` or `search_term` field is modelled as the empty string. JSON values that are not strings are not modelled.
- The SQLite connection, cursors and commits, `drop_tables`, and `get_db_connection` are left out. Only the table contents, the constraints the schema declares and the url link `add_urls` keeps between the two tables are kept.
- `fetch_video_info` is left out: it is a plain `SELECT` of `video_info`, which is the registry's `videoInfo` field.
- The transcript service calls and the English, Hindi and auto-translate fallback of `get_transcript` are left out; their outcome is a parameter. The first `get_transcript` definition is left out too: the second definition replaces it.
- The pytube validation and metadata reads are left out; their outcomes are parameters.
- Python's Unicode matching is not modelled. `\w` is restricted to ASCII letters, digits and `_`, and case-insensitive matching to ASCII lower-casing.
- Transcript start times are non-negative reals, not floating-point values.
- The generic exception handler of `rm_url` (lines 286-288) is left out: it is unreachable in the model.
- The second empty-term check in `search` (lines 238-239) is left out: it is unreachable after the first one.
- Registry.VideoRegistry.Search: each result carries the whole `video_info` row, including `url_id`, which the source's `SELECT` does not return.
- Concurrent requests against the same database are not modelled.
