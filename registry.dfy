/**
 * The store behind `add_urls`, `rm_url` and `search`: the `urls` and
 * `video_info` tables, updated in place by the handlers.
 *
 * The pytube calls are parameters: `Validation` is what constructing the
 * `YouTube` object for the base URL did, `MetadataFetch` what the second
 * construction and its attribute reads gave.
 */
module Registry {
  import opened Wrappers
  import opened VideoId
  import opened Tables
  import opened Search

  datatype Metadata = Metadata(title: string, thumbnailUrl: string, length: int)

  /** How the validating `YouTube(base_url)` call ended. */
  datatype Validation =
    | Accepted
    | RegexMismatch
    | Unavailable
    | PytubeFailure(reason: string)
    | OtherFailure(reason: string)

  /** The metadata read after the `urls` insert, or the text of the exception it raised. */
  datatype MetadataFetch = Fetched(meta: Metadata) | FetchFailed(reason: string)

  /** The responses of `add_urls`. */
  datatype AddResponse =
    | Added(urls: seq<string>)          // 200, with every registered url
    | MissingUrl                        // 400
    | InvalidUrl                        // 400
    | VideoUnavailable                  // 404
    | ValidationError(message: string)  // 500
    | DuplicateUrl                      // 400
    | InsertError(message: string)      // 500, after the url row is committed

  /** The responses of `rm_url`. */
  datatype RemoveResponse = Removed | NotFound

  /** The responses of `search`: no search term given, or the list of results. */
  datatype SearchResponse = MissingTerm | Results(hits: seq<SearchHit>)

  /** The response for a failed validation. */
  function Rejection(v: Validation): (r: AddResponse)
    requires !v.Accepted?
    ensures r.InvalidUrl? <==> v.RegexMismatch?
    ensures r.VideoUnavailable? <==> v.Unavailable?
    ensures v.PytubeFailure? ==> r == ValidationError("Error with pytube: " + v.reason)
    ensures v.OtherFailure? ==> r == ValidationError("Unknown error validating URL: " + v.reason)
  {
    match v
    case RegexMismatch => InvalidUrl
    case Unavailable => VideoUnavailable
    case PytubeFailure(reason) => ValidationError("Error with pytube: " + reason)
    case OtherFailure(reason) => ValidationError("Unknown error validating URL: " + reason)
  }

  /**
   * The base URL `add_urls` stores for a submitted URL, if an id can be
   * extracted; it yields the same id as the submitted URL.
   */
  function BaseUrl(newUrl: string): (r: Option<string>)
    ensures r.None? <==> ExtractVideoId(newUrl).None?
    ensures r.Some? ==> ExtractVideoId(r.value) == ExtractVideoId(newUrl)
    ensures r.Some? ==> (r.value == ShortsPrefix + ExtractVideoId(newUrl).value
                         || r.value == WatchPrefix + ExtractVideoId(newUrl).value)
  {
    match ExtractVideoId(newUrl)
    case None => None
    case Some(id) => Some(CanonicalUrl(newUrl, id))
  }

  /** The request passes the checks before the database is touched. */
  predicate ReachesStore(newUrl: string, validation: Validation) {
    newUrl != [] && BaseUrl(newUrl).Some? && validation.Accepted?
  }

  class VideoRegistry {
    /** The `urls` table, in rowid order. */
    var urls: seq<UrlRow>
    /** The `video_info` table, in rowid order. */
    var videoInfo: seq<InfoRow>
    /** The AUTOINCREMENT counters: the largest id ever handed out in each table. */
    var urlSeq: nat
    var infoSeq: nat

    /** The store's invariant over the fields (see Tables.StoreInvariant). */
    ghost predicate Valid()
      reads this
    {
      StoreInvariant(urls, videoInfo, urlSeq, infoSeq)
    }

    /** `init_db` on a fresh database: both tables empty. */
    constructor ()
      ensures Valid()
      ensures urls == [] && videoInfo == [] && urlSeq == 0 && infoSeq == 0
    {
      urls := [];
      videoInfo := [];
      urlSeq := 0;
      infoSeq := 0;
    }

    /** `INSERT INTO urls (url)`: refused when the url is already there. */
    method InsertUrl(url: string) returns (id: Option<nat>)
      requires Valid()
      modifies this
      ensures Valid()
      ensures videoInfo == old(videoInfo) && infoSeq == old(infoSeq)
      ensures Registered(old(urls), url) ==> id == None && unchanged(this)
      ensures !Registered(old(urls), url) ==>
        && id == Some(old(urlSeq) + 1)
        && urls == old(urls) + [UrlRow(old(urlSeq) + 1, url)]
        && urlSeq == old(urlSeq) + 1
    {
      if Registered(urls, url) {
        return None;
      }
      var row := UrlRow(urlSeq + 1, url);
      AppendIncreasing(urls, row, UrlId);
      AppendDistinct(urls, row, UrlText);
      urls := urls + [row];
      urlSeq := urlSeq + 1;
      id := Some(urlSeq);
    }

    /** `INSERT INTO video_info (...)` for a url row that no info row names yet. */
    method InsertInfo(url: string, meta: Metadata, urlId: nat)
      requires Valid()
      requires UrlRow(urlId, url) in urls
      requires forall v :: v in videoInfo ==> v.url != url
      modifies this
      ensures Valid()
      ensures urls == old(urls) && urlSeq == old(urlSeq)
      ensures videoInfo == old(videoInfo) + [InfoRow(old(infoSeq) + 1, url, meta.title, meta.thumbnailUrl, meta.length, urlId)]
      ensures infoSeq == old(infoSeq) + 1
    {
      var row := InfoRow(infoSeq + 1, url, meta.title, meta.thumbnailUrl, meta.length, urlId);
      AppendIncreasing(videoInfo, row, InfoId);
      AppendDistinct(videoInfo, row, InfoUrl);
      videoInfo := videoInfo + [row];
      infoSeq := infoSeq + 1;
    }

    /**
     * The database part of `add_urls` for a base URL: the url row is
     * committed first, then the info row if the metadata could be read.
     */
    method StoreUrl(baseUrl: string, metadata: MetadataFetch) returns (resp: AddResponse)
      requires Valid()
      modifies this
      ensures Valid()
      ensures Registered(old(urls), baseUrl) ==> resp == DuplicateUrl && unchanged(this)
      ensures !Registered(old(urls), baseUrl) ==>
        && urls == old(urls) + [UrlRow(old(urlSeq) + 1, baseUrl)]
        && urlSeq == old(urlSeq) + 1
      ensures !Registered(old(urls), baseUrl) && metadata.FetchFailed? ==>
        && resp == InsertError("Error adding URL: " + metadata.reason)
        && videoInfo == old(videoInfo) && infoSeq == old(infoSeq)
        && (forall v :: v in videoInfo ==> v.url != baseUrl)
      ensures !Registered(old(urls), baseUrl) && metadata.Fetched? ==>
        && resp == Added(UrlColumn(urls))
        && infoSeq == old(infoSeq) + 1
        && videoInfo == old(videoInfo) + [InfoRow(old(infoSeq) + 1, baseUrl,
             metadata.meta.title, metadata.meta.thumbnailUrl, metadata.meta.length, old(urlSeq) + 1)]
    {
      if !Registered(urls, baseUrl) {
        NoInfoForUnregistered(urls, videoInfo, baseUrl);
      }
      var urlId := InsertUrl(baseUrl);
      if urlId.None? {
        return DuplicateUrl;
      }
      match metadata
      case FetchFailed(reason) =>
        resp := InsertError("Error adding URL: " + reason);
      case Fetched(meta) =>
        InsertInfo(baseUrl, meta, urlId.value);
        resp := Added(UrlColumn(urls));
    }

    /**
     * `add_urls`: the checks before the database leave both tables alone;
     * then StoreUrl with the base URL.
     */
    method AddUrl(newUrl: string, validation: Validation, metadata: MetadataFetch) returns (resp: AddResponse)
      requires Valid()
      modifies this
      ensures Valid()
      ensures newUrl == [] ==> resp == MissingUrl
      ensures newUrl != [] && BaseUrl(newUrl).None? ==> resp == InvalidUrl
      ensures newUrl != [] && BaseUrl(newUrl).Some? && !validation.Accepted? ==> resp == Rejection(validation)
      ensures !ReachesStore(newUrl, validation) ==> unchanged(this)
      ensures ReachesStore(newUrl, validation) && Registered(old(urls), BaseUrl(newUrl).value) ==>
        resp == DuplicateUrl && unchanged(this)
      ensures ReachesStore(newUrl, validation) && !Registered(old(urls), BaseUrl(newUrl).value) ==>
        && urls == old(urls) + [UrlRow(old(urlSeq) + 1, BaseUrl(newUrl).value)]
        && urlSeq == old(urlSeq) + 1
        && (metadata.FetchFailed? ==>
              && resp == InsertError("Error adding URL: " + metadata.reason)
              && videoInfo == old(videoInfo) && infoSeq == old(infoSeq))
        && (metadata.Fetched? ==>
              && resp == Added(UrlColumn(urls))
              && infoSeq == old(infoSeq) + 1
              && videoInfo == old(videoInfo) + [InfoRow(old(infoSeq) + 1, BaseUrl(newUrl).value,
                   metadata.meta.title, metadata.meta.thumbnailUrl, metadata.meta.length, old(urlSeq) + 1)])
    {
      if newUrl == [] {
        return MissingUrl;
      }
      var videoId := ExtractVideoId(newUrl);
      if videoId.None? {
        return InvalidUrl;
      }
      var baseUrl := CanonicalUrl(newUrl, videoId.value);
      assert BaseUrl(newUrl) == Some(baseUrl);
      if !validation.Accepted? {
        return Rejection(validation);
      }
      resp := StoreUrl(baseUrl, metadata);
    }

    /**
     * `rm_url`: deletes the url row with that id and, by the cascade, every
     * info row that refers to it; reports whether a url row was deleted.
     */
    method RemoveUrl(id: nat) returns (resp: RemoveResponse)
      requires Valid()
      modifies this
      ensures Valid()
      ensures resp == Removed <==> exists u :: u in old(urls) && u.id == id
      ensures urls == Filter(old(urls), KeepUrl(id))
      ensures videoInfo == Filter(old(videoInfo), KeepInfo(id))
      ensures urlSeq == old(urlSeq) && infoSeq == old(infoSeq)
      ensures resp == NotFound ==> urls == old(urls) && videoInfo == old(videoInfo)
    {
      var found := exists u :: u in urls && u.id == id;
      DeleteKeepsInvariant(urls, videoInfo, urlSeq, infoSeq, id);
      if !found {
        DeleteOfAbsentIdKeepsAll(urls, videoInfo, id);
      }
      urls := Filter(urls, KeepUrl(id));
      videoInfo := Filter(videoInfo, KeepInfo(id));
      resp := if found then Removed else NotFound;
    }

    /**
     * `search`: without a search term, the request is refused; otherwise
     * every `video_info` row is processed in table order (see Search.Hits).
     */
    method Search(term: string, transcripts: string -> TranscriptOutcome) returns (resp: SearchResponse)
      ensures term == [] <==> resp == MissingTerm
      ensures term != [] ==> resp == Results(Hits(videoInfo, term, transcripts))
    {
      if term == [] {
        return MissingTerm;
      }
      var hits := CollectHits(videoInfo, term, transcripts);
      resp := Results(hits);
    }
  }
}
