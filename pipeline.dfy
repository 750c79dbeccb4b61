/**
 * The listing pipeline both channel-listing routes run once the channel id is known (the route
 * in server.js and pages/api/channel-videos.js): list the channel's videos, look up their
 * details, build `videoDetailsMap`, classify every video, then partition, select and count.
 * The YouTube Data API calls are parameters; `None` stands for a call that throws.
 */
module Pipeline {
  import opened Wrappers
  import opened Video
  import opened Listing
  import opened HandleLookup

  /** An item of the date-ordered video search: `id.videoId` and the snippet fields used. */
  datatype ListedVideo = ListedVideo(videoId: string, title: string, description: string,
                                     publishedAt: int, mediumThumbnail: Option<string>)

  /** An item of the details lookup, already shaped as a `videoDetailsMap` value. */
  datatype DetailsRecord = DetailsRecord(id: string, details: VideoDetails)

  /** The API calls a listing makes: the channel search, the video search and the details lookup. */
  datatype Backend = Backend(
    channelSearch: Search,
    listVideos: (string, nat) -> Option<seq<ListedVideo>>,
    fetchDetails: seq<string> -> Option<seq<DetailsRecord>>)

  /** The request body fields, absent ones as `None`. */
  datatype Request = Request(httpMethod: string, channelUrl: Option<string>,
                             maxResults: Option<nat>, contentType: Option<string>)

  /** 405, 400 and 500 answers, or the JSON body `{ videos, counts }`. */
  datatype Response = MethodNotAllowed | BadRequest | ServerError | Listed(videos: seq<Entry>, counts: Counts)

  /** A per-video classifier: the video id and its details (if any) to the final `isShort`, or `None` if it throws. */
  type Verdict = (string, Option<VideoDetails>) -> Option<bool>

  const DefaultMaxResults: nat := 20
  const DefaultContentType: string := "videos"

  predicate IsKnownContentType(contentType: string) {
    contentType == "both" || contentType == "videos" || contentType == "shorts"
  }

  /** `Math.max(maxResults * 5, 100)`: the number of videos asked of the listing search. */
  function FetchSize(maxResults: nat): (n: nat)
    ensures n >= 100 && n >= 5 * maxResults
    ensures n == 100 || n == 5 * maxResults
  {
    if 5 * maxResults >= 100 then 5 * maxResults else 100
  }

  // ---- videoDetailsMap ----

  /** `videoDetailsMap` after the `forEach`: each id maps to its record's details, later ones overwriting. */
  function DetailsMapOf(records: seq<DetailsRecord>): map<string, VideoDetails> {
    if records == [] then map[]
    else
      var last := records[|records| - 1];
      DetailsMapOf(records[..|records| - 1])[last.id := last.details]
  }

  method BuildDetailsMap(records: seq<DetailsRecord>) returns (m: map<string, VideoDetails>)
    ensures m == DetailsMapOf(records)
  {
    m := map[];
    var i := 0;
    while i < |records|
      invariant 0 <= i <= |records|
      invariant m == DetailsMapOf(records[..i])
    {
      assert records[..i + 1][..i] == records[..i];
      m := m[records[i].id := records[i].details];
      i := i + 1;
    }
    assert records[..i] == records;
  }

  function RecordIds(records: seq<DetailsRecord>): set<string> {
    set r | r in records :: r.id
  }

  /** The map has exactly the ids of the records as keys. */
  lemma {:induction false} DetailsMapKeys(records: seq<DetailsRecord>)
    ensures DetailsMapOf(records).Keys == RecordIds(records)
  {
    if records != [] {
      var init := records[..|records| - 1];
      DetailsMapKeys(init);
      assert records == init + [records[|records| - 1]];
      assert RecordIds(records) == RecordIds(init) + {records[|records| - 1].id};
    }
  }

  /** The last record with a given id is the one the map keeps. */
  lemma {:induction false} DetailsMapLastWins(records: seq<DetailsRecord>, j: nat)
    requires j < |records|
    requires forall k :: j < k < |records| ==> records[k].id != records[j].id
    ensures records[j].id in DetailsMapOf(records)
    ensures DetailsMapOf(records)[records[j].id] == records[j].details
  {
    if j < |records| - 1 {
      var init := records[..|records| - 1];
      DetailsMapLastWins(init, j);
    }
  }

  // ---- per-video processing ----

  function VideoIds(items: seq<ListedVideo>): (ids: seq<string>)
    ensures |ids| == |items| && forall k :: 0 <= k < |items| ==> ids[k] == items[k].videoId
  {
    if items == [] then [] else VideoIds(items[..|items| - 1]) + [items[|items| - 1].videoId]
  }

  /** `videoData`; reading the medium thumbnail's url throws when it is missing. */
  function VideoDataOf(item: ListedVideo): Option<VideoData> {
    match item.mediumThumbnail
    case None => None
    case Some(url) => Some(VideoData(item.videoId, item.title, item.description, item.publishedAt, url))
  }

  /** `videoDetailsMap[item.id.videoId]`. */
  function DetailsFor(detailsMap: map<string, VideoDetails>, id: string): Option<VideoDetails> {
    if id in detailsMap then Some(detailsMap[id]) else None
  }

  /** One `{ videoData, isShort }`, or `None` when building it throws. */
  function ProcessOne(item: ListedVideo, detailsMap: map<string, VideoDetails>, verdict: Verdict): Option<Processed> {
    var data := VideoDataOf(item);
    var isShort := verdict(item.videoId, DetailsFor(detailsMap, item.videoId));
    if data.None? || isShort.None? then None else Some(Processed(data.value, isShort.value))
  }

  /** `Promise.all` over the per-video promises: all results in order, or `None` if any throws. */
  function ProcessAll(items: seq<ListedVideo>, detailsMap: map<string, VideoDetails>, verdict: Verdict): Option<seq<Processed>> {
    if items == [] then Some([])
    else
      match ProcessAll(items[..|items| - 1], detailsMap, verdict)
      case None => None
      case Some(done) =>
        match ProcessOne(items[|items| - 1], detailsMap, verdict)
        case None => None
        case Some(p) => Some(done + [p])
  }

  /** The whole listing succeeds iff every video does, and then yields one result per video, in order. */
  lemma {:induction false} ProcessAllMeaning(items: seq<ListedVideo>, detailsMap: map<string, VideoDetails>, verdict: Verdict)
    ensures ProcessAll(items, detailsMap, verdict).Some?
            <==> forall k :: 0 <= k < |items| ==> ProcessOne(items[k], detailsMap, verdict).Some?
    ensures ProcessAll(items, detailsMap, verdict).Some? ==>
              var ps := ProcessAll(items, detailsMap, verdict).value;
              |ps| == |items| && forall k :: 0 <= k < |items| ==> Some(ps[k]) == ProcessOne(items[k], detailsMap, verdict)
  {
    if items != [] {
      var init := items[..|items| - 1];
      ProcessAllMeaning(init, detailsMap, verdict);
      assert forall k :: 0 <= k < |init| ==> items[k] == init[k];
    }
  }

  /** Once one video throws, the whole `Promise.all` does. */
  lemma {:induction false} FailureSpreads(items: seq<ListedVideo>, i: nat, detailsMap: map<string, VideoDetails>, verdict: Verdict)
    requires i < |items| && ProcessOne(items[i], detailsMap, verdict).None?
    ensures ProcessAll(items, detailsMap, verdict).None?
  {
    ProcessAllMeaning(items, detailsMap, verdict);
  }

  /** The `items.map(async item => ...)` and its `Promise.all`, one video after another. */
  method ProcessVideos(items: seq<ListedVideo>, detailsMap: map<string, VideoDetails>, verdict: Verdict)
    returns (r: Option<seq<Processed>>)
    ensures r == ProcessAll(items, detailsMap, verdict)
  {
    var done: seq<Processed> := [];
    var i := 0;
    while i < |items|
      invariant 0 <= i <= |items|
      invariant ProcessAll(items[..i], detailsMap, verdict) == Some(done)
    {
      assert items[..i + 1][..i] == items[..i];
      var p := ProcessOne(items[i], detailsMap, verdict);
      if p.None? {
        FailureSpreads(items, i, detailsMap, verdict);
        return None;
      }
      done := done + [p.value];
      i := i + 1;
    }
    assert items[..i] == items;
    return Some(done);
  }

  // ---- the listing after the channel id is known ----

  /** The response body for the processed videos. */
  function Outcome(contentType: string, ps: seq<Processed>, maxResults: nat): Response {
    var videos := SelectContent(contentType, ShortsOf(ps), RegularOf(ps), maxResults);
    Listed(videos, CountsOf(videos))
  }

  /**
   * Everything from the `contentType` gate to the JSON body: an unknown type lists nothing and
   * asks nothing of the API; otherwise a failing call or video gives a 500.
   */
  function ListingFor(channelId: string, contentType: string, maxResults: nat, backend: Backend, verdict: Verdict): Response {
    if !IsKnownContentType(contentType) then Outcome(contentType, [], maxResults)
    else
      match backend.listVideos(channelId, FetchSize(maxResults))
      case None => ServerError
      case Some(items) =>
        match backend.fetchDetails(VideoIds(items))
        case None => ServerError
        case Some(records) =>
          match ProcessAll(items, DetailsMapOf(records), verdict)
          case None => ServerError
          case Some(ps) => Outcome(contentType, ps, maxResults)
  }

  method List(channelId: string, contentType: string, maxResults: nat, backend: Backend, verdict: Verdict)
    returns (resp: Response)
    ensures resp == ListingFor(channelId, contentType, maxResults, backend, verdict)
  {
    var processed: seq<Processed> := [];
    if IsKnownContentType(contentType) {
      var items := backend.listVideos(channelId, FetchSize(maxResults));
      if items.None? {
        return ServerError;
      }
      var records := backend.fetchDetails(VideoIds(items.value));
      if records.None? {
        return ServerError;
      }
      var detailsMap := BuildDetailsMap(records.value);
      var ps := ProcessVideos(items.value, detailsMap, verdict);
      if ps.None? {
        return ServerError;
      }
      processed := ps.value;
    }
    var videos, counts := Respond(contentType, processed, maxResults);
    resp := Listed(videos, counts);
  }

  predicate WellFormedListing(contentType: string, maxResults: nat, resp: Response) {
    && (resp.ServerError? || resp.Listed?)
    && (resp.Listed? ==> resp.counts.regular + resp.counts.shorts == resp.counts.returned == |resp.videos| <= maxResults)
    && (resp.Listed? && contentType == "shorts" ==> resp.counts.regular == 0 && forall e :: e in resp.videos ==> e.kind == Short)
    && (resp.Listed? && contentType == "videos" ==> resp.counts.shorts == 0 && forall e :: e in resp.videos ==> e.kind == Regular)
    && (resp.Listed? && contentType == "both" ==> IsNewestFirst(resp.videos))
  }

  lemma OutcomeShape(contentType: string, ps: seq<Processed>, maxResults: nat)
    ensures WellFormedListing(contentType, maxResults, Outcome(contentType, ps, maxResults))
  {
    var resp := Outcome(contentType, ps, maxResults);
    RespondMeaning(contentType, ps, maxResults);
    PartitionTags(ps);
    if contentType == "shorts" {
      assert forall e :: e in resp.videos ==> e in ShortsOf(ps);
    } else if contentType == "videos" {
      assert forall e :: e in resp.videos ==> e in RegularOf(ps);
    }
  }

  /**
   * A listing answer is either a 500 or a body whose counts add up to at most `maxResults`
   * items, of the requested kind; an unknown `contentType` always gives the empty body.
   */
  lemma ListingShape(channelId: string, contentType: string, maxResults: nat, backend: Backend, verdict: Verdict)
    ensures WellFormedListing(contentType, maxResults, ListingFor(channelId, contentType, maxResults, backend, verdict))
    ensures !IsKnownContentType(contentType) ==>
              ListingFor(channelId, contentType, maxResults, backend, verdict) == Listed([], Counts(0, 0, 0))
  {
    if !IsKnownContentType(contentType) {
      OutcomeShape(contentType, [], maxResults);
    } else if backend.listVideos(channelId, FetchSize(maxResults)).Some? {
      var items := backend.listVideos(channelId, FetchSize(maxResults)).value;
      if backend.fetchDetails(VideoIds(items)).Some? {
        var records := backend.fetchDetails(VideoIds(items)).value;
        var ps := ProcessAll(items, DetailsMapOf(records), verdict);
        if ps.Some? {
          OutcomeShape(contentType, ps.value, maxResults);
        }
      }
    }
  }
}
