/**
 * The handler of pages/api/channel-videos.js: POST only; the channel id from lib/youtube.js's
 * `extractChannelId`; a per-video `isShort` that starts from the tri-state `isYouTubeShort` and
 * asks the dimension probe when that answers null; then the shared listing pipeline.
 */
module ChannelVideosApi {
  import opened Wrappers
  import opened Duration
  import opened Video
  import opened LibShorts
  import opened ChannelUrl
  import opened HandleLookup
  import opened Listing
  import opened Pipeline

  /**
   * A video's final `isShort`: false without details, the probe's answer (fallback false) when
   * `isYouTubeShort` says null, otherwise its false; `None` when the details lack a duration,
   * since `parseDuration` is then called on `undefined` and throws.
   */
  function FinalIsShort(details: Option<VideoDetails>, probe: DimensionProbe): Option<bool> {
    match details
    case None => Some(false)
    case Some(v) =>
      if v.duration.None? then None
      else
        var first := IsYouTubeShort(details);
        if first.None? then Some(IsYouTubeShortEnhanced(probe, false)) else first
  }

  /** The classifier the handler runs, with the probe answering per video id. */
  function VerdictOf(probe: string -> DimensionProbe): Verdict {
    (id, details) => FinalIsShort(details, probe(id))
  }

  /**
   * The final `isShort` is a boolean whenever the details have a duration field, and it is
   * true exactly for a video with a (truthy) duration of at most 180 s whose probe reports a
   * frame taller than wide.
   */
  lemma FinalIsShortMeaning(details: Option<VideoDetails>, probe: DimensionProbe)
    ensures FinalIsShort(details, probe).None? <==> details.Some? && details.value.duration.None?
    ensures FinalIsShort(details, probe) == Some(true) <==>
              details.Some? && HasDuration(details.value)
              && ParseDuration(details.value.duration.value) <= 180
              && probe.Probed? && probe.width > 0 && probe.height > 0 && probe.height > probe.width
  {
  }

  /** The response the handler sends. */
  function HandleSpec(req: Request, backend: Backend, probe: string -> DimensionProbe): Response {
    if req.httpMethod != "POST" then MethodNotAllowed
    else if req.channelUrl.None? then ServerError
    else
      var channelId := LibExtractChannelId(req.channelUrl.value, backend.channelSearch);
      if channelId.None? || channelId.value == "" then BadRequest
      else
        ListingFor(channelId.value, req.contentType.GetOr(DefaultContentType),
                   req.maxResults.GetOr(DefaultMaxResults), backend, VerdictOf(probe))
  }

  method Handle(req: Request, backend: Backend, probe: string -> DimensionProbe) returns (resp: Response)
    ensures resp == HandleSpec(req, backend, probe)
  {
    if req.httpMethod != "POST" {
      return MethodNotAllowed;
    }
    var maxResults := req.maxResults.GetOr(DefaultMaxResults);
    var contentType := req.contentType.GetOr(DefaultContentType);
    if req.channelUrl.None? {
      return ServerError;
    }
    var channelId := LibExtractChannelId(req.channelUrl.value, backend.channelSearch);
    if channelId.None? || channelId.value == "" {
      return BadRequest;
    }
    resp := List(channelId.value, contentType, maxResults, backend, VerdictOf(probe));
  }

  /** Only POST is served: any other method gets the 405 and nothing else. */
  lemma OnlyPostServed(req: Request, backend: Backend, probe: string -> DimensionProbe)
    ensures HandleSpec(req, backend, probe) == MethodNotAllowed <==> req.httpMethod != "POST"
  {
  }

  /** A URL no pattern recognises gives the 400, whatever the API would answer. */
  lemma UnrecognisedUrlIsBadRequest(req: Request, backend: Backend, probe: string -> DimensionProbe)
    requires req.httpMethod == "POST" && req.channelUrl.Some?
    requires ParseChannelUrl(req.channelUrl.value).None?
    ensures HandleSpec(req, backend, probe) == BadRequest
  {
  }

  /**
   * Every answer is a 405, a 400, a 500 or a listing whose counts add up to at most
   * `maxResults` (20 by default) items of the requested kind; an unknown `contentType`
   * gets the empty listing.
   */
  lemma ResponseShape(req: Request, backend: Backend, probe: string -> DimensionProbe)
    ensures var resp := HandleSpec(req, backend, probe);
      WellFormedListing(req.contentType.GetOr(DefaultContentType), req.maxResults.GetOr(DefaultMaxResults), resp)
      || resp == MethodNotAllowed || resp == BadRequest
    ensures var resp := HandleSpec(req, backend, probe);
      resp.Listed? && !IsKnownContentType(req.contentType.GetOr(DefaultContentType)) ==> resp == Listed([], Counts(0, 0, 0))
  {
    if req.httpMethod == "POST" && req.channelUrl.Some? {
      var channelId := LibExtractChannelId(req.channelUrl.value, backend.channelSearch);
      if channelId.Some? && channelId.value != "" {
        ListingShape(channelId.value, req.contentType.GetOr(DefaultContentType),
                     req.maxResults.GetOr(DefaultMaxResults), backend, VerdictOf(probe));
      }
    }
  }
}
