/**
 * The `POST /api/channel-videos` route of server.js: the channel id from server.js's
 * `extractChannelId`; a per-video `isShort` from server.js's `isYouTubeShort`, re-decided by
 * the /shorts/ HEAD probe for videos between 60 and 180 s; then the shared listing pipeline.
 * Requests with another method never reach this route.
 */
module ServerRoute {
  import opened Wrappers
  import opened Duration
  import opened Video
  import opened ServerShorts
  import opened ChannelUrl
  import opened HandleLookup
  import opened Listing
  import opened Pipeline

  /**
   * A video's final `isShort`: `isYouTubeShort`'s answer, replaced by the probe's (with that
   * answer as fallback) when the duration lies in (60, 180]; `None` when details exist without a
   * duration field, since `parseDuration` is then called on `undefined` and throws.
   */
  function FinalIsShort(details: Option<VideoDetails>, probe: HeadProbe): Option<bool> {
    var first := IsYouTubeShort(details);
    match details
    case None => Some(first)
    case Some(v) =>
      if v.duration.None? then None
      else
        var seconds := ParseDuration(v.duration.value);
        if 60 < seconds <= 180 then Some(IsYouTubeShortEnhanced(probe, first)) else Some(first)
  }

  function VerdictOf(probe: string -> HeadProbe): Verdict {
    (id, details) => FinalIsShort(details, probe(id))
  }

  /**
   * The probe is consulted only for durations in (60, 180]: elsewhere the classifier's answer
   * stands; inside, a HEAD status decides alone (200 means Short, even against a keyword or a
   * vertical thumbnail) and a failed probe keeps the classifier's answer.
   */
  lemma EscalationWindow(v: VideoDetails, probe: HeadProbe)
    requires v.duration.Some?
    ensures var seconds := ParseDuration(v.duration.value);
      && (!(60 < seconds <= 180) ==> FinalIsShort(Some(v), probe) == Some(IsYouTubeShort(Some(v))))
      && (60 < seconds <= 180 && probe.HeadStatus? ==> FinalIsShort(Some(v), probe) == Some(probe.status == 200))
      && (60 < seconds <= 180 && probe.HeadFailed? ==> FinalIsShort(Some(v), probe) == Some(IsYouTubeShort(Some(v))))
  {
  }

  /** A keyword-marked 90 s video is still listed as regular when its /shorts/ address answers 404. */
  lemma ProbeOverridesKeyword(v: VideoDetails)
    requires v.duration == Some("PT1M30S") && HasShortIndicator(TextToCheck(v))
    ensures IsYouTubeShort(Some(v))
    ensures FinalIsShort(Some(v), HeadStatus(404)) == Some(false)
  {
    ExampleMinutesSeconds();
    KeywordBeatsDuration(v);
  }

  /** The response the route sends. */
  function HandleSpec(req: Request, backend: Backend, probe: string -> HeadProbe): Response {
    if req.channelUrl.None? then ServerError
    else
      var channelId := ServerExtractChannelId(req.channelUrl.value, backend.channelSearch);
      if channelId.None? || channelId.value == "" then BadRequest
      else
        ListingFor(channelId.value, req.contentType.GetOr(DefaultContentType),
                   req.maxResults.GetOr(DefaultMaxResults), backend, VerdictOf(probe))
  }

  method Handle(req: Request, backend: Backend, probe: string -> HeadProbe) returns (resp: Response)
    ensures resp == HandleSpec(req, backend, probe)
  {
    var maxResults := req.maxResults.GetOr(DefaultMaxResults);
    var contentType := req.contentType.GetOr(DefaultContentType);
    if req.channelUrl.None? {
      return ServerError;
    }
    var channelId := ServerExtractChannelId(req.channelUrl.value, backend.channelSearch);
    if channelId.None? || channelId.value == "" {
      return BadRequest;
    }
    resp := List(channelId.value, contentType, maxResults, backend, VerdictOf(probe));
  }

  /** A URL no pattern recognises gives the 400, whatever the API would answer. */
  lemma UnrecognisedUrlIsBadRequest(req: Request, backend: Backend, probe: string -> HeadProbe)
    requires req.channelUrl.Some? && ParseChannelUrl(req.channelUrl.value).None?
    ensures HandleSpec(req, backend, probe) == BadRequest
  {
  }

  /** Every answer is a 400 or a well-formed listing or 500, as in the Next.js handler. */
  lemma ResponseShape(req: Request, backend: Backend, probe: string -> HeadProbe)
    ensures var resp := HandleSpec(req, backend, probe);
      WellFormedListing(req.contentType.GetOr(DefaultContentType), req.maxResults.GetOr(DefaultMaxResults), resp)
      || resp == BadRequest
    ensures var resp := HandleSpec(req, backend, probe);
      resp.Listed? && !IsKnownContentType(req.contentType.GetOr(DefaultContentType)) ==> resp == Listed([], Counts(0, 0, 0))
  {
    if req.channelUrl.Some? {
      var channelId := ServerExtractChannelId(req.channelUrl.value, backend.channelSearch);
      if channelId.Some? && channelId.value != "" {
        ListingShape(channelId.value, req.contentType.GetOr(DefaultContentType),
                     req.maxResults.GetOr(DefaultMaxResults), backend, VerdictOf(probe));
      }
    }
  }
}
