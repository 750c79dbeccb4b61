/**
 * The Shorts classifier of server.js: `isYouTubeShort`, whose rules run in the order
 * keyword, vertical thumbnail, at most 60 s, over 180 s; and the decision `isYouTubeShortEnhanced`
 * takes on the status of a HEAD request for the video's /shorts/ address.
 */
module ServerShorts {
  import opened Wrappers
  import opened Strings
  import opened Duration
  import opened Video

  /** The lower-cased description and tags, joined by spaces. */
  function TextToCheck(v: VideoDetails): string {
    Lower(v.description.GetOr("")) + " " + Lower(Join(v.tags, " "))
  }

  /** Any of the fixed Shorts markers occurs in the text. */
  predicate HasShortIndicator(text: string) {
    Contains(text, "#shorts") || Contains(text, "#short")
    || Contains(text, "youtube shorts") || Contains(text, "ytshorts")
  }

  /** `maxres || standard || high || medium || default`: the first size present, whatever its fields. */
  function BestThumbnail(t: Thumbnails): Option<Thumbnail> {
    if t.maxres.Some? then t.maxres
    else if t.standard.Some? then t.standard
    else if t.high.Some? then t.high
    else if t.medium.Some? then t.medium
    else t.default
  }

  /** Both dimensions present and `width / height < 0.9`, i.e. `10 * width < 9 * height`. */
  predicate IsVertical(t: Thumbnail) {
    t.width != 0 && t.height != 0 && 10 * t.width < 9 * t.height
  }

  predicate HasVerticalThumbnail(v: VideoDetails) {
    v.thumbnails.Some? && var best := BestThumbnail(v.thumbnails.value); best.Some? && IsVertical(best.value)
  }

  /** The duration in seconds, when the details carry a (truthy) duration. */
  function Seconds(v: VideoDetails): nat
    requires HasDuration(v)
  {
    ParseDuration(v.duration.value)
  }

  /** `isYouTubeShort`, rule by rule as server.js orders them. */
  function IsYouTubeShort(details: Option<VideoDetails>): (r: bool)
    ensures details.None? || !HasDuration(details.value) ==> !r
    ensures details.Some? && HasDuration(details.value) && Seconds(details.value) <= 60 ==> r
  {
    if details.None? then false
    else
      var v := details.value;
      if !HasDuration(v) then false
      else
        var d := Seconds(v);
        if HasShortIndicator(TextToCheck(v)) then true
        else if HasVerticalThumbnail(v) && d <= 180 then true
        else if d <= 60 then true
        else if d > 180 then false
        else false
  }

  /** The keyword rule comes first: a marked video is a Short whatever its duration, even over 180 s. */
  lemma KeywordBeatsDuration(v: VideoDetails)
    requires HasDuration(v) && HasShortIndicator(TextToCheck(v))
    ensures IsYouTubeShort(Some(v))
  {
  }

  /** Without a keyword, a Short is a vertical thumbnail within 180 s, or anything within 60 s. */
  lemma DecisionWithoutKeyword(v: VideoDetails)
    requires HasDuration(v) && !HasShortIndicator(TextToCheck(v))
    ensures IsYouTubeShort(Some(v)) <==> (HasVerticalThumbnail(v) && Seconds(v) <= 180) || Seconds(v) <= 60
  {
  }

  /** Over 180 s only the keyword rule can make a Short. */
  lemma CeilingYieldsOnlyToKeyword(v: VideoDetails)
    requires HasDuration(v) && Seconds(v) > 180
    ensures IsYouTubeShort(Some(v)) <==> HasShortIndicator(TextToCheck(v))
  {
  }

  /**
   * The thumbnail rule looks only at the first size present: when it lacks a dimension the
   * smaller sizes are not consulted.
   */
  lemma FirstPresentThumbnailDecides(v: VideoDetails, t: Thumbnails, big: Thumbnail)
    requires v.thumbnails == Some(t) && t.maxres == Some(big) && (big.width == 0 || big.height == 0)
    ensures !HasVerticalThumbnail(v)
  {
  }

  /** Tagging a video once more never turns a Short into a regular video. */
  lemma MoreTagsKeepShort(v: VideoDetails, tag: string)
    requires IsYouTubeShort(Some(v))
    ensures IsYouTubeShort(Some(v.(tags := v.tags + [tag])))
  {
    var w := v.(tags := v.tags + [tag]);
    if HasShortIndicator(TextToCheck(v)) {
      var extra := TextGrows(v, tag);
      KeywordKept(TextToCheck(v), extra);
      KeywordBeatsDuration(w);
    }
  }

  /** The text checked for markers only grows at its end when a tag is added. */
  lemma TextGrows(v: VideoDetails, tag: string) returns (extra: string)
    ensures TextToCheck(v.(tags := v.tags + [tag])) == TextToCheck(v) + extra
  {
    var tags' := v.tags + [tag];
    assert tags'[..|tags'| - 1] == v.tags;
    var head := Lower(v.description.GetOr("")) + " ";
    if v.tags == [] {
      assert Join(tags', " ") == tag;
      extra := Lower(tag);
      assert TextToCheck(v) == head;
    } else {
      assert Join(tags', " ") == Join(v.tags, " ") + (" " + tag);
      LowerAppend(Join(v.tags, " "), " " + tag);
      extra := Lower(" " + tag);
    }
  }

  lemma KeywordKept(t: string, extra: string)
    requires HasShortIndicator(t)
    ensures HasShortIndicator(t + extra)
  {
    if Contains(t, "#shorts") { ContainsExtend(t, extra, "", "#shorts"); }
    else if Contains(t, "#short") { ContainsExtend(t, extra, "", "#short"); }
    else if Contains(t, "youtube shorts") { ContainsExtend(t, extra, "", "youtube shorts"); }
    else { ContainsExtend(t, extra, "", "ytshorts"); }
  }

  /**
   * The outcome of the HEAD request on `https://www.youtube.com/shorts/<id>`: the status of the
   * final response, after the HTTP client has followed any redirects, or the request threw (a
   * network failure or the 3-second timeout).
   */
  datatype HeadProbe = HeadStatus(status: int) | HeadFailed

  /** `isYouTubeShortEnhanced` after its probe: a Short iff the status is 200; the fallback if the request threw. */
  function IsYouTubeShortEnhanced(probe: HeadProbe, fallback: bool): (r: bool)
    ensures probe.HeadStatus? ==> (r <==> probe.status == 200)
    ensures probe.HeadFailed? ==> r == fallback
  {
    match probe
    case HeadStatus(status) => status == 200
    case HeadFailed => fallback
  }
}
