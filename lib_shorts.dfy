/**
 * The Shorts classifier of lib/youtube.js: a tri-state `isYouTubeShort` that never answers
 * "Short" by itself (false, or null meaning "ask the probe"), and the decision
 * `isYouTubeShortEnhanced` takes on the pixel size reported by the video-inspection tool.
 */
module LibShorts {
  import opened Wrappers
  import opened Duration
  import opened Video

  /**
   * `isYouTubeShort`: `Some(false)` is JavaScript's `false`, `None` its `null`. A video without
   * details or duration, or over 180 s, is regular; any other one must be escalated.
   */
  function IsYouTubeShort(details: Option<VideoDetails>): (r: Option<bool>)
    ensures r != Some(true)
    ensures r.None? <==> details.Some? && HasDuration(details.value)
                         && ParseDuration(details.value.duration.value) <= 180
  {
    if details.None? || !HasDuration(details.value) then Some(false)
    else if ParseDuration(details.value.duration.value) > 180 then Some(false)
    else None
  }

  /** What the inspection tool reported: its size fields (0 when absent), or a failure of any kind. */
  datatype DimensionProbe = ProbeFailed | Probed(width: nat, height: nat)

  /**
   * `isYouTubeShortEnhanced` after its probe: a Short iff `height / width > 1.0`, i.e. the frame
   * is taller than wide; the caller's fallback when the probe failed or lacks a dimension.
   */
  function IsYouTubeShortEnhanced(probe: DimensionProbe, fallback: bool): (r: bool)
    ensures probe.ProbeFailed? ==> r == fallback
    ensures probe.Probed? && (probe.width == 0 || probe.height == 0) ==> r == fallback
    ensures probe.Probed? && probe.width > 0 && probe.height > 0 ==> (r <==> probe.height > probe.width)
  {
    match probe
    case ProbeFailed => fallback
    case Probed(width, height) =>
      if width == 0 || height == 0 then fallback else height > width
  }

  /** A portrait 1080x1920 frame is a Short; a landscape one is not, whatever the fallback. */
  lemma PortraitProbe(fallback: bool)
    ensures IsYouTubeShortEnhanced(Probed(1080, 1920), fallback)
    ensures !IsYouTubeShortEnhanced(Probed(1920, 1080), fallback)
  {
  }
}
