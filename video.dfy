/**
 * The per-video metadata the classifiers read: one value of `videoDetailsMap`, built by the
 * listing routes from the details lookup (duration, thumbnails, description, tags).
 */
module Video {
  import opened Wrappers

  /** A thumbnail's pixel size; 0 stands for a missing (JavaScript-falsy) dimension. */
  datatype Thumbnail = Thumbnail(width: nat, height: nat)

  /** The thumbnail sizes a video may offer, from the largest to the smallest. */
  datatype Thumbnails = Thumbnails(
    maxres: Option<Thumbnail>,
    standard: Option<Thumbnail>,
    high: Option<Thumbnail>,
    medium: Option<Thumbnail>,
    default: Option<Thumbnail>)

  /** `duration` is the raw ISO 8601 text; `tags` is already defaulted to `[]` by the routes. */
  datatype VideoDetails = VideoDetails(
    duration: Option<string>,
    thumbnails: Option<Thumbnails>,
    description: Option<string>,
    tags: seq<string>)

  /** JavaScript truthiness of `duration`: present and not the empty string. */
  predicate HasDuration(v: VideoDetails) {
    v.duration.Some? && v.duration.value != ""
  }
}
