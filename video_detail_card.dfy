/**
 * The values the video detail card shows: the thumbnail URL (the chosen
 * frame, else the video itself, rewritten to a small JPEG rendition), the
 * name and alt text with their fallbacks, the rounded duration badge and the
 * status label.
 */
module VideoDetailCard {
  import opened Wrappers
  import opened JsString
  import opened Records

  const Placeholder: string := "/placeholder.png"
  const UploadMarker: string := "/upload/"
  /** The marker with the resize, crop, quality and format transformations inserted after it. */
  const ResizedUpload: string := "/upload/w_400,h_225,c_fill,q_auto,f_jpg/"

  /** `a || fallback` for an optional string: `null` and `""` are falsy. */
  function OrElse(a: Option<string>, fallback: string): (r: string)
    ensures a.Some? && a.value != "" ==> r == a.value
    ensures a.None? || a.value == "" ==> r == fallback
  {
    if a.Some? && a.value != "" then a.value else fallback
  }

  // ---------------- thumbnail ----------------

  /** `video.frames?.[0]?.imageUrl || video.originalUrl`. */
  function RawThumbnailUrl(frames: Option<seq<ProcessedFrameRow>>, originalUrl: string): string {
    if frames.Some? && |frames.value| > 0 && frames.value[0].imageUrl != "" then frames.value[0].imageUrl
    else originalUrl
  }

  /** The first `/upload/` gains the transformations; then the first `.mp4` becomes `.jpg`. */
  function Rewrite(raw: string): string {
    ReplaceFirst(ReplaceFirst(raw, UploadMarker, ResizedUpload), ".mp4", ".jpg")
  }

  /** The `src` of the card's image. */
  function ThumbnailUrl(frames: Option<seq<ProcessedFrameRow>>, originalUrl: string): string {
    var raw := RawThumbnailUrl(frames, originalUrl);
    if raw == "" then Placeholder else Rewrite(raw)
  }

  /** Replacing the first occurrence changes the length by the difference of the two patterns, once. */
  lemma ReplaceFirstLength(s: string, pat: string, rep: string)
    ensures |ReplaceFirst(s, pat, rep)| == |s| + (if IndexOf(s, pat).Some? then |rep| - |pat| else 0)
  {
    match IndexOf(s, pat)
    case None =>
    case Some(i) =>
      assert OccursAt(s, pat, i);
      assert |s[..i] + rep + s[i + |pat|..]| == i + |rep| + (|s| - i - |pat|);
  }

  /**
   * The thumbnail rule. The source is the first frame's image when it has
   * one, else the video's own URL; with neither the placeholder is shown.
   * Otherwise the URL grows by the inserted transformations exactly when it
   * holds `/upload/` (`.mp4` to `.jpg` keeps the length), so the result is
   * never empty, and a URL holding neither pattern is shown unchanged.
   */
  lemma ThumbnailRule(frames: Option<seq<ProcessedFrameRow>>, originalUrl: string)
    ensures var raw := RawThumbnailUrl(frames, originalUrl);
      && (frames.Some? && |frames.value| > 0 && frames.value[0].imageUrl != "" ==> raw == frames.value[0].imageUrl)
      && (frames.None? || |frames.value| == 0 || frames.value[0].imageUrl == "" ==> raw == originalUrl)
      && (raw == "" <==> (frames.None? || |frames.value| == 0 || frames.value[0].imageUrl == "") && originalUrl == "")
      && (raw == "" ==> ThumbnailUrl(frames, originalUrl) == Placeholder)
      && (raw != "" ==>
            |ThumbnailUrl(frames, originalUrl)| ==
            |raw| + (if IndexOf(raw, UploadMarker).Some? then |ResizedUpload| - |UploadMarker| else 0))
      && (raw != "" && IndexOf(raw, UploadMarker).None? && IndexOf(raw, ".mp4").None? ==>
            ThumbnailUrl(frames, originalUrl) == raw)
      && ThumbnailUrl(frames, originalUrl) != ""
  {
    var raw := RawThumbnailUrl(frames, originalUrl);
    if raw != "" {
      var resized := ReplaceFirst(raw, UploadMarker, ResizedUpload);
      ReplaceFirstLength(raw, UploadMarker, ResizedUpload);
      ReplaceFirstLength(resized, ".mp4", ".jpg");
    }
  }

  // ---------------- name, alt text, duration ----------------

  /** The heading: the original name, else "Untitled Video". */
  function DisplayName(originalName: Option<string>): (r: string)
    ensures r != ""
    ensures originalName.Some? && originalName.value != "" ==> r == originalName.value
    ensures originalName.None? || originalName.value == "" ==> r == "Untitled Video"
  {
    OrElse(originalName, "Untitled Video")
  }

  /** The image's alt text: the original name, else "Video thumbnail". */
  function AltText(originalName: Option<string>): (r: string)
    ensures r != ""
    ensures originalName.Some? && originalName.value != "" ==> r == originalName.value
    ensures originalName.None? || originalName.value == "" ==> r == "Video thumbnail"
  {
    OrElse(originalName, "Video thumbnail")
  }

  /** `Math.round(x)`: the nearest integer, halves rounded up. */
  function Round(x: real): (n: int)
    ensures n as real - 0.5 <= x < n as real + 0.5
  {
    (x + 0.5).Floor
  }

  /** The duration badge: `Math.round(video.duration || 0)` seconds. */
  function DurationBadge(duration: Option<real>): (n: int)
    ensures duration.None? ==> n == 0
    ensures duration.Some? ==> n as real - 0.5 <= duration.value < n as real + 0.5
    ensures duration.Some? && duration.value >= 0.0 ==> n >= 0
  {
    Round(if duration.Some? && duration.value != 0.0 then duration.value else 0.0)
  }

  // ---------------- status ----------------

  /** The status line: a label for each of the three statuses, none for any other value. */
  function StatusLabel(status: string): Option<string> {
    if status == "completed" then Some("Completed")
    else if status == "processing" then Some("Processing")
    else if status == "failed" then Some("Failed")
    else None
  }

  /**
   * A label shows exactly for the stored names of the three statuses, and
   * the three labels differ.
   */
  lemma StatusLabelIffKnown(status: string)
    ensures StatusLabel(status).Some? <==> exists st :: StatusName(st) == status
    ensures forall a, b :: a != b ==> StatusLabel(StatusName(a)) != StatusLabel(StatusName(b))
  {
    if StatusLabel(status).Some? {
      var st := if status == "completed" then Completed else if status == "processing" then Processing else Failed;
      assert StatusName(st) == status;
    }
    forall a, b | a != b
      ensures StatusLabel(StatusName(a)) != StatusLabel(StatusName(b))
    {
      assert StatusName(a) != StatusName(b) by {
        assert |StatusName(a)| != |StatusName(b)|;
      }
    }
  }
}
