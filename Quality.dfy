/**
 * The quality normalisation of `save` (src/SimpleImage.php:69-113): the MIME type
 * picks the encoder, and the caller's quality (nullable) becomes the value the
 * encoder receives. Encoding itself is not part of this model.
 */
module Quality {
  import opened Wrappers

  /** The encoder `save` calls, with the quality or compression level it passes. */
  datatype Encoder = Gif | Jpeg(quality: int) | Png(level: int)

  const JpegDefault := 85
  const PngDefault := 9

  /** `None` is the `return false` for a MIME type no encoder handles. */
  function SaveEncoder(mime: string, quality: Option<int>): (e: Option<Encoder>)
    ensures e.None? <==> mime != "image/gif" && mime != "image/jpeg" && mime != "image/png"
  {
    if mime == "image/gif" then
      Some(Gif)
    else if mime == "image/jpeg" then
      var q := if quality.None? then JpegDefault else quality.value;
      var q := if q < 0 then 0 else q;
      var q := if q > 100 then 100 else q;
      Some(Jpeg(q))
    else if mime == "image/png" then
      var q := if quality.None? then PngDefault else quality.value;
      var q := if q > 9 then 9 else q;
      var q := if q < 1 then 0 else q;
      Some(Png(q))
    else
      None
  }

  /** Reference definition: `v` forced into `[lo, hi]`. */
  function Clamp(lo: int, hi: int, v: int): (r: int)
    requires lo <= hi
    ensures lo <= r <= hi
    ensures lo <= v <= hi ==> r == v
  {
    if v < lo then lo else if v > hi then hi else v
  }

  /** JPEG quality: 85 when absent, otherwise clamped to 0..100. */
  lemma JpegQualityIsClamped(quality: Option<int>)
    ensures SaveEncoder("image/jpeg", quality)
         == Some(Jpeg(Clamp(0, 100, if quality.None? then JpegDefault else quality.value)))
  {
  }

  /** PNG level: 9 when absent, otherwise clamped to 0..9 (so 0 stays 0; nothing below 1 but 0). */
  lemma PngLevelIsClamped(quality: Option<int>)
    ensures SaveEncoder("image/png", quality)
         == Some(Png(Clamp(0, 9, if quality.None? then PngDefault else quality.value)))
  {
  }

  /** GIF ignores the quality altogether. */
  lemma GifIgnoresQuality(q1: Option<int>, q2: Option<int>)
    ensures SaveEncoder("image/gif", q1) == SaveEncoder("image/gif", q2) == Some(Gif)
  {
  }

  /** The quality table the JPEG round trip through `rotate` expects. */
  lemma JpegQualityTable()
    ensures SaveEncoder("image/jpeg", Some(200)) == Some(Jpeg(100))
    ensures SaveEncoder("image/jpeg", Some(100)) == Some(Jpeg(100))
    ensures SaveEncoder("image/jpeg", Some(75)) == Some(Jpeg(75))
    ensures SaveEncoder("image/jpeg", Some(0)) == Some(Jpeg(0))
    ensures SaveEncoder("image/jpeg", Some(-100)) == Some(Jpeg(0))
  {
  }
}
