# SimpleImage geometry core in Dafny

A model of the integer geometry and validation logic of the PHP `SimpleImage`
class (`src/SimpleImage.php`). Every public operation of that class follows
the same pattern: load a file into a GD image, compute sizes and offsets or scan
pixels, call a GD primitive, and save. This model lifts out the computing and
scanning steps and proves what they promise:

- `TrimBox`: the content scanner `imageTrimBox` works on an `array2<int>` of
  colour values, `img[x, y]` being what `imagecolorat(x, y)` returns. The
  scanner is modelled as a method with the source's four nested scan loops. It
  is proved to return the unique tightest box around the non-background pixels,
  or code 2 for a uniform image. The module also models the copy that
  `shrink_to_non_white` asks GD to do with that box.
- `Geometry`: the size calculators of `resize_to_width`, `resize_to_height`,
  `shrink_to_fit`, `shrink_to_square`, `square_crop` and `crop`.
- `Placement`: the nine-anchor switch of `watermark` and `text`. Names are
  matched after lower-casing, each anchor has alias spellings, and an unknown
  name falls back to the centre.
- `ColorParser`: `hex2rgb`, with PHP's `hexdec` modelled as it behaves.
- `Quality`: the per-format default and clamp of the quality in `save`.
- `Transform`: the row/column copy loops of `flip`, its direction aliases,
  and the angle aliases of `rotate`.
- `Ascii` and `Wrappers`: `strtolower`, hexadecimal digits, and `Option`.

Numbers: PHP computes aspect ratios and halves as floats. GD receives them as
integer arguments and truncates them toward zero. The model holds each such
float as an exact rational `Ratio(num, den)` and converts it with `Trunc`
(toward zero, not Dafny's Euclidean division). This matters wherever a value
can be negative, such as an overlay wider than the image. Comparisons the
source makes on floats (`$new_height > $max_height`) are made on the exact
rational, not on the truncated integer.

Notes on what the code does:

- A 300x150 image shrunk into a 100 square is pasted as 100x50 at y = 25.
  That leaves background bands above and below it, not at the left and right.
- The `if`/`elseif` centring of `shrink_to_square` never leaves an axis
  uncentred in exact arithmetic. Unless the image already fits, one fitted
  side always equals `size`. When it fits, the final re-centring on the
  original width supplies the horizontal offset. `ShrinkToSquareCentres`
  proves this.
- For text, the centre-row baseline is `(ch / 2) - ((th / 2) - size)`, and it
  is truncated once, after the shift. When the text is taller than the image,
  this is not the overlay's centre offset plus `size`.
- The loose comparisons `$new_size == null` and `$new_width == null` also treat
  0 as "not given", so 0 selects the default size.

## Model

| member | source | states |
|---|---|---|
| TrimBox.ImageTrimBox | src/SimpleImage.php:924-1014 | Code 2 exactly when the image is uniform, and then the box is the whole image (l = t = 0, r = w = w1, b = h = h1). Otherwise 0 <= l < r <= w1 and 0 <= t < b <= h1, with w = r - l and h = b - t. Every pixel outside the box is background, and row t, row b-1, column l and column r-1 each hold a non-background pixel. The code is 0 exactly when w = w1 and h = h1, else 1 |
| TrimBox.TrimBoxUnique | src/SimpleImage.php:935-997 | Two boxes that satisfy the scanner's contract are equal, so the box is the tightest one and is determined by the image |
| TrimBox.CentredSquareExample | src/SimpleImage.php:937-995 | A 100x100 background image with a 50x50 centred square of another colour gives code 1 and l = t = 25, r = b = 75, w = h = 50 |
| TrimBox.ShrinkToNonWhite | src/SimpleImage.php:897-913 | With pixel (0,0) as the background, the new canvas has the size of the copied rectangle (a 1:1 copy) and is never empty. The rectangle lies inside the image and every pixel outside it equals the background. On a non-uniform image it is tight on all four sides. On a uniform image it is the whole image |
| Geometry.Trunc | src/SimpleImage.php:600-605 | Float-to-int conversion rounds toward zero: for a non-negative value, r <= num/den < r + 1; for a non-positive one, r - 1 < num/den <= r |
| Geometry.ResizeToWidth | src/SimpleImage.php:599-605 | For a non-negative target width, the new height is the largest integer with height * w <= newWidth * h, so the new shape keeps h / w up to truncation |
| Geometry.ResizeToHeight | src/SimpleImage.php:641-647 | For a non-negative target height, the new width is the largest integer with width * h <= newHeight * w |
| Geometry.ResizeKeepsOriginal | src/SimpleImage.php:599-645 | Resizing to the original width gives the original height, and resizing to the original height gives the original width |
| Geometry.ResizeToWidthMonotone | src/SimpleImage.php:599-603 | A wider target width never gives a smaller height |
| Geometry.FitExact | src/SimpleImage.php:699-718 | The two-pass clamp on exact values: the width is clamped to maxW with the height scaled along, then, if the height still exceeds maxH, the height is clamped and the width rescaled. Both results have positive denominators; their bounds are stated by FitExactBounds |
| Geometry.ShrinkToFit | src/SimpleImage.php:699-720 | The canvas size is the exact fit truncated toward zero. An image that already fits keeps its size (the converse is ShrinkToFitUnchangedIff, the bounds ShrinkToFitWithinBounds) |
| Geometry.FitExactBounds | src/SimpleImage.php:699-718 | The exact two-pass clamp result is within (maxW, maxH) and never larger than the original. It is the original when that fits. Otherwise one side lands exactly on its bound |
| Geometry.ShrinkToFitWithinBounds | src/SimpleImage.php:699-720 | For non-negative bounds, the canvas is 0 <= width <= min(maxW, w) and 0 <= height <= min(maxH, h): it fits and never enlarges |
| Geometry.ShrinkToFitUnchangedIff | src/SimpleImage.php:701-718 | The result is (w, h) if and only if w <= maxW and h <= maxH |
| Geometry.ShrinkToFitIdempotent | src/SimpleImage.php:699-718 | When both result sides are at least 1, shrinking the result again with the same bounds returns it unchanged |
| Geometry.ShrinkToFitTouchesBound | src/SimpleImage.php:701-718 | An image that does not fit is shrunk until its width equals maxW or its height equals maxH |
| Geometry.ShrinkToFitKeepsAspect | src/SimpleImage.php:699-718 | The aspect ratio is kept up to truncation: width * h - w < height * w < width * h + h |
| Geometry.ShrinkToFitExamples | src/SimpleImage.php:699-720 | The 100x100 cases of the shrink-to-fit test: bounds of 100, 75 and 50 give 100x100, 75x75 and 50x50. Bounds 100x200, 200x100 and 200x200 leave the image at 100x100 |
| Geometry.ShrinkToFitCanCollapse | src/SimpleImage.php:699-720 | A 1000x1 image fitted into 10x10 gets height 0 |
| Geometry.ShrinkToSquare | src/SimpleImage.php:776-840 | The canvas is always size x size, and the pasted size is shrink_to_fit's result against (size, size) |
| Geometry.ShrinkToSquareCentres | src/SimpleImage.php:816-831 | Despite the if/elseif and the override, the x offset is always half the horizontal room left by the exact fitted width, and y is half the vertical room, both truncated |
| Geometry.ShrinkToSquareInsideCanvas | src/SimpleImage.php:776-840 | For size >= 0, the pasted image lies inside the square canvas: 0 <= x, x + width <= size, 0 <= y and y + height <= size |
| Geometry.ShrinkToSquareLandscapeExample | src/SimpleImage.php:776-840 | A 300x150 image in a 100 square is pasted as 100x50 at (0, 25) |
| Geometry.OrDefault | src/SimpleImage.php:1049-1056 | The loose `== null` test: an absent or zero requested size selects the computed default (used by Crop and SquareCrop; the cases are pinned by CropExamples and SquareCropCentred) |
| Geometry.SquareCrop | src/SimpleImage.php:1093-1111 | The square cut of `square_crop`: its side is at least 1 and no longer than either side of the image. Centring and the output size are stated by SquareCropCentred |
| Geometry.SquareCropCentred | src/SimpleImage.php:1093-1111 | The cut is the largest square (side = the shorter side) and lies in the image. It is centred, with the right/bottom margin 0 or 1 pixel larger than the left/top. The output side is the requested size, or the square side when none (or 0) is given |
| Geometry.SquareCropExamples | src/SimpleImage.php:1093-1111 | 100x150 and 150x100 images give a 100 square cut at offset 25, and a requested size of 50 gives a 50 output |
| Geometry.Crop | src/SimpleImage.php:1038-1056 | The corners are put in order, so the crop width and height are never negative. That the rectangle spans exactly the corners is CropSpansCorners |
| Geometry.CropSpansCorners | src/SimpleImage.php:1038-1056 | The copied rectangle has non-negative size and exactly the two given corners on each axis |
| Geometry.CropIgnoresCornerOrder | src/SimpleImage.php:1038-1047 | Swapping the corners on either axis gives the same crop |
| Geometry.CropExamples | src/SimpleImage.php:1038-1056 | The crop test's sizes: (0,0)-(100,100) gives 100x100, (0,0)-(50,50) gives width 50, and an explicit 50x50 output is kept |
| Placement.AnchorOf | src/SimpleImage.php:1144-1202 | The switch on the lower-cased position name. It selects an anchor exactly by the alias table: AliasSelectsAnchor, SelectedAnchorIsSpelled and UnknownSelectsCenter state both directions |
| Placement.AliasSelectsAnchor | src/SimpleImage.php:1144-1199 | Every alias spelling of an anchor, in any letter case, selects that anchor |
| Placement.UnknownSelectsCenter | src/SimpleImage.php:1198-1202 | A name that spells no anchor falls through to the centre |
| Placement.SelectedAnchorIsSpelled | src/SimpleImage.php:1144-1203 | Conversely, the selected anchor is one the name spells, or the centre for an unknown name |
| Placement.AnchorIgnoresCase | src/SimpleImage.php:1144 | The selected anchor depends only on the lower-cased name |
| Placement.WatermarkPosition | src/SimpleImage.php:1144-1203 | The overlay's top-left corner for each of the nine anchors. Its meaning is stated by WatermarkByAxes, WatermarkUnknownIsCentre, WatermarkInside and CentreIgnoresMargin |
| Placement.WatermarkByAxes | src/SimpleImage.php:1144-1203 | Each of the nine cases uses one rule per axis: m on the left/top, c - o - m on the right/bottom, and truncated (c - o)/2 (no margin) in the middle |
| Placement.WatermarkUnknownIsCentre | src/SimpleImage.php:1198-1202 | An unknown position is placed exactly like "center" |
| Placement.WatermarkInside | src/SimpleImage.php:1144-1205 | An overlay that fits in the image with its margin is placed entirely inside the image |
| Placement.TextPosition | src/SimpleImage.php:1247-1306 | The text's left edge and baseline for each anchor. Its relation to the overlay placement is stated by TextIsShiftedOverlay and TextCentreTruncatesAfterShift |
| Placement.TextIsShiftedOverlay | src/SimpleImage.php:1247-1306 | When the text is no taller than the image, the text point is the overlay point for the text's size, with y moved down by the font size (the baseline) |
| Placement.TextCentreTruncatesAfterShift | src/SimpleImage.php:1301-1304 | For text taller than the image, the centre baseline is truncated after adding the font size: 11, not 0 + 12 |
| Placement.CentreIgnoresMargin | src/SimpleImage.php:1198-1202 | "center" places the overlay at exactly ((cw - ow)/2, (ch - oh)/2) whatever the margin |
| ColorParser.StripHash | src/SimpleImage.php:148-151 | One leading '#' is removed and can be put back to give the input. A string not starting with '#' is unchanged |
| ColorParser.Hex2Rgb | src/SimpleImage.php:146-179 | A result exists exactly when the string, minus one optional leading '#', has 6 or 3 characters. Every channel is then in 0..255 |
| ColorParser.HexDec | src/SimpleImage.php:175-177 | hexdec of an n-character string is below 16^n, so a two-digit channel is at most 255 |
| ColorParser.RoundTrip | src/SimpleImage.php:146-179 | Parsing the six-digit form of any colour, with or without '#', gives that colour back |
| ColorParser.ShortFormDoubles | src/SimpleImage.php:161-168 | "abc" parses exactly like "aabbcc" |
| ColorParser.HashIsOptional | src/SimpleImage.php:148-151 | A single leading '#' is ignored |
| ColorParser.IgnoresCase | src/SimpleImage.php:146-179 | Upper- and lower-case hex digits give the same colour |
| ColorParser.KnownColours | src/SimpleImage.php:146-179 | "#FFFFFF", "FFFFFF" and "#fff" give white, and "#000000" gives black |
| Quality.SaveEncoder | src/SimpleImage.php:69-113 | An encoder is chosen exactly for image/gif, image/jpeg and image/png. Any other type returns false (None) |
| Quality.JpegQualityIsClamped | src/SimpleImage.php:77-91 | JPEG quality is 85 when null, else the given value clamped to 0..100 |
| Quality.PngLevelIsClamped | src/SimpleImage.php:94-108 | PNG level is 9 when null, else the given value clamped to 0..9 (above 9 becomes 9, below 1 becomes 0) |
| Quality.GifIgnoresQuality | src/SimpleImage.php:73-74 | GIF is saved the same whatever the quality |
| Quality.JpegQualityTable | src/SimpleImage.php:77-91 | Qualities 200, 100, 75, 0 and -100 reach the JPEG encoder as 100, 100, 75, 0 and 0 |
| Transform.FlipAxisOf | src/SimpleImage.php:231-244 | The switch on the lower-cased direction. FlipAxisSpellings states which names select each axis, in both directions |
| Transform.FlipAxisSpellings | src/SimpleImage.php:231-244 | "vertical", "v" and "y" (any case) select the vertical flip, and "horizontal", "h" and "x" the horizontal one, both if and only if |
| Transform.Flip | src/SimpleImage.php:229-249 | The new canvas has the source's size. Vertically, row y is source row h - y - 1. Horizontally, column x is source column w - x - 1. For an unknown direction it stays black |
| Transform.VerticalFlipTwice | src/SimpleImage.php:236-239 | Flipping vertically twice restores every pixel |
| Transform.HorizontalFlipTwice | src/SimpleImage.php:245-248 | Flipping horizontally twice restores every pixel |
| Transform.RotateAliases | src/SimpleImage.php:272-280 | "cw"/"clockwise" (any case) become 270 degrees and "ccw"/"counterclockwise" become 90, each if and only if. Any other name is passed on |
| Transform.ResolveAngle | src/SimpleImage.php:272-280 | A numeric angle passes through unchanged |
| Transform.ResolveAngleIdempotent | src/SimpleImage.php:272-280 | Resolving an already resolved angle changes nothing |

## Left out

- File and codec I/O: `load` (getimagesize, imagecreatefrom*), the GIF/JPEG/PNG encoders, `convert`'s dispatch on the destination file extension, and `rotate`'s temporary file and rename. Only the quality handed to the encoder is modelled.
- GD primitives whose internals are not visible: the interpolation of imagecopyresampled and imagecopyresized, imagerotate, imagefill, imagefilledrectangle and the alpha-blending flags. Only the sizes and offsets passed to them are modelled. The plain `resize` passes its arguments through unchanged, so it has nothing to compute.
- `imagecopymerge_alpha`: three GD copy/merge calls whose blending happens inside GD.
- The filters (grayscale through sepia): each is a call to imagefilter.
- Font rendering: imagettfbbox and imagettftext. The text width and height are inputs. The optional shadow pass draws at the float text point plus its offset, truncated once, so it can land one pixel from the truncated text point plus the offset (x = -0.5 with offset 3 gives 2, not 3). The shadow position is not modelled.
- `get_color_at_position`: it depends on an external colour library.
- `shrink_to_square_non_white`: it only composes `shrink_to_non_white` with `shrink_to_square`, both modelled.
- Float effects: aspect ratios and halves are exact rationals. The model does not reproduce the off-by-one truncations that IEEE double rounding causes. They can happen whenever the exact quotient is a whole number.
- Geometry.ResizeKeepsOriginal: holds only in exact arithmetic. With doubles, an 11x15 image resized to width 11 gets height trunc(11 * (15/11)) = trunc(14.999999999999998) = 14, not 15.
- Geometry.ShrinkToFitKeepsAspect: holds only in exact arithmetic. With doubles, fitting 14x58 into 29x29 gives trunc(29 / (58/14)) = 6, so the canvas is 6x29, not 7x29, and the upper bound fails for it.
- Geometry.ShrinkToFit (and the other size calculators): a computed side below 1 makes `imagecreatetruecolor` fail (a ValueError in PHP 8, `false` followed by failing calls in PHP 7). The model returns the size anyway, for example 10x0 for a 1000x1 image fitted into 10x10 (ShrinkToFitCanCollapse), and does not represent the failure.
- ColorParser.Hex2Rgb: lengths and offsets count characters, while PHP's `strlen`, `substr` and `$s[0]` count bytes. Colour strings with non-ASCII characters can therefore differ: "é12" has 4 bytes and gives false in PHP, but 3 characters and a colour in the model.
- Transform.Flip: the pixel equalities, and VerticalFlipTwice and HorizontalFlipTwice with them, hold for opaque pixels only. `flip` leaves GD's alpha blending on (the default for `imagecreatetruecolor`), so GD blends translucent source pixels onto the black canvas and skips the source's transparent colour. The alpha channel is not modelled.
- The explicit-hex background of `imageTrimBox`: it compares an integer colour index with a hex string using PHP loose comparison. The background is a colour value, by default pixel (0, 0).
- Callers that ignore a `false` from `hex2rgb` (for example, rotate's background colour): the failed parse is modelled as `None`, and what GD then does with missing channels is not. `hexdec` is modelled as it behaves, skipping characters that are not hex digits, so no precondition restricts the input.
- `strtolower` is modelled on ASCII letters only.
- A rotate angle given as a numeric string is converted to degrees by the rotation primitive. ResolveAngle passes such names on without converting them.
- The check for the GD extension at load time.
