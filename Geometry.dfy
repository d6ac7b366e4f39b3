/**
 * The size and offset arithmetic of the resizing and cropping operations of
 * src/SimpleImage.php. PHP computes aspect ratios and halves as floats and GD
 * truncates them toward zero when it receives them as integer arguments; here a
 * float is an exact `Ratio` and the hand-over to GD is `Trunc`. Comparisons the
 * source makes on the float (`$new_height > $max_height`) are made on the ratio.
 */
module Geometry {
  import opened Wrappers

  /** The exact value `num / den` of a quantity PHP holds as a float. */
  datatype Ratio = Ratio(num: int, den: int)

  /** A width and height handed to `imagecreatetruecolor`. */
  datatype Size = Size(width: int, height: int)

  /** Conversion of a float to a GD integer argument: truncation toward zero. */
  function Trunc(q: Ratio): (r: int)
    requires q.den > 0
    ensures q.num >= 0 ==> 0 <= r && r * q.den <= q.num < (r + 1) * q.den
    ensures q.num <= 0 ==> r <= 0 && (r - 1) * q.den < q.num <= r * q.den
  {
    if q.num >= 0 then
      DivBounds(q.num, q.den);
      q.num / q.den
    else
      DivBounds(-q.num, q.den);
      var r := -((-q.num) / q.den);
      assert (r - 1) * q.den == -(((-q.num) / q.den + 1) * q.den);
      assert r * q.den == -(((-q.num) / q.den) * q.den);
      r
  }

  lemma DivBounds(n: int, d: int)
    requires n >= 0 && d > 0
    ensures 0 <= n / d && (n / d) * d <= n < (n / d + 1) * d
  {
    var q, m := n / d, n % d;
    assert n == d * q + m;
    assert (q + 1) * d == q * d + d;
  }

  lemma MulLeCancel(a: int, b: int, c: int)
    requires c > 0 && a * c <= b * c
    ensures a <= b
  {
    if a > b {
      assert (b + 1) * c == b * c + c;
      MulMono(b + 1, a, c);
    }
  }

  lemma MulMono(a: int, b: int, c: int)
    requires c >= 0 && a <= b
    ensures a * c <= b * c
  {
    assert b * c - a * c == (b - a) * c;
  }

  // ---------------------------------------------------------------------------
  // resize_to_width, resize_to_height

  /** `resize_to_width` (lines 599-603): the height for `newWidth`, keeping h / w. */
  function ResizeToWidth(w: int, h: int, newWidth: int): (newHeight: int)
    requires w >= 1 && h >= 1
    ensures newWidth >= 0 ==> 0 <= newHeight && newHeight * w <= newWidth * h < (newHeight + 1) * w
  {
    Trunc(Ratio(newWidth * h, w))
  }

  /** `resize_to_height` (lines 641-645): the width for `newHeight`, keeping h / w. */
  function ResizeToHeight(w: int, h: int, newHeight: int): (newWidth: int)
    requires w >= 1 && h >= 1
    ensures newHeight >= 0 ==> 0 <= newWidth && newWidth * h <= newHeight * w < (newWidth + 1) * h
  {
    Trunc(Ratio(newHeight * w, h))
  }

  /** Asking for the original width (height) gives back the original height (width). */
  lemma ResizeKeepsOriginal(w: int, h: int)
    requires w >= 1 && h >= 1
    ensures ResizeToWidth(w, h, w) == h
    ensures ResizeToHeight(w, h, h) == w
  {
    var a := ResizeToWidth(w, h, w);
    MulLeCancel(a, h, w);
    if a < h { MulMono(a + 1, h, w); }
    var b := ResizeToHeight(w, h, h);
    MulLeCancel(b, w, h);
    if b < w { MulMono(b + 1, w, h); }
  }

  /** A wider target never gives a lower image. */
  lemma ResizeToWidthMonotone(w: int, h: int, a: int, b: int)
    requires w >= 1 && h >= 1 && 0 <= a <= b
    ensures ResizeToWidth(w, h, a) <= ResizeToWidth(w, h, b)
  {
    var ha, hb := ResizeToWidth(w, h, a), ResizeToWidth(w, h, b);
    MulMono(a, b, h);
    if ha > hb {
      MulMono(hb + 1, ha, w);
    }
  }

  // ---------------------------------------------------------------------------
  // shrink_to_fit, shrink_to_square

  /**
   * The two-pass clamp of `shrink_to_fit` (lines 699-718) on exact values:
   * first the width is clamped to `maxW` with the height scaled along, then, if
   * the height still exceeds `maxH`, the height is clamped and the width rescaled.
   */
  function FitExact(w: int, h: int, maxW: int, maxH: int): (fit: (Ratio, Ratio))
    requires w >= 1 && h >= 1
    ensures fit.0.den >= 1 && fit.1.den >= 1
  {
    var (newW, newH) :=
      if w > maxW then (Ratio(maxW, 1), Ratio(maxW * h, w))
      else (Ratio(w, 1), Ratio(h, 1));
    if newH.num > maxH * newH.den then (Ratio(maxH * w, h), Ratio(maxH, 1))
    else (newW, newH)
  }

  /** The exact fit never exceeds the bounds or the original, and touches a bound when it shrinks. */
  lemma FitExactBounds(w: int, h: int, maxW: int, maxH: int)
    requires w >= 1 && h >= 1 && maxW >= 0 && maxH >= 0
    ensures var (nw, nh) := FitExact(w, h, maxW, maxH);
      && 0 <= nw.num <= maxW * nw.den && 0 <= nh.num <= maxH * nh.den
      && nw.num <= w * nw.den && nh.num <= h * nh.den
      && (w <= maxW && h <= maxH ==> nw == Ratio(w, 1) && nh == Ratio(h, 1))
      && (w > maxW || h > maxH ==> nw.num == maxW * nw.den || nh.num == maxH * nh.den)
  {
    var (nw, nh) := FitExact(w, h, maxW, maxH);
    assert w * h == h * w;
    if w > maxW {
      MulMono(maxW, w, h);
      if maxW * h > maxH * w {
        assert nw == Ratio(maxH * w, h) && nh == Ratio(maxH, 1);
        MulMono(0, maxH, w);
        MulLeCancel(maxH, h, w);
      } else {
        assert nw == Ratio(maxW, 1) && nh == Ratio(maxW * h, w);
        MulMono(0, maxW, h);
      }
    } else if h > maxH {
      assert nw == Ratio(maxH * w, h) && nh == Ratio(maxH, 1);
      MulMono(maxH, h, w);
      MulMono(w, maxW, h);
      MulMono(0, maxH, w);
    } else {
      assert nw == Ratio(w, 1) && nh == Ratio(h, 1);
    }
  }

  /** `shrink_to_fit` (lines 699-720): the size of the new canvas. */
  function ShrinkToFit(w: int, h: int, maxW: int, maxH: int): (s: Size)
    requires w >= 1 && h >= 1
    ensures w <= maxW && h <= maxH ==> s == Size(w, h)
  {
    var (nw, nh) := FitExact(w, h, maxW, maxH);
    Size(Trunc(nw), Trunc(nh))
  }

  lemma TruncBelow(q: Ratio, bound: int)
    requires q.den >= 1 && 0 <= q.num <= bound * q.den
    ensures 0 <= Trunc(q) <= bound
  {
    MulLeCancel(Trunc(q), bound, q.den);
  }

  /** The result fits the bounds and never enlarges either side. */
  lemma ShrinkToFitWithinBounds(w: int, h: int, maxW: int, maxH: int)
    requires w >= 1 && h >= 1 && maxW >= 0 && maxH >= 0
    ensures var s := ShrinkToFit(w, h, maxW, maxH);
      0 <= s.width <= maxW && 0 <= s.height <= maxH && s.width <= w && s.height <= h
  {
    FitExactBounds(w, h, maxW, maxH);
    var (nw, nh) := FitExact(w, h, maxW, maxH);
    TruncBelow(nw, maxW);
    TruncBelow(nh, maxH);
    TruncBelow(nw, w);
    TruncBelow(nh, h);
  }

  /** The image is left alone exactly when it already fits. */
  lemma ShrinkToFitUnchangedIff(w: int, h: int, maxW: int, maxH: int)
    requires w >= 1 && h >= 1 && maxW >= 0 && maxH >= 0
    ensures ShrinkToFit(w, h, maxW, maxH) == Size(w, h) <==> w <= maxW && h <= maxH
  {
    FitExactBounds(w, h, maxW, maxH);
    ShrinkToFitWithinBounds(w, h, maxW, maxH);
  }

  /** Shrinking a result again with the same bounds changes nothing. */
  lemma ShrinkToFitIdempotent(w: int, h: int, maxW: int, maxH: int)
    requires w >= 1 && h >= 1 && maxW >= 0 && maxH >= 0
    requires ShrinkToFit(w, h, maxW, maxH).width >= 1 && ShrinkToFit(w, h, maxW, maxH).height >= 1
    ensures var s := ShrinkToFit(w, h, maxW, maxH);
      ShrinkToFit(s.width, s.height, maxW, maxH) == s
  {
    var s := ShrinkToFit(w, h, maxW, maxH);
    ShrinkToFitWithinBounds(w, h, maxW, maxH);
    ShrinkToFitUnchangedIff(s.width, s.height, maxW, maxH);
  }

  /** An image that does not fit is shrunk until one side meets its bound. */
  lemma ShrinkToFitTouchesBound(w: int, h: int, maxW: int, maxH: int)
    requires w >= 1 && h >= 1 && maxW >= 0 && maxH >= 0
    requires w > maxW || h > maxH
    ensures var s := ShrinkToFit(w, h, maxW, maxH); s.width == maxW || s.height == maxH
  {
    FitExactBounds(w, h, maxW, maxH);
  }

  /**
   * The aspect ratio is kept up to truncation: the new height differs from the
   * exact `width * h / w` by less than one pixel (scaled by `w`) on the low side
   * and `h / w` pixels on the high side.
   */
  lemma ShrinkToFitKeepsAspect(w: int, h: int, maxW: int, maxH: int)
    requires w >= 1 && h >= 1 && maxW >= 0 && maxH >= 0
    ensures var s := ShrinkToFit(w, h, maxW, maxH);
      s.width * h - w < s.height * w < s.width * h + h
  {
    var s := ShrinkToFit(w, h, maxW, maxH);
    var (nw, nh) := FitExact(w, h, maxW, maxH);
    assert s == Size(Trunc(nw), Trunc(nh));
    if w > maxW && maxW * h <= maxH * w {
      assert nw == Ratio(maxW, 1) && nh == Ratio(maxW * h, w);
      TruncAspect(maxW, s.height, w, h);
    } else if w > maxW || h > maxH {
      MulMono(0, maxH, w);
      assert nw == Ratio(maxH * w, h) && nh == Ratio(maxH, 1);
      TruncAspect(maxH, s.width, h, w);
    } else {
      assert s == Size(w, h);
      assert w * h == h * w;
    }
  }

  /** `t` is the truncated `a * p / q`: it lies below by less than one unit of `q`. */
  lemma TruncAspect(a: int, t: int, q: int, p: int)
    requires q >= 1 && p >= 1 && a * p >= 0 && t == Trunc(Ratio(a * p, q))
    ensures a * p - q < t * q < a * p + p
  {
    assert t * q <= a * p < (t + 1) * q;
    assert (t + 1) * q == t * q + q;
  }

  /** The sizes the shrink-to-fit test expects of a 100x100 image. */
  lemma ShrinkToFitExamples()
    ensures ShrinkToFit(100, 100, 100, 100) == Size(100, 100)
    ensures ShrinkToFit(100, 100, 75, 75) == Size(75, 75)
    ensures ShrinkToFit(100, 100, 50, 50) == Size(50, 50)
    ensures ShrinkToFit(100, 100, 100, 200) == Size(100, 100)
    ensures ShrinkToFit(100, 100, 200, 100) == Size(100, 100)
    ensures ShrinkToFit(100, 100, 200, 200) == Size(100, 100)
  {
  }

  /** A very thin image can be shrunk to a zero-pixel side, which GD then refuses to allocate. */
  lemma ShrinkToFitCanCollapse()
    ensures ShrinkToFit(1000, 1, 10, 10) == Size(10, 0)
  {
  }

  /** Where `shrink_to_square` pastes the fitted image on its `size` x `size` canvas. */
  datatype Paste = Paste(canvas: int, x: int, y: int, width: int, height: int)

  /** Half of the room `fitted` leaves on an axis of length `size`, as GD receives it. */
  function HalfSlack(size: int, fitted: Ratio): (offset: int)
    requires fitted.den >= 1
  {
    Trunc(Ratio(size * fitted.den - fitted.num, 2 * fitted.den))
  }

  /**
   * `shrink_to_square` (lines 776-840): the same clamp against (size, size), then
   * the paste offset: vertical centring if the fitted height is short, else
   * horizontal centring if the fitted width is short, and finally a horizontal
   * re-centring on the original width when both original sides are below `size`.
   */
  function ShrinkToSquare(w: int, h: int, size: int): (p: Paste)
    requires w >= 1 && h >= 1
    ensures p.canvas == size
    ensures Size(p.width, p.height) == ShrinkToFit(w, h, size, size)
  {
    var (nw, nh) := FitExact(w, h, size, size);
    var (x, y) :=
      if size * nh.den > nh.num then (0, HalfSlack(size, nh))
      else if size * nw.den > nw.num then (HalfSlack(size, nw), 0)
      else (0, 0);
    var x := if w < size && h < size then Trunc(Ratio(size - w, 2)) else x;
    Paste(size, x, y, Trunc(nw), Trunc(nh))
  }

  /**
   * Despite the `if`/`elseif`, the fitted image is always centred on BOTH axes:
   * one fitted side always equals `size` unless the image already fits, and in
   * that case the final re-centring supplies the horizontal offset.
   */
  lemma ShrinkToSquareCentres(w: int, h: int, size: int)
    requires w >= 1 && h >= 1 && size >= 0
    ensures var (nw, nh) := FitExact(w, h, size, size);
      var p := ShrinkToSquare(w, h, size);
      p.x == HalfSlack(size, nw) && p.y == HalfSlack(size, nh)
  {
    FitExactBounds(w, h, size, size);
  }

  lemma HalfSlackPlacement(size: int, q: Ratio)
    requires q.den >= 1 && 0 <= q.num <= size * q.den
    ensures 0 <= HalfSlack(size, q) && HalfSlack(size, q) + Trunc(q) <= size
  {
    var o, t, d := HalfSlack(size, q), Trunc(q), q.den;
    var slack := size * d - q.num;
    assert o * (2 * d) <= slack;
    assert t * d <= q.num;
    SplitProduct(o, t, size, d);
    MulLeCancel(o + t, size, 2 * d);
  }

  lemma SplitProduct(o: int, t: int, size: int, d: int)
    ensures (o + t) * (2 * d) == o * (2 * d) + 2 * (t * d)
    ensures size * (2 * d) == 2 * (size * d)
  {
  }

  /** The pasted image lies inside the square canvas. */
  lemma ShrinkToSquareInsideCanvas(w: int, h: int, size: int)
    requires w >= 1 && h >= 1 && size >= 0
    ensures var p := ShrinkToSquare(w, h, size);
      0 <= p.x && p.x + p.width <= size && 0 <= p.y && p.y + p.height <= size
  {
    FitExactBounds(w, h, size, size);
    ShrinkToSquareCentres(w, h, size);
    var (nw, nh) := FitExact(w, h, size, size);
    HalfSlackPlacement(size, nw);
    HalfSlackPlacement(size, nh);
  }

  /** A 300x150 image in a 100 square is pasted as 100x50, 25 pixels from the top. */
  lemma ShrinkToSquareLandscapeExample()
    ensures ShrinkToSquare(300, 150, 100) == Paste(100, 0, 25, 100, 50)
  {
  }

  // ---------------------------------------------------------------------------
  // square_crop, crop

  /** The source square `square_crop` cuts and the side of its output. */
  datatype SquareCut = SquareCut(x: int, y: int, side: int, output: int)

  /** `$new_size == null` is a loose comparison: 0 also selects the default. */
  function OrDefault(requested: Option<int>, default: int): (r: int)
  {
    if requested.None? || requested.value == 0 then default else requested.value
  }

  /**
   * `square_crop` (lines 1093-1111): the longer side is trimmed by (long - short) / 2
   * at its start; the square side is `w - 2 * offset`, which is exactly the short side.
   */
  function SquareCrop(w: int, h: int, newSize: Option<int>): (c: SquareCut)
    requires w >= 1 && h >= 1
    ensures 1 <= c.side && c.side <= w && c.side <= h
  {
    if w > h then
      SquareCut(Trunc(Ratio(w - h, 2)), 0, h, OrDefault(newSize, h))
    else
      SquareCut(0, Trunc(Ratio(h - w, 2)), w, OrDefault(newSize, w))
  }

  /** The cut is the largest square, lies inside the image and is centred to within a pixel. */
  lemma SquareCropCentred(w: int, h: int, newSize: Option<int>)
    requires w >= 1 && h >= 1
    ensures var c := SquareCrop(w, h, newSize);
      && c.side == (if w < h then w else h)
      && 0 <= c.x && c.x + c.side <= w && 0 <= c.y && c.y + c.side <= h
      && 0 <= (w - c.side - c.x) - c.x <= 1 && 0 <= (h - c.side - c.y) - c.y <= 1
      && c.output == (if newSize == None || newSize == Some(0) then c.side else newSize.value)
  {
  }

  /** The sizes the square-crop test expects. */
  lemma SquareCropExamples()
    ensures SquareCrop(100, 100, None).output == 100
    ensures SquareCrop(100, 150, None) == SquareCut(0, 25, 100, 100)
    ensures SquareCrop(150, 100, None) == SquareCut(25, 0, 100, 100)
    ensures SquareCrop(150, 100, Some(50)) == SquareCut(25, 0, 100, 50)
  {
  }

  /** The source rectangle `crop` copies and the size of its output. */
  datatype CropCut = CropCut(x: int, y: int, width: int, height: int, outWidth: int, outHeight: int)

  /**
   * `crop` (lines 1038-1056): the corners are swapped into order, the crop size
   * is their difference, and an absent (or zero) output size defaults to it.
   */
  function Crop(x1: int, y1: int, x2: int, y2: int, newW: Option<int>, newH: Option<int>): (c: CropCut)
    ensures 0 <= c.width && 0 <= c.height
  {
    var (x1, x2) := if x2 < x1 then (x2, x1) else (x1, x2);
    var (y1, y2) := if y2 < y1 then (y2, y1) else (y1, y2);
    var cropW, cropH := x2 - x1, y2 - y1;
    CropCut(x1, y1, cropW, cropH, OrDefault(newW, cropW), OrDefault(newH, cropH))
  }

  /** The copied rectangle is exactly the one spanned by the two corners. */
  lemma CropSpansCorners(x1: int, y1: int, x2: int, y2: int, newW: Option<int>, newH: Option<int>)
    ensures var c := Crop(x1, y1, x2, y2, newW, newH);
      && 0 <= c.width && 0 <= c.height
      && {c.x, c.x + c.width} == {x1, x2} && {c.y, c.y + c.height} == {y1, y2}
  {
  }

  /** Giving the corners in reverse order on either axis crops the same rectangle. */
  lemma CropIgnoresCornerOrder(x1: int, y1: int, x2: int, y2: int, newW: Option<int>, newH: Option<int>)
    ensures Crop(x2, y1, x1, y2, newW, newH) == Crop(x1, y1, x2, y2, newW, newH)
    ensures Crop(x1, y2, x2, y1, newW, newH) == Crop(x1, y1, x2, y2, newW, newH)
  {
  }

  /** The sizes the crop test expects. */
  lemma CropExamples()
    ensures Crop(0, 0, 100, 100, None, None) == CropCut(0, 0, 100, 100, 100, 100)
    ensures Crop(0, 0, 50, 50, None, None).outWidth == 50
    ensures Crop(0, 0, 100, 100, Some(50), Some(50)) == CropCut(0, 0, 100, 100, 50, 50)
  {
  }
}
