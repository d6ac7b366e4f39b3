/**
 * The nine-point anchor switch of `watermark` (src/SimpleImage.php:1144-1203)
 * and `text` (src/SimpleImage.php:1247-1306). The position name is matched after
 * `strtolower`, each anchor has several spellings, and every unknown name falls
 * through to `default`, which is the centre. Halves are PHP floats that GD
 * truncates toward zero, so an overlay larger than its container gets a centre
 * offset rounded toward zero, not down.
 */
module Placement {
  import opened Ascii
  import opened Geometry

  datatype Anchor = TopLeft | Top | TopRight | Left | Center | Right | BottomLeft | Bottom | BottomRight

  datatype Point = Point(x: int, y: int)

  /** The `case` labels of the switch, after lower-casing, in the source's order. */
  function AnchorOf(position: string): (a: Anchor)
  {
    var p := Lower(position);
    if p == "top-left" || p == "left-top" then TopLeft
    else if p == "top-right" || p == "right-top" then TopRight
    else if p == "top" || p == "top-center" || p == "center-top" then Top
    else if p == "bottom-left" || p == "left-bottom" then BottomLeft
    else if p == "bottom-right" || p == "right-bottom" then BottomRight
    else if p == "bottom" || p == "bottom-center" || p == "center-bottom" then Bottom
    else if p == "left" || p == "center-left" || p == "left-center" then Left
    else if p == "right" || p == "center-right" || p == "right-center" then Right
    else Center
  }

  /** The documented spellings of each anchor (all lower case). */
  function Aliases(a: Anchor): (spellings: set<string>)
  {
    match a
    case TopLeft => {"top-left", "left-top"}
    case Top => {"top", "top-center", "center-top"}
    case TopRight => {"top-right", "right-top"}
    case Left => {"left", "center-left", "left-center"}
    case Center => {"center"}
    case Right => {"right", "center-right", "right-center"}
    case BottomLeft => {"bottom-left", "left-bottom"}
    case Bottom => {"bottom", "bottom-center", "center-bottom"}
    case BottomRight => {"bottom-right", "right-bottom"}
  }

  predicate Known(position: string)
  {
    exists a :: Lower(position) in Aliases(a)
  }

  /** Every spelling of an anchor, in any letter case, selects that anchor. */
  lemma AliasSelectsAnchor(position: string, a: Anchor)
    requires Lower(position) in Aliases(a)
    ensures AnchorOf(position) == a
  {
  }

  /** A name that is no spelling of any anchor selects the centre. */
  lemma UnknownSelectsCenter(position: string)
    requires !Known(position)
    ensures AnchorOf(position) == Center
  {
    assert Lower(position) !in Aliases(TopLeft) && Lower(position) !in Aliases(Top);
    assert Lower(position) !in Aliases(TopRight) && Lower(position) !in Aliases(Left);
    assert Lower(position) !in Aliases(Right) && Lower(position) !in Aliases(BottomLeft);
    assert Lower(position) !in Aliases(Bottom) && Lower(position) !in Aliases(BottomRight);
  }

  lemma CenterIsCenter()
    ensures AnchorOf("center") == Center
  {
    LowerOfLowerCase("center");
  }

  /** Conversely, the selected anchor is one the name spells, or the centre fallback. */
  lemma SelectedAnchorIsSpelled(position: string)
    ensures var a := AnchorOf(position);
      Lower(position) in Aliases(a) || (a == Center && !Known(position))
  {
    var a := AnchorOf(position);
    if a == Center && Lower(position) !in Aliases(Center) {
      if Known(position) {
        var b :| Lower(position) in Aliases(b);
        AliasSelectsAnchor(position, b);
      }
    }
  }

  /** Matching ignores letter case: "Top-Left" and "top-left" are the same anchor. */
  lemma AnchorIgnoresCase(position: string)
    ensures AnchorOf(position) == AnchorOf(Lower(position))
  {
    LowerIdempotent(position);
  }

  /** `(c / 2) - (o / 2)` handed to GD: half the slack, truncated toward zero. */
  function Centre(c: int, o: int): (offset: int)
  {
    Trunc(Ratio(c - o, 2))
  }

  /** `watermark`: the top-left corner of the overlay in the image. */
  function WatermarkPosition(position: string, cw: int, ch: int, ow: int, oh: int, margin: int): (p: Point)
  {
    match AnchorOf(position)
    case TopLeft => Point(0 + margin, 0 + margin)
    case TopRight => Point(cw - ow - margin, 0 + margin)
    case Top => Point(Centre(cw, ow), 0 + margin)
    case BottomLeft => Point(0 + margin, ch - oh - margin)
    case BottomRight => Point(cw - ow - margin, ch - oh - margin)
    case Bottom => Point(Centre(cw, ow), ch - oh - margin)
    case Left => Point(0 + margin, Centre(ch, oh))
    case Right => Point(cw - ow - margin, Centre(ch, oh))
    case Center => Point(Centre(cw, ow), Centre(ch, oh))
  }

  /** Where an anchor sits on one axis. */
  datatype Align = Start | Middle | End

  function Column(a: Anchor): (al: Align)
  {
    match a
    case TopLeft | Left | BottomLeft => Start
    case Top | Center | Bottom => Middle
    case TopRight | Right | BottomRight => End
  }

  function Row(a: Anchor): (al: Align)
  {
    match a
    case TopLeft | Top | TopRight => Start
    case Left | Center | Right => Middle
    case BottomLeft | Bottom | BottomRight => End
  }

  /** Reference rule for one axis: the margin from the start, from the end, or centred without margin. */
  function AxisOffset(al: Align, c: int, o: int, margin: int): (offset: int)
  {
    match al
    case Start => margin
    case Middle => Centre(c, o)
    case End => c - o - margin
  }

  /** The switch is the product of one rule per axis. */
  lemma WatermarkByAxes(position: string, cw: int, ch: int, ow: int, oh: int, margin: int)
    ensures var a := AnchorOf(position);
      WatermarkPosition(position, cw, ch, ow, oh, margin)
        == Point(AxisOffset(Column(a), cw, ow, margin), AxisOffset(Row(a), ch, oh, margin))
  {
  }

  /** Every unknown position is placed like "center". */
  lemma WatermarkUnknownIsCentre(position: string, cw: int, ch: int, ow: int, oh: int, margin: int)
    requires !Known(position)
    ensures WatermarkPosition(position, cw, ch, ow, oh, margin)
         == WatermarkPosition("center", cw, ch, ow, oh, margin)
    ensures WatermarkPosition(position, cw, ch, ow, oh, margin) == Point(Centre(cw, ow), Centre(ch, oh))
  {
    UnknownSelectsCenter(position);
    CenterIsCenter();
  }

  /** An overlay that fits inside the container with its margin is placed inside it. */
  lemma WatermarkInside(position: string, cw: int, ch: int, ow: int, oh: int, margin: int)
    requires 0 <= ow && 0 <= oh && 0 <= margin && ow + margin <= cw && oh + margin <= ch
    ensures var p := WatermarkPosition(position, cw, ch, ow, oh, margin);
      0 <= p.x && p.x + ow <= cw && 0 <= p.y && p.y + oh <= ch
  {
  }

  /**
   * `text`: the text's left edge and baseline. Text width and height come from
   * the font's bounding box and `size` is the font size; the baseline sits `size`
   * below the top edge of the text.
   */
  function TextPosition(position: string, cw: int, ch: int, tw: int, th: int, size: int, margin: int): (p: Point)
  {
    var top := 0 + size + margin;
    var bottom := ch - th - margin + size;
    var middle := Trunc(Ratio(ch - th + 2 * size, 2));  // (ch / 2) - ((th / 2) - size)
    match AnchorOf(position)
    case TopLeft => Point(0 + margin, top)
    case TopRight => Point(cw - tw - margin, top)
    case Top => Point(Centre(cw, tw), top)
    case BottomLeft => Point(0 + margin, bottom)
    case BottomRight => Point(cw - tw - margin, bottom)
    case Bottom => Point(Centre(cw, tw), bottom)
    case Left => Point(0 + margin, middle)
    case Right => Point(cw - tw - margin, middle)
    case Center => Point(Centre(cw, tw), middle)
  }

  /**
   * Text is placed like an overlay of the text's size, shifted down by the font
   * size to reach the baseline, whenever the text is no taller than the image.
   */
  lemma TextIsShiftedOverlay(position: string, cw: int, ch: int, tw: int, th: int, size: int, margin: int)
    requires th <= ch && size >= 0
    ensures var p := TextPosition(position, cw, ch, tw, th, size, margin);
      var q := WatermarkPosition(position, cw, ch, tw, th, margin);
      p == Point(q.x, q.y + size)
  {
    assert Trunc(Ratio(ch - th + 2 * size, 2)) == Centre(ch, th) + size;
  }

  /**
   * For text taller than the image the centre row is not the overlay shifted by
   * `size`: the float is truncated once, after the shift, toward zero.
   */
  lemma TextCentreTruncatesAfterShift()
    ensures TextPosition("center", 100, 10, 0, 11, 12, 0).y == 11
    ensures WatermarkPosition("center", 100, 10, 0, 11, 0).y + 12 == 12
  {
    CenterIsCenter();
  }

  /** Centre placement is exactly half the slack and ignores the margin. */
  lemma CentreIgnoresMargin(cw: int, ch: int, ow: int, oh: int, m1: int, m2: int)
    requires ow <= cw && oh <= ch
    ensures WatermarkPosition("center", cw, ch, ow, oh, m1) == WatermarkPosition("center", cw, ch, ow, oh, m2)
    ensures WatermarkPosition("center", cw, ch, ow, oh, m1) == Point((cw - ow) / 2, (ch - oh) / 2)
  {
    CenterIsCenter();
  }
}
