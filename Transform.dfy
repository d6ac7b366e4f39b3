/**
 * The pixel-order part of `flip` (src/SimpleImage.php:224-253) and the angle
 * aliases of `rotate` (src/SimpleImage.php:266-285). The rotation itself is done
 * by GD and is not part of this model.
 */
module Transform {
  import opened Wrappers
  import opened Ascii

  datatype Axis = Vertical | Horizontal

  /** The `case` labels of `flip`'s switch, after lower-casing; any other name selects nothing. */
  function FlipAxisOf(direction: string): (axis: Option<Axis>)
  {
    var d := Lower(direction);
    if d == "vertical" || d == "v" || d == "y" then Some(Vertical)
    else if d == "horizontal" || d == "h" || d == "x" then Some(Horizontal)
    else None
  }

  /** Both axes answer to their full name, their initial and the coordinate they mirror, in any case. */
  lemma FlipAxisSpellings(direction: string)
    ensures Lower(direction) in {"vertical", "v", "y"} <==> FlipAxisOf(direction) == Some(Vertical)
    ensures Lower(direction) in {"horizontal", "h", "x"} <==> FlipAxisOf(direction) == Some(Horizontal)
    ensures FlipAxisOf(direction) == FlipAxisOf(Lower(direction))
  {
    LowerIdempotent(direction);
  }

  /** `dst` is `src` upside down: row y of `dst` is row h - y - 1 of `src`. */
  ghost predicate IsVerticalFlip(dst: array2<int>, src: array2<int>)
    reads dst, src
  {
    && dst.Length0 == src.Length0 && dst.Length1 == src.Length1
    && forall x, y :: 0 <= x < dst.Length0 && 0 <= y < dst.Length1 ==>
         dst[x, y] == src[x, src.Length1 - y - 1]
  }

  /** `dst` is `src` mirrored: column x of `dst` is column w - x - 1 of `src`. */
  ghost predicate IsHorizontalFlip(dst: array2<int>, src: array2<int>)
    reads dst, src
  {
    && dst.Length0 == src.Length0 && dst.Length1 == src.Length1
    && forall x, y :: 0 <= x < dst.Length0 && 0 <= y < dst.Length1 ==>
         dst[x, y] == src[src.Length0 - x - 1, y]
  }

  /**
   * `flip`: a new canvas of the source's size (black, colour 0, as
   * `imagecreatetruecolor` makes it) filled one row or one column per
   * iteration; each single-row or single-column `imagecopy` is one `forall`.
   * An unrecognised direction leaves the canvas black, and it is saved as such.
   */
  method Flip(src: array2<int>, direction: string) returns (dst: array2<int>)
    ensures fresh(dst) && dst.Length0 == src.Length0 && dst.Length1 == src.Length1
    ensures FlipAxisOf(direction) == Some(Vertical) ==> IsVerticalFlip(dst, src)
    ensures FlipAxisOf(direction) == Some(Horizontal) ==> IsHorizontalFlip(dst, src)
    ensures FlipAxisOf(direction) == None ==>
      forall x, y :: 0 <= x < dst.Length0 && 0 <= y < dst.Length1 ==> dst[x, y] == 0
  {
    var w, h := src.Length0, src.Length1;
    dst := new int[w, h]((x, y) => 0);
    match FlipAxisOf(direction)
    case Some(Vertical) =>
      var y := 0;
      while y < h
        invariant 0 <= y <= h
        invariant forall i, j :: 0 <= i < w && 0 <= j < y ==> dst[i, j] == src[i, h - j - 1]
      {
        forall x | 0 <= x < w {
          dst[x, y] := src[x, h - y - 1];
        }
        y := y + 1;
      }
    case Some(Horizontal) =>
      var x := 0;
      while x < w
        invariant 0 <= x <= w
        invariant forall i, j :: 0 <= i < x && 0 <= j < h ==> dst[i, j] == src[w - i - 1, j]
      {
        forall y | 0 <= y < h {
          dst[x, y] := src[w - x - 1, y];
        }
        x := x + 1;
      }
    case None =>
  }

  /** Flipping twice about the same axis restores every pixel. */
  lemma VerticalFlipTwice(a: array2<int>, b: array2<int>, c: array2<int>)
    requires IsVerticalFlip(b, a) && IsVerticalFlip(c, b)
    ensures forall x, y :: 0 <= x < a.Length0 && 0 <= y < a.Length1 ==> c[x, y] == a[x, y]
  {
    forall x, y | 0 <= x < a.Length0 && 0 <= y < a.Length1
      ensures c[x, y] == a[x, y]
    {
      assert c[x, y] == b[x, a.Length1 - y - 1];
    }
  }

  lemma HorizontalFlipTwice(a: array2<int>, b: array2<int>, c: array2<int>)
    requires IsHorizontalFlip(b, a) && IsHorizontalFlip(c, b)
    ensures forall x, y :: 0 <= x < a.Length0 && 0 <= y < a.Length1 ==> c[x, y] == a[x, y]
  {
    forall x, y | 0 <= x < a.Length0 && 0 <= y < a.Length1
      ensures c[x, y] == a[x, y]
    {
      assert c[x, y] == b[a.Length0 - x - 1, y];
    }
  }

  /** The `$angle` argument of `rotate`: a number of degrees or a name. */
  datatype Angle = Degrees(degrees: int) | Named(name: string)

  /**
   * `rotate`'s alias step: "cw"/"clockwise" become 270 and "ccw"/"counterclockwise"
   * become 90, after lower-casing; anything else is passed on (lower-cased) to
   * the rotation primitive.
   */
  function ResolveAngle(angle: Angle): (r: Angle)
    ensures angle.Degrees? ==> r == angle
  {
    match angle
    case Degrees(_) => angle
    case Named(name) =>
      var a := Lower(name);
      var a: Angle := if a == "cw" || a == "clockwise" then Degrees(270) else Named(a);
      if a == Named("ccw") || a == Named("counterclockwise") then Degrees(90) else a
  }

  /** The four aliases, in any letter case, and nothing else, turn into degrees. */
  lemma RotateAliases(name: string)
    ensures Lower(name) in {"cw", "clockwise"} <==> ResolveAngle(Named(name)) == Degrees(270)
    ensures Lower(name) in {"ccw", "counterclockwise"} <==> ResolveAngle(Named(name)) == Degrees(90)
    ensures ResolveAngle(Named(name)).Named? <==> Lower(name) !in {"cw", "clockwise", "ccw", "counterclockwise"}
  {
  }

  /** Resolving twice changes nothing more. */
  lemma ResolveAngleIdempotent(angle: Angle)
    ensures ResolveAngle(ResolveAngle(angle)) == ResolveAngle(angle)
  {
    if angle.Named? {
      LowerIdempotent(angle.name);
    }
  }
}
