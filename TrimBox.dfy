/**
 * `imageTrimBox` (src/SimpleImage.php:924-1014) and its caller
 * `shrink_to_non_white` (src/SimpleImage.php:897-914).
 *
 * An image is a grid `img[x, y]` of the colour values `imagecolorat` reports,
 * `img.Length0` pixels wide and `img.Length1` pixels high. The scanner looks for
 * the smallest rectangle outside of which every pixel equals the background
 * colour, by four scans: rows from the top, rows from the bottom, columns from
 * the left and columns from the right.
 */
module TrimBox {

  /**
   * The nine-field array `imageTrimBox` returns: result code ('#'), the box
   * ('l', 't', 'r', 'b', right and bottom exclusive), its size ('w', 'h') and the
   * image size ('w1', 'h1'). Code 0: nothing trimmed; 1: some trimmed; 2: the
   * whole image is background.
   */
  datatype Box = Box(code: int, left: int, top: int, right: int, bottom: int,
                     width: int, height: int, origWidth: int, origHeight: int)

  ghost predicate Uniform(img: array2<int>, bg: int)
    reads img
  {
    forall x, y :: 0 <= x < img.Length0 && 0 <= y < img.Length1 ==> img[x, y] == bg
  }

  /** Every pixel outside [left, right) x [top, bottom) is background. */
  ghost predicate Encloses(img: array2<int>, bg: int, left: int, top: int, right: int, bottom: int)
    reads img
  {
    forall x, y :: 0 <= x < img.Length0 && 0 <= y < img.Length1 && !(left <= x < right && top <= y < bottom)
      ==> img[x, y] == bg
  }

  ghost predicate RowHasContent(img: array2<int>, bg: int, y: int)
    reads img
  {
    exists x :: 0 <= x < img.Length0 && 0 <= y < img.Length1 && img[x, y] != bg
  }

  ghost predicate ColumnHasContent(img: array2<int>, bg: int, x: int)
    reads img
  {
    exists y :: 0 <= y < img.Length1 && 0 <= x < img.Length0 && img[x, y] != bg
  }

  /**
   * What `imageTrimBox` promises. A uniform image gives code 2 and the whole
   * image. Otherwise the box is non-empty, lies in the image, encloses every
   * non-background pixel and is tight (each of its four edges touches one), and
   * the code is 0 exactly when the box is the whole image.
   */
  ghost predicate IsTrimBox(img: array2<int>, bg: int, box: Box)
    reads img
  {
    var w, h := img.Length0, img.Length1;
    && box.origWidth == w && box.origHeight == h
    && if Uniform(img, bg) then
         box == Box(2, 0, 0, w, h, w, h, w, h)
       else
         && 0 <= box.left < box.right <= w && 0 <= box.top < box.bottom <= h
         && box.width == box.right - box.left && box.height == box.bottom - box.top
         && Encloses(img, bg, box.left, box.top, box.right, box.bottom)
         && RowHasContent(img, bg, box.top) && RowHasContent(img, bg, box.bottom - 1)
         && ColumnHasContent(img, bg, box.left) && ColumnHasContent(img, bg, box.right - 1)
         && box.code == (if box.width == w && box.height == h then 0 else 1)
  }

  /** The scanner: the source's four `for` loops, each left by `break 2` at the first non-background pixel. */
  method ImageTrimBox(img: array2<int>, bg: int) returns (box: Box)
    ensures box.code == 2 <==> Uniform(img, bg)
    ensures IsTrimBox(img, bg, box)
  {
    var w1, h1 := img.Length0, img.Length1;
    var top, left := 0, 0;
    var right, bottom := w1, h1;
    var w2, h2 := w1, h1;
    var code;

    // top
    ghost var topX := 0;
    while top < h1
      invariant 0 <= top <= h1
      invariant forall x, y :: 0 <= x < w1 && 0 <= y < top ==> img[x, y] == bg
    {
      var x := 0;
      while x < w1
        invariant 0 <= x <= w1
        invariant forall i :: 0 <= i < x ==> img[i, top] == bg
      {
        if img[x, top] != bg {
          topX := x;
          break break;
        }
        x := x + 1;
      }
      top := top + 1;
    }

    if top == bottom {
      // every row is background
      top := 0;
      code := 2;
    } else {
      assert 0 <= topX < w1 && img[topX, top] != bg;

      // bottom
      ghost var bottomX := topX;
      while bottom > 0
        invariant top < bottom <= h1
        invariant forall x, y :: 0 <= x < w1 && bottom <= y < h1 ==> img[x, y] == bg
      {
        var x, row := 0, bottom - 1;
        while x < w1
          invariant 0 <= x <= w1
          invariant forall i :: 0 <= i < x ==> img[i, row] == bg
        {
          if img[x, row] != bg {
            bottomX := x;
            break break;
          }
          x := x + 1;
        }
        bottom := bottom - 1;
      }
      assert 0 <= bottomX < w1 && img[bottomX, bottom - 1] != bg;

      // left
      ghost var leftY := top;
      while left < w1
        invariant 0 <= left <= topX
        invariant forall x, y :: 0 <= x < left && top <= y < bottom ==> img[x, y] == bg
      {
        var y := top;
        while y < bottom
          invariant top <= y <= bottom
          invariant forall j :: top <= j < y ==> img[left, j] == bg
        {
          if img[left, y] != bg {
            leftY := y;
            break break;
          }
          y := y + 1;
        }
        left := left + 1;
      }
      assert top <= leftY < bottom && img[left, leftY] != bg;

      // right
      ghost var rightY := leftY;
      while right > 0
        invariant left < right <= w1
        invariant forall x, y :: right <= x < w1 && top <= y < bottom ==> img[x, y] == bg
      {
        var y, col := top, right - 1;
        while y < bottom
          invariant top <= y <= bottom
          invariant forall j :: top <= j < y ==> img[col, j] == bg
        {
          if img[col, y] != bg {
            rightY := y;
            break break;
          }
          y := y + 1;
        }
        right := right - 1;
      }
      assert top <= rightY < bottom && img[right - 1, rightY] != bg;

      w2 := right - left;
      h2 := bottom - top;
      code := if w2 < w1 || h2 < h1 then 1 else 0;
    }

    box := Box(code, left, top, right, bottom, w2, h2, w1, h1);
  }

  /** The trim box of an image is unique: the four tightness conditions pin every edge. */
  lemma TrimBoxUnique(img: array2<int>, bg: int, b1: Box, b2: Box)
    requires IsTrimBox(img, bg, b1) && IsTrimBox(img, bg, b2)
    ensures b1 == b2
  {
    if !Uniform(img, bg) {
      forall b, c | b in {b1, b2} && c in {b1, b2}
        ensures c.left <= b.left && b.right <= c.right && c.top <= b.top && b.bottom <= c.bottom
      {
        var y :| 0 <= y < img.Length1 && img[b.left, y] != bg;
        var y' :| 0 <= y' < img.Length1 && img[b.right - 1, y'] != bg;
        var x :| 0 <= x < img.Length0 && img[x, b.top] != bg;
        var x' :| 0 <= x' < img.Length0 && img[x', b.bottom - 1] != bg;
      }
    }
  }

  /**
   * The scenario of the trim-box test: a 100x100 background image with a 50x50
   * square of another colour in its centre is trimmed to exactly that square.
   */
  lemma CentredSquareExample(img: array2<int>, bg: int, ink: int, box: Box)
    requires img.Length0 == 100 && img.Length1 == 100 && ink != bg
    requires forall x, y :: 0 <= x < 100 && 0 <= y < 100 ==>
      img[x, y] == (if 25 <= x < 75 && 25 <= y < 75 then ink else bg)
    requires IsTrimBox(img, bg, box)
    ensures box == Box(1, 25, 25, 75, 75, 50, 50, 100, 100)
  {
    var expected := Box(1, 25, 25, 75, 75, 50, 50, 100, 100);
    assert img[25, 25] != bg && img[74, 74] != bg;
    assert !Uniform(img, bg);
    assert IsTrimBox(img, bg, expected);
    TrimBoxUnique(img, bg, box, expected);
  }

  /** The arguments of `shrink_to_non_white`'s copy: destination size and source rectangle. */
  datatype Copy = Copy(dstWidth: int, dstHeight: int, srcX: int, srcY: int, srcWidth: int, srcHeight: int)

  /**
   * `shrink_to_non_white` with the default background, the colour of pixel
   * (0, 0): the new canvas is the trim box's size and receives the box's pixels
   * one to one. A decoded image has at least one pixel.
   */
  method ShrinkToNonWhite(img: array2<int>) returns (copy: Copy)
    requires img.Length0 >= 1 && img.Length1 >= 1
    ensures copy.dstWidth == copy.srcWidth >= 1 && copy.dstHeight == copy.srcHeight >= 1
    ensures 0 <= copy.srcX && copy.srcX + copy.srcWidth <= img.Length0
    ensures 0 <= copy.srcY && copy.srcY + copy.srcHeight <= img.Length1
    ensures Encloses(img, img[0, 0], copy.srcX, copy.srcY, copy.srcX + copy.srcWidth, copy.srcY + copy.srcHeight)
    ensures Uniform(img, img[0, 0]) ==> copy == Copy(img.Length0, img.Length1, 0, 0, img.Length0, img.Length1)
    ensures !Uniform(img, img[0, 0]) ==>
      && RowHasContent(img, img[0, 0], copy.srcY)
      && RowHasContent(img, img[0, 0], copy.srcY + copy.srcHeight - 1)
      && ColumnHasContent(img, img[0, 0], copy.srcX)
      && ColumnHasContent(img, img[0, 0], copy.srcX + copy.srcWidth - 1)
  {
    var box := ImageTrimBox(img, img[0, 0]);
    copy := Copy(box.width, box.height, box.left, box.top, box.width, box.height);
  }
}
