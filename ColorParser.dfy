/**
 * `hex2rgb` (src/SimpleImage.php:146-179): parses "#RRGGBB", "RRGGBB", "#RGB" or
 * "RGB" into three channels; any other length gives `false` (here `None`).
 */
module ColorParser {
  import opened Wrappers
  import opened Ascii

  datatype Rgb = Rgb(r: nat, g: nat, b: nat)

  predicate ValidRgb(c: Rgb)
  {
    c.r < 256 && c.g < 256 && c.b < 256
  }

  function Pow16(n: nat): (p: nat)
    ensures p >= 1
  {
    if n == 0 then 1 else 16 * Pow16(n - 1)
  }

  /**
   * PHP's `hexdec`: reads the hexadecimal digits of `s` from left to right and
   * silently skips every character that is not a hexadecimal digit.
   */
  function HexDec(s: string): (v: nat)
    ensures v < Pow16(|s|)
  {
    if s == [] then 0
    else
      var init, last := s[..|s| - 1], s[|s| - 1];
      if IsHexDigit(last) then HexDec(init) * 16 + DigitValue(last) else HexDec(init)
  }

  /** The optional leading '#' is removed, once. */
  function StripHash(s: string): (r: string)
    ensures |s| > 0 && s[0] == '#' ==> "#" + r == s
    ensures (|s| == 0 || s[0] != '#') ==> r == s
  {
    if |s| > 0 && s[0] == '#' then s[1..] else s
  }

  function Hex2Rgb(s: string): (c: Option<Rgb>)
    ensures c.Some? <==> |StripHash(s)| == 6 || |StripHash(s)| == 3
    ensures c.Some? ==> ValidRgb(c.value)
  {
    var hex := StripHash(s);
    if |hex| == 6 then
      Some(Rgb(HexDec(hex[0..2]), HexDec(hex[2..4]), HexDec(hex[4..6])))
    else if |hex| == 3 then
      Some(Rgb(HexDec([hex[0], hex[0]]), HexDec([hex[1], hex[1]]), HexDec([hex[2], hex[2]])))
    else
      None
  }

  /** The six lower-case digits "rrggbb" of a colour: the inverse of `Hex2Rgb`. */
  function ToHex(c: Rgb): (s: string)
    requires ValidRgb(c)
    ensures |s| == 6
  {
    [DigitChar(c.r / 16), DigitChar(c.r % 16),
     DigitChar(c.g / 16), DigitChar(c.g % 16),
     DigitChar(c.b / 16), DigitChar(c.b % 16)]
  }

  lemma HexDecPair(a: char, b: char)
    requires IsHexDigit(a) && IsHexDigit(b)
    ensures HexDec([a, b]) == 16 * DigitValue(a) + DigitValue(b)
  {
    assert [a, b][..1] == [a];
    assert [a][..0] == [];
  }

  /** Parsing the printed form of a colour gives the colour back, with or without '#'. */
  lemma RoundTrip(c: Rgb)
    requires ValidRgb(c)
    ensures Hex2Rgb(ToHex(c)) == Some(c)
    ensures Hex2Rgb("#" + ToHex(c)) == Some(c)
  {
    var s := ToHex(c);
    HexDecPair(s[0], s[1]);
    HexDecPair(s[2], s[3]);
    HexDecPair(s[4], s[5]);
    assert s[0..2] == [s[0], s[1]];
    assert s[2..4] == [s[2], s[3]];
    assert s[4..6] == [s[4], s[5]];
    assert StripHash("#" + s) == s;
  }

  /** The three-digit form doubles every digit: "abc" parses as "aabbcc". */
  lemma ShortFormDoubles(a: char, b: char, c: char)
    ensures Hex2Rgb([a, b, c]) == Hex2Rgb([a, a, b, b, c, c])
  {
    var long := [a, a, b, b, c, c];
    if a != '#' {
      assert long[0..2] == [a, a];
      assert long[2..4] == [b, b];
      assert long[4..6] == [c, c];
    }
  }

  /** Only one '#' is stripped: a hash in front of a hash-free string is ignored. */
  lemma HashIsOptional(s: string)
    requires s == [] || s[0] != '#'
    ensures Hex2Rgb("#" + s) == Hex2Rgb(s)
  {
    assert ("#" + s)[1..] == s;
  }

  lemma {:induction false} HexDecIgnoresCase(s: string)
    ensures HexDec(Lower(s)) == HexDec(s)
  {
    if s != [] {
      var n := |s| - 1;
      assert Lower(s)[..n] == Lower(s[..n]);
      HexDecIgnoresCase(s[..n]);
      LowerKeepsDigits(s[n]);
    }
  }

  /** Hexadecimal digits are read case-insensitively: "#ABCDEF" and "#abcdef" agree. */
  lemma IgnoresCase(s: string)
    ensures Hex2Rgb(Lower(s)) == Hex2Rgb(s)
  {
    var hex := StripHash(s);
    assert StripHash(Lower(s)) == Lower(hex) by {
      if |s| > 0 && s[0] == '#' {
        assert Lower(s)[1..] == Lower(s[1..]);
      }
    }
    var low := Lower(hex);
    if |hex| == 6 {
      assert low[0..2] == Lower(hex[0..2]);
      assert low[2..4] == Lower(hex[2..4]);
      assert low[4..6] == Lower(hex[4..6]);
      HexDecIgnoresCase(hex[0..2]);
      HexDecIgnoresCase(hex[2..4]);
      HexDecIgnoresCase(hex[4..6]);
    } else if |hex| == 3 {
      assert [low[0], low[0]] == Lower([hex[0], hex[0]]);
      assert [low[1], low[1]] == Lower([hex[1], hex[1]]);
      assert [low[2], low[2]] == Lower([hex[2], hex[2]]);
      HexDecIgnoresCase([hex[0], hex[0]]);
      HexDecIgnoresCase([hex[1], hex[1]]);
      HexDecIgnoresCase([hex[2], hex[2]]);
    }
  }

  /** Six copies of one digit, with or without '#', give the grey whose channels repeat that digit. */
  lemma SameDigitColour(d: char)
    requires IsHexDigit(d)
    ensures var v := 17 * DigitValue(d);
      Hex2Rgb([d, d, d, d, d, d]) == Some(Rgb(v, v, v))
      && Hex2Rgb("#" + [d, d, d, d, d, d]) == Some(Rgb(v, v, v))
  {
    var s := [d, d, d, d, d, d];
    HexDecPair(d, d);
    assert s[0..2] == s[2..4] == s[4..6] == [d, d];
    HashIsOptional(s);
  }

  /** Values pinned by the callers' defaults: white and black. */
  lemma KnownColours()
    ensures Hex2Rgb("#FFFFFF") == Some(Rgb(255, 255, 255))
    ensures Hex2Rgb("FFFFFF") == Some(Rgb(255, 255, 255))
    ensures Hex2Rgb("#000000") == Some(Rgb(0, 0, 0))
    ensures Hex2Rgb("#fff") == Some(Rgb(255, 255, 255))
  {
    SameDigitColour('F');
    SameDigitColour('0');
    SameDigitColour('f');
    assert "FFFFFF" == ['F', 'F', 'F', 'F', 'F', 'F'];
    assert "#FFFFFF" == "#" + "FFFFFF";
    assert "#000000" == "#" + ['0', '0', '0', '0', '0', '0'];
    ShortFormDoubles('f', 'f', 'f');
    HashIsOptional("fff");
    assert "#fff" == "#" + "fff";
    assert "fff" == ['f', 'f', 'f'];
  }
}
