/** The letter-by-letter colour gradient of the about page
    (src/components/AboutPage.jsx:5-52): `#rrggbb` colours are read with
    `parseInt(…, 16)`, blended channel by channel with `Math.round`, and
    written back with `toString(16)` padded to two digits.

    The blend factor `index / (length - 1)` is kept as the exact fraction
    `num / den`; `NaN` (an unreadable channel) is `None`. */
module Gradient {
  import opened Common
  import opened Text

  // ---------------------------------------------------------------------
  // Hexadecimal digits
  // ---------------------------------------------------------------------

  predicate IsHexDigit(c: char) {
    IsDigit(c) || 'a' <= c <= 'f' || 'A' <= c <= 'F'
  }

  function HexDigitValue(c: char): (d: nat)
    requires IsHexDigit(c)
    ensures d < 16
  {
    if IsDigit(c) then c as int - '0' as int
    else if 'a' <= c <= 'f' then c as int - 'a' as int + 10
    else c as int - 'A' as int + 10
  }

  /** The lower-case digit `Number.prototype.toString(16)` writes for `d`. */
  function HexChar(d: nat): (c: char)
    requires d < 16
    ensures IsHexDigit(c) && !IsUpper(c)
  {
    if d < 10 then ('0' as int + d) as char else ('a' as int + d - 10) as char
  }

  lemma HexCharRoundTrip(d: nat)
    requires d < 16
    ensures HexDigitValue(HexChar(d)) == d
  {
  }

  /** Reading a digit and writing it back lower-cases it. */
  lemma HexDigitRoundTrip(c: char)
    requires IsHexDigit(c)
    ensures HexChar(HexDigitValue(c)) == LowerChar(c)
  {
  }

  // ---------------------------------------------------------------------
  // parseInt(t, 16)
  // ---------------------------------------------------------------------

  /** The longest prefix of hexadecimal digits. */
  function HexPrefix(t: string): (r: string)
    ensures |r| <= |t| && r == t[..|r|]
    ensures forall i :: 0 <= i < |r| ==> IsHexDigit(r[i])
    ensures |r| < |t| ==> !IsHexDigit(t[|r|])
  {
    if |t| == 0 || !IsHexDigit(t[0]) then []
    else
      var r := HexPrefix(t[1..]);
      assert forall i :: 1 <= i <= |r| ==> t[i] == t[1..][i - 1];
      [t[0]] + r
  }

  /** The number a string of hexadecimal digits denotes. */
  function HexValue(ds: string): nat
    requires forall i :: 0 <= i < |ds| ==> IsHexDigit(ds[i])
  {
    if |ds| == 0 then 0
    else HexValue(ds[..|ds| - 1]) * 16 + HexDigitValue(ds[|ds| - 1])
  }

  /** `parseInt(t, 16)`: leading white space is skipped, one sign is read, a
      `0x`/`0X` prefix is dropped, and the longest run of hexadecimal digits
      is read; with no digit the result is `NaN` (`None`). */
  function ParseInt16(t: string): (r: Option<int>)
    ensures r.None? <==> ParseDigits(t) == []
  {
    var u := TrimStart(t);
    var neg := |u| > 0 && u[0] == '-';
    var ds := ParseDigits(t);
    if ds == [] then None
    else if neg then Some(-(HexValue(ds) as int))
    else Some(HexValue(ds))
  }

  /** The digits `parseInt(t, 16)` reads. */
  function ParseDigits(t: string): (ds: string)
    ensures forall i :: 0 <= i < |ds| ==> IsHexDigit(ds[i])
  {
    var u := TrimStart(t);
    var unsigned := if |u| > 0 && (u[0] == '-' || u[0] == '+') then u[1..] else u;
    var body := if |unsigned| >= 2 && unsigned[0] == '0' && (unsigned[1] == 'x' || unsigned[1] == 'X')
                then unsigned[2..] else unsigned;
    HexPrefix(body)
  }

  /** Two hexadecimal digits are read as themselves. */
  lemma ParseTwoDigits(a: char, b: char)
    requires IsHexDigit(a) && IsHexDigit(b)
    ensures ParseInt16([a, b]) == Some(HexDigitValue(a) * 16 + HexDigitValue(b))
  {
    var t := [a, b];
    TrimStartOfWord(t);
    AllHexPrefix(t);
    PairValue(a, b);
  }

  lemma TrimStartOfWord(t: string)
    requires |t| > 0 && !IsJsSpace(t[0])
    ensures TrimStart(t) == t
  {
  }

  lemma {:induction false} AllHexPrefix(t: string)
    requires forall i :: 0 <= i < |t| ==> IsHexDigit(t[i])
    ensures HexPrefix(t) == t
  {
    if |t| > 0 {
      AllHexPrefix(t[1..]);
      assert t == [t[0]] + t[1..];
    }
  }

  lemma PairValue(a: char, b: char)
    requires IsHexDigit(a) && IsHexDigit(b)
    ensures HexValue([a, b]) == HexDigitValue(a) * 16 + HexDigitValue(b)
  {
    assert [a, b][..1] == [a];
    assert HexValue([a]) == HexDigitValue(a) by { assert [a][..0] == []; }
  }

  /** A string whose first character is neither white space, a sign nor a
      hexadecimal digit reads as `NaN`. */
  lemma ParseNaN(t: string)
    requires |t| > 0 && !IsJsSpace(t[0]) && t[0] != '-' && t[0] != '+' && !IsHexDigit(t[0])
    ensures ParseInt16(t) == None
  {
  }

  // ---------------------------------------------------------------------
  // toHex(n)
  // ---------------------------------------------------------------------

  /** `n.toString(16)` for a non-negative integer. */
  function HexString(n: nat): (r: string)
    ensures |r| >= 1
    ensures forall i :: 0 <= i < |r| ==> IsHexDigit(r[i]) && !IsUpper(r[i])
    ensures |r| == 1 <==> n < 16
    decreases n
  {
    if n < 16 then [HexChar(n)] else HexString(n / 16) + [HexChar(n % 16)]
  }

  /** `toHex(n)`: `n.toString(16)`, with a `0` in front when that is a single
      character. A negative number keeps its `-`; `NaN` prints as "NaN". */
  function ToHex(n: Option<int>): string {
    match n
    case None => "NaN"
    case Some(v) =>
      var hex := if v < 0 then "-" + HexString(-v) else HexString(v);
      if |hex| == 1 then "0" + hex else hex
  }

  /** A channel value 0..255 is written as exactly two lower-case
      hexadecimal digits: its sixteens and its units. */
  lemma ToHexTwoDigits(n: int)
    requires 0 <= n <= 255
    ensures ToHex(Some(n)) == [HexChar(n / 16), HexChar(n % 16)]
    ensures var h := ToHex(Some(n));
            |h| == 2 && IsHexDigit(h[0]) && IsHexDigit(h[1]) && !IsUpper(h[0]) && !IsUpper(h[1])
            && HexDigitValue(h[0]) * 16 + HexDigitValue(h[1]) == n
  {
    HexCharRoundTrip(n / 16);
    HexCharRoundTrip(n % 16);
    if n < 16 {
      assert ToHex(Some(n)) == ['0', HexChar(n)];
    } else {
      assert HexString(n / 16) == [HexChar(n / 16)];
      assert ToHex(Some(n)) == [HexChar(n / 16), HexChar(n % 16)];
    }
  }

  /** Reading back what `toHex` writes for 0..255 gives the number. */
  lemma ParseToHex(n: int)
    requires 0 <= n <= 255
    ensures ParseInt16(ToHex(Some(n))) == Some(n)
  {
    ToHexTwoDigits(n);
    var a, b := HexChar(n / 16), HexChar(n % 16);
    ParseTwoDigits(a, b);
    HexCharRoundTrip(n / 16);
    HexCharRoundTrip(n % 16);
  }

  /** Writing back two hexadecimal digits that were read gives them in
      lower case. */
  lemma ToHexOfParse(a: char, b: char)
    requires IsHexDigit(a) && IsHexDigit(b)
    ensures ToHex(ParseInt16([a, b])) == ToLower([a, b])
  {
    ParseTwoDigits(a, b);
    ToHexOfByte(a, b);
  }

  // ---------------------------------------------------------------------
  // interpolateColor(color1, color2, factor)
  // ---------------------------------------------------------------------

  /** `s.slice(a, b)` for `0 <= a <= b`. */
  function Slice(s: string, a: nat, b: nat): (r: string)
    requires a <= b
    ensures |r| <= b - a
    ensures b <= |s| ==> r == s[a..b]
  {
    if a >= |s| then [] else if b >= |s| then s[a..] else s[a..b]
  }

  /** The red, green and blue channels of a colour string. */
  function Channels(color: string): (Option<int>, Option<int>, Option<int>) {
    (ParseInt16(Slice(color, 1, 3)), ParseInt16(Slice(color, 3, 5)), ParseInt16(Slice(color, 5, 7)))
  }

  /** `Math.round(c1 + (num / den) * (c2 - c1))`: the nearest integer,
      halves rounded up; `NaN` in, `NaN` out. */
  function Blend(c1: Option<int>, c2: Option<int>, num: int, den: int): (r: Option<int>)
    requires den > 0
    ensures r.Some? <==> c1.Some? && c2.Some?
    ensures r.Some? ==>
              var x2 := 2 * (c1.value * den + num * (c2.value - c1.value));
              2 * den * r.value - den <= x2 < 2 * den * r.value + den
  {
    if c1.None? || c2.None? then None
    else
      var x2 := 2 * (c1.value * den + num * (c2.value - c1.value));
      Some((x2 + den) / (2 * den))
  }

  /** A blend with a factor between 0 and 1 stays between its ends. */
  lemma BlendBetween(a: int, b: int, num: int, den: int)
    requires den > 0 && 0 <= num <= den
    ensures var r := Blend(Some(a), Some(b), num, den).value;
            (a <= b ==> a <= r <= b) && (b <= a ==> b <= r <= a)
  {
    var r := Blend(Some(a), Some(b), num, den).value;
    var p := num * (b - a);
    var x2 := 2 * (a * den + p);
    assert 2 * den * r - den <= x2 < 2 * den * r + den;
    if a <= b {
      MulMono(num, den, b - a);
      assert 0 <= p <= den * (b - a);
      assert x2 <= 2 * den * b;
      RoundedAtLeast(den, r, a, x2);
      RoundedAtMost(den, r, b, x2);
    } else {
      MulMono(num, den, a - b);
      assert den * (b - a) <= p <= 0;
      assert 2 * den * b <= x2;
      RoundedAtLeast(den, r, b, x2);
      RoundedAtMost(den, r, a, x2);
    }
  }

  lemma MulMono(x: int, y: int, k: int)
    requires x <= y && 0 <= k
    ensures x * k <= y * k
    ensures 0 <= x ==> 0 <= x * k
  {
  }

  /** The rounded value of a number at least `v` is at least `v`. */
  lemma RoundedAtLeast(den: int, r: int, v: int, x2: int)
    requires den > 0 && 2 * den * v <= x2 < 2 * den * r + den
    ensures v <= r
  {
    if r < v {
      Gap(den, r, v);
      assert false;
    }
  }

  /** The rounded value of a number at most `v` is at most `v`. */
  lemma RoundedAtMost(den: int, r: int, v: int, x2: int)
    requires den > 0 && 2 * den * r - den <= x2 <= 2 * den * v
    ensures r <= v
  {
    if r > v {
      Gap(den, v, r);
      assert false;
    }
  }

  /** Distinct integers scaled by `2 den` are at least `2 den` apart. */
  lemma Gap(den: int, x: int, y: int)
    requires den > 0 && x < y
    ensures 2 * den * x + 2 * den <= 2 * den * y
  {
    MulMono(1, y - x, 2 * den);
    assert (y - x) * (2 * den) == 2 * den * y - 2 * den * x;
  }

  /** Factor 0 gives the first value and factor 1 the second. */
  lemma BlendEnds(a: int, b: int, den: int)
    requires den > 0
    ensures Blend(Some(a), Some(b), 0, den) == Some(a)
    ensures Blend(Some(a), Some(b), den, den) == Some(b)
  {
    var r0 := Blend(Some(a), Some(b), 0, den).value;
    assert 2 * (a * den + 0 * (b - a)) == 2 * den * a;
    RoundedAtLeast(den, r0, a, 2 * den * a);
    RoundedAtMost(den, r0, a, 2 * den * a);
    var r1 := Blend(Some(a), Some(b), den, den).value;
    assert 2 * (a * den + den * (b - a)) == 2 * den * b;
    RoundedAtLeast(den, r1, b, 2 * den * b);
    RoundedAtMost(den, r1, b, 2 * den * b);
  }

  /** The template `#${toHex(r)}${toHex(g)}${toHex(b)}`. */
  function Render(r: Option<int>, g: Option<int>, b: Option<int>): string {
    "#" + ToHex(r) + ToHex(g) + ToHex(b)
  }

  /** `interpolateColor(color1, color2, num / den)`. */
  function Interpolate(color1: string, color2: string, num: int, den: int): string
    requires den > 0
  {
    var c1 := Channels(color1);
    var c2 := Channels(color2);
    Render(Blend(c1.0, c2.0, num, den), Blend(c1.1, c2.1, num, den), Blend(c1.2, c2.2, num, den))
  }

  /** A `#rrggbb` colour. */
  predicate IsColor(c: string) {
    |c| == 7 && c[0] == '#' && forall i :: 1 <= i < 7 ==> IsHexDigit(c[i])
  }

  /** The number two hexadecimal digits denote. */
  function Byte(a: char, b: char): (n: int)
    requires IsHexDigit(a) && IsHexDigit(b)
    ensures 0 <= n <= 255
  {
    HexDigitValue(a) * 16 + HexDigitValue(b)
  }

  lemma SliceOfPair(c: string, i: nat)
    requires i + 2 <= |c|
    ensures Slice(c, i, i + 2) == [c[i], c[i + 1]]
  {
  }

  /** The three channels of a colour are its three digit pairs. */
  lemma ColorChannels(c: string)
    requires IsColor(c)
    ensures Channels(c) == (Some(Byte(c[1], c[2])), Some(Byte(c[3], c[4])), Some(Byte(c[5], c[6])))
  {
    ChannelAt(c, 1);
    ChannelAt(c, 3);
    ChannelAt(c, 5);
  }

  lemma ChannelAt(c: string, i: nat)
    requires i + 2 <= |c| && IsHexDigit(c[i]) && IsHexDigit(c[i + 1])
    ensures ParseInt16(Slice(c, i, i + 2)) == Some(Byte(c[i], c[i + 1]))
  {
    SliceOfPair(c, i);
    ParseTwoDigits(c[i], c[i + 1]);
  }

  /** Rendering the channels read from a colour gives it back in lower
      case. */
  lemma RenderOfColor(c: string)
    requires IsColor(c)
    ensures Render(Some(Byte(c[1], c[2])), Some(Byte(c[3], c[4])), Some(Byte(c[5], c[6]))) == ToLower(c)
  {
    ToHexOfByte(c[1], c[2]);
    ToHexOfByte(c[3], c[4]);
    ToHexOfByte(c[5], c[6]);
    ColorParts(c);
  }

  lemma ToHexOfByte(a: char, b: char)
    requires IsHexDigit(a) && IsHexDigit(b)
    ensures ToHex(Some(Byte(a, b))) == ToLower([a, b])
  {
    var n := Byte(a, b);
    assert n / 16 == HexDigitValue(a) && n % 16 == HexDigitValue(b);
    ToHexTwoDigits(n);
    HexDigitRoundTrip(a);
    HexDigitRoundTrip(b);
    assert ToLower([a, b]) == [LowerChar(a), LowerChar(b)];
  }

  /** A colour string is `#` and its three digit pairs. */
  lemma ColorParts(c: string)
    requires IsColor(c)
    ensures ToLower(c) == "#" + ToLower([c[1], c[2]]) + ToLower([c[3], c[4]]) + ToLower([c[5], c[6]])
  {
  }

  /** At factor 0 the result is the first colour in lower case, at factor 1
      the second. */
  lemma InterpolateEnds(color1: string, color2: string, den: int)
    requires IsColor(color1) && IsColor(color2) && den > 0
    ensures Interpolate(color1, color2, 0, den) == ToLower(color1)
    ensures Interpolate(color1, color2, den, den) == ToLower(color2)
  {
    ColorChannels(color1);
    ColorChannels(color2);
    BlendEnds(Byte(color1[1], color1[2]), Byte(color2[1], color2[2]), den);
    BlendEnds(Byte(color1[3], color1[4]), Byte(color2[3], color2[4]), den);
    BlendEnds(Byte(color1[5], color1[6]), Byte(color2[5], color2[6]), den);
    RenderOfColor(color1);
    RenderOfColor(color2);
  }

  /** Between the ends, two colours blend into a `#rrggbb` colour in lower
      case. */
  lemma InterpolateIsColor(color1: string, color2: string, num: int, den: int)
    requires IsColor(color1) && IsColor(color2) && den > 0 && 0 <= num <= den
    ensures var r := Interpolate(color1, color2, num, den);
            IsColor(r) && forall i :: 0 <= i < |r| ==> !IsUpper(r[i])
  {
    ColorChannels(color1);
    ColorChannels(color2);
    var r := BlendByte(Byte(color1[1], color1[2]), Byte(color2[1], color2[2]), num, den);
    var g := BlendByte(Byte(color1[3], color1[4]), Byte(color2[3], color2[4]), num, den);
    var b := BlendByte(Byte(color1[5], color1[6]), Byte(color2[5], color2[6]), num, den);
    RenderIsColor(r, g, b);
  }

  /** Blending two channel values 0..255 gives a value 0..255. */
  lemma BlendByte(a: int, b: int, num: int, den: int) returns (r: int)
    requires 0 <= a <= 255 && 0 <= b <= 255 && den > 0 && 0 <= num <= den
    ensures Blend(Some(a), Some(b), num, den) == Some(r) && 0 <= r <= 255
  {
    BlendBetween(a, b, num, den);
    r := Blend(Some(a), Some(b), num, den).value;
  }

  /** Three channel values 0..255 render as a lower-case colour. */
  lemma RenderIsColor(r: int, g: int, b: int)
    requires 0 <= r <= 255 && 0 <= g <= 255 && 0 <= b <= 255
    ensures var c := Render(Some(r), Some(g), Some(b));
            IsColor(c) && forall i :: 0 <= i < |c| ==> !IsUpper(c[i])
  {
    ToHexTwoDigits(r);
    ToHexTwoDigits(g);
    ToHexTwoDigits(b);
    var c := Render(Some(r), Some(g), Some(b));
    var hr, hg, hb := ToHex(Some(r)), ToHex(Some(g)), ToHex(Some(b));
    assert c == ['#', hr[0], hr[1], hg[0], hg[1], hb[0], hb[1]];
  }

  /** An unreadable red channel in either colour prints as `NaN`. */
  lemma InterpolateNaN(color1: string, color2: string, num: int, den: int)
    requires den > 0
    requires ParseInt16(Slice(color1, 1, 3)).None? || ParseInt16(Slice(color2, 1, 3)).None?
    ensures Interpolate(color1, color2, num, den)[1..4] == "NaN"
  {
    var c1 := Channels(color1);
    var c2 := Channels(color2);
    RenderNaN(Blend(c1.1, c2.1, num, den), Blend(c1.2, c2.2, num, den));
  }

  lemma RenderNaN(g: Option<int>, b: Option<int>)
    ensures Render(None, g, b)[1..4] == "NaN"
  {
    ThreeAfterOne("#", ToHex(None), ToHex(g), ToHex(b));
  }

  lemma ThreeAfterOne(a: string, m: string, x: string, y: string)
    requires |a| == 1 && |m| == 3
    ensures (a + m + x + y)[1..4] == m
  {
    assert a + m + x + y == a + m + (x + y);
  }

  // ---------------------------------------------------------------------
  // GradientText
  // ---------------------------------------------------------------------

  /** What one character of the text becomes: a bare space, or the
      character in a span of the given colour. */
  datatype Glyph = Space | Colored(ch: char, color: string)

  /** `arr.length > 1 ? index / (arr.length - 1) : 0`, as a fraction. */
  function Factor(index: nat, n: nat): (f: (int, int))
    ensures f.1 > 0
    ensures index < n ==> 0 <= f.0 <= f.1
  {
    if n > 1 then (index, n - 1) else (0, 1)
  }

  function GradientText(text: string, startColor: string, endColor: string): (g: seq<Glyph>)
    ensures |g| == |text|
    ensures forall i :: 0 <= i < |text| ==> (g[i].Space? <==> text[i] == ' ')
  {
    seq(|text|, i requires 0 <= i < |text| => GlyphOf(text[i], i, |text|, startColor, endColor))
  }

  /** What the character `ch` at `index` of `n` characters becomes. */
  function GlyphOf(ch: char, index: nat, n: nat, startColor: string, endColor: string): (g: Glyph)
    ensures g.Space? <==> ch == ' '
  {
    if ch == ' ' then Space
    else
      var f := Factor(index, n);
      Colored(ch, Interpolate(startColor, endColor, f.0, f.1))
  }

  /** One glyph per character: spaces stay bare, every other character keeps
      its place and is coloured at its position's fraction of the way. */
  lemma GradientTextShape(text: string, startColor: string, endColor: string)
    ensures var g := GradientText(text, startColor, endColor);
            |g| == |text|
            && (forall i :: 0 <= i < |text| ==> (g[i].Space? <==> text[i] == ' '))
            && (forall i :: 0 <= i < |text| && text[i] != ' ' ==>
                  g[i].ch == text[i]
                  && g[i].color == Interpolate(startColor, endColor, Factor(i, |text|).0, Factor(i, |text|).1))
  {
  }

  /** With readable colours, the first letter takes the start colour and,
      in a text of more than one character, the last takes the end colour;
      every letter is a lower-case `#rrggbb` colour. */
  lemma GradientTextEnds(text: string, startColor: string, endColor: string)
    requires IsColor(startColor) && IsColor(endColor)
    ensures var g := GradientText(text, startColor, endColor);
            && (|text| > 0 && text[0] != ' ' ==> g[0].color == ToLower(startColor))
            && (|text| > 1 && text[|text| - 1] != ' ' ==> g[|text| - 1].color == ToLower(endColor))
            && (forall i :: 0 <= i < |text| && text[i] != ' ' ==> IsColor(g[i].color))
  {
    var n := |text|;
    if n > 0 && text[0] != ' ' {
      FirstGlyph(text, startColor, endColor);
    }
    if n > 1 && text[n - 1] != ' ' {
      LastGlyph(text, startColor, endColor);
    }
    GlyphColors(text, startColor, endColor);
  }

  lemma FirstGlyph(text: string, startColor: string, endColor: string)
    requires IsColor(startColor) && IsColor(endColor)
    requires |text| > 0 && text[0] != ' '
    ensures GradientText(text, startColor, endColor)[0].color == ToLower(startColor)
  {
    GlyphAt(text, startColor, endColor, 0);
    InterpolateEnds(startColor, endColor, Factor(0, |text|).1);
  }

  lemma LastGlyph(text: string, startColor: string, endColor: string)
    requires IsColor(startColor) && IsColor(endColor)
    requires |text| > 1 && text[|text| - 1] != ' '
    ensures GradientText(text, startColor, endColor)[|text| - 1].color == ToLower(endColor)
  {
    GlyphAt(text, startColor, endColor, |text| - 1);
    InterpolateEnds(startColor, endColor, |text| - 1);
  }

  lemma GlyphColors(text: string, startColor: string, endColor: string)
    requires IsColor(startColor) && IsColor(endColor)
    ensures var g := GradientText(text, startColor, endColor);
            forall i :: 0 <= i < |text| && text[i] != ' ' ==> IsColor(g[i].color)
  {
    var g := GradientText(text, startColor, endColor);
    forall i | 0 <= i < |text| && text[i] != ' ' ensures IsColor(g[i].color) {
      GlyphAt(text, startColor, endColor, i);
      InterpolateIsColor(startColor, endColor, Factor(i, |text|).0, Factor(i, |text|).1);
    }
  }

  lemma GlyphAt(text: string, startColor: string, endColor: string, i: nat)
    requires i < |text| && text[i] != ' '
    ensures GradientText(text, startColor, endColor)[i]
            == Colored(text[i], Interpolate(startColor, endColor, Factor(i, |text|).0, Factor(i, |text|).1))
  {
  }
}
