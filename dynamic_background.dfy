/**
 * The integer and string parts of the animated background: the hex colour parser and
 * the hex formatting of an interpolated colour, the palette index under JavaScript's
 * truncating `%`, the choice of a shape's two sides, the walk around the canvas
 * corners from one side to the other, and the number of shapes generated.
 */
module DynamicBackground {
  import opened Wrappers
  import opened Text

  datatype Rgb = Rgb(r: int, g: int, b: int)

  predicate IsChannel(n: int) {
    0 <= n < 256
  }

  predicate InGamut(c: Rgb) {
    IsChannel(c.r) && IsChannel(c.g) && IsChannel(c.b)
  }

  /** The colour pattern: an optional '#' and then exactly six hex digits of either case. */
  predicate IsHexColor(s: string)
    ensures IsHexColor(s) ==> |s| == 6 || |s| == 7
  {
    || (|s| == 7 && s[0] == '#' && IsHexString(s[1..]))
    || (|s| == 6 && IsHexString(s))
  }

  /** The six digits of a matching colour string. */
  function ColorDigits(s: string): (d: string)
    requires IsHexColor(s)
    ensures |d| == 6 && IsHexString(d) && s == (if |s| == 7 then "#" else "") + d
  {
    if |s| == 7 then s[1..] else s
  }

  /** `parseInt(p, 16)` for a pair of hex digits of either case: always a channel value. */
  function PairValue(p: string): (v: nat)
    requires |p| == 2 && IsHexString(p)
    ensures IsChannel(v)
  {
    HexDigitValue(p[0]) * 16 + HexDigitValue(p[1])
  }

  /** hexToRgb: each channel is the value of its digit pair; anything else is black. */
  function HexToRgb(s: string): (c: Rgb)
    ensures InGamut(c)
    ensures !IsHexColor(s) ==> c == Rgb(0, 0, 0)
  {
    if IsHexColor(s) then
      var d := ColorDigits(s);
      Rgb(PairValue(d[0..2]), PairValue(d[2..4]), PairValue(d[4..6]))
    else
      Rgb(0, 0, 0)
  }

  /** `n.toString(16).padStart(2, '0')`, one channel of lerpColor's result. */
  function FormatChannel(n: int): (s: string)
    ensures |s| >= 2
  {
    PadStartZeros(IntToHex(n), 2)
  }

  /** lerpColor's output format for already rounded channels. */
  function FormatRgb(c: Rgb): (s: string)
    ensures |s| >= 7 && s[0] == '#'
  {
    "#" + FormatChannel(c.r) + FormatChannel(c.g) + FormatChannel(c.b)
  }

  /** A channel in range formats as its high and low hex digit, in lower case. */
  lemma FormatChannelDigits(n: int)
    requires IsChannel(n)
    ensures FormatChannel(n) == [DigitChar(n / 16), DigitChar(n % 16)]
  {
    var h := IntToHex(n);
    if n >= 16 {
      var hi, lo := n / 16, n % 16;
      assert NatToHex(hi) == [DigitChar(hi)];
      assert h == [DigitChar(hi)] + [DigitChar(lo)];
    } else {
      assert n / 16 == 0 && n % 16 == n;
      assert h == [DigitChar(n)] && DigitChar(0) == '0';
      assert PadStartZeros(h, 2) == ['0'] + h;
    }
  }

  predicate IsLowerHexPair(p: string) {
    |p| == 2 && IsLowerHexDigit(p[0]) && IsLowerHexDigit(p[1])
  }

  /** One channel: formatting gives two lower-case digits whose value is the channel. */
  lemma ChannelRoundTrip(n: int)
    requires IsChannel(n)
    ensures IsLowerHexPair(FormatChannel(n)) && IsHexString(FormatChannel(n))
    ensures PairValue(FormatChannel(n)) == n
  {
    var hi, lo := n / 16, n % 16;
    FormatChannelDigits(n);
    DigitCharValue(hi);
    DigitCharValue(lo);
    var p := FormatChannel(n);
    assert p[0] == DigitChar(hi) && p[1] == DigitChar(lo);
    assert PairValue(p) == hi * 16 + lo;
    assert n == hi * 16 + lo;
  }

  /** The high and low hex digit of a byte are recovered by `/ 16` and `% 16`. */
  lemma ByteDigits(hi: nat, lo: nat, v: int)
    requires hi < 16 && lo < 16 && v == hi * 16 + lo
    ensures v / 16 == hi && v % 16 == lo
  {
    ModUnique(v, 16, hi, lo);
  }

  /** The byte with digits hi and lo formats as exactly those two digits. */
  lemma DigitsFormat(hi: nat, lo: nat, v: int)
    requires hi < 16 && lo < 16 && v == hi * 16 + lo
    ensures FormatChannel(v) == [DigitChar(hi), DigitChar(lo)]
  {
    ByteDigits(hi, lo, v);
    FormatChannelDigits(v);
  }

  /** One digit pair: its value formats back to the same two digits. */
  lemma PairRoundTrip(p: string)
    requires IsLowerHexPair(p)
    ensures IsHexString(p) && FormatChannel(PairValue(p)) == p
  {
    var hi, lo := PairDigits(p);
    DigitsFormatAs(hi, lo, PairValue(p), p);
  }

  /** A lower-case digit pair spells its two digit values, and its value is made of them. */
  lemma PairDigits(p: string) returns (hi: nat, lo: nat)
    requires IsLowerHexPair(p)
    ensures IsHexString(p) && hi < 16 && lo < 16
    ensures p[0] == DigitChar(hi) && p[1] == DigitChar(lo)
    ensures PairValue(p) == hi * 16 + lo
  {
    LowerHexDigitChar(p[0]);
    LowerHexDigitChar(p[1]);
    hi, lo := HexDigitValue(p[0]), HexDigitValue(p[1]);
  }

  /** The byte with digits hi and lo formats as the pair p spelling those digits. */
  lemma DigitsFormatAs(hi: nat, lo: nat, v: int, p: string)
    requires hi < 16 && lo < 16 && v == hi * 16 + lo
    requires |p| == 2 && p[0] == DigitChar(hi) && p[1] == DigitChar(lo)
    ensures FormatChannel(v) == p
  {
    assert [DigitChar(hi), DigitChar(lo)] == p by {
      assert [p[0], p[1]] == p;
    }
    DigitsFormat(hi, lo, v);
  }

  /** A '#' followed by six lower-case hex digits. */
  predicate IsFormattedColor(s: string) {
    |s| == 7 && s[0] == '#' && IsLowerHexPair(s[1..3]) && IsLowerHexPair(s[3..5]) && IsLowerHexPair(s[5..7])
  }

  /** A '#' and three digit pairs: where each pair sits in the string. */
  lemma Assemble(p1: string, p2: string, p3: string)
    requires |p1| == 2 && |p2| == 2 && |p3| == 2
    ensures var s := "#" + p1 + p2 + p3;
            |s| == 7 && s[0] == '#' && s[1..3] == p1 && s[3..5] == p2 && s[5..7] == p3
  {
  }

  /** A seven-character string is its first character and three pairs. */
  lemma Disassemble(s: string)
    requires |s| == 7 && s[0] == '#'
    ensures s == "#" + s[1..3] + s[3..5] + s[5..7]
  {
  }

  /** A '#' and three digit pairs parse pair by pair. */
  lemma ParsePairs(p1: string, p2: string, p3: string)
    requires |p1| == 2 && |p2| == 2 && |p3| == 2
    requires IsHexString(p1) && IsHexString(p2) && IsHexString(p3)
    ensures HexToRgb("#" + p1 + p2 + p3) == Rgb(PairValue(p1), PairValue(p2), PairValue(p3))
  {
    var s := "#" + p1 + p2 + p3;
    assert s[1..] == p1 + p2 + p3;
    assert IsHexColor(s);
    var d := ColorDigits(s);
    assert d[0..2] == p1 && d[2..4] == p2 && d[4..6] == p3;
  }

  /** Formatting a colour in gamut yields a formatted colour string that parses back to it. */
  lemma FormatThenParse(c: Rgb)
    requires InGamut(c)
    ensures IsFormattedColor(FormatRgb(c))
    ensures HexToRgb(FormatRgb(c)) == c
  {
    ChannelRoundTrip(c.r);
    ChannelRoundTrip(c.g);
    ChannelRoundTrip(c.b);
    Assemble(FormatChannel(c.r), FormatChannel(c.g), FormatChannel(c.b));
    ParsePairs(FormatChannel(c.r), FormatChannel(c.g), FormatChannel(c.b));
  }

  /** A formatted colour string parses to a colour that formats back to the same string. */
  lemma ParseThenFormat(s: string)
    requires IsFormattedColor(s)
    ensures FormatRgb(HexToRgb(s)) == s
  {
    var p1, p2, p3 := s[1..3], s[3..5], s[5..7];
    Disassemble(s);
    PairRoundTrip(p1);
    PairRoundTrip(p2);
    PairRoundTrip(p3);
    ParsePairs(p1, p2, p3);
  }

  /** The three-digit short form is not accepted and reads as black. */
  lemma ShortFormIsBlack()
    ensures HexToRgb("#abc") == Rgb(0, 0, 0)
  {
  }

  /** Digits of either case are accepted, and the '#' is optional. */
  lemma CaseAndHashDoNotMatter()
    ensures HexToRgb("#FFfF00") == Rgb(255, 255, 0)
    ensures HexToRgb("ffFF00") == Rgb(255, 255, 0)
  {
    assert PairValue("FF") == 255 && PairValue("fF") == 255 && PairValue("ff") == 255 && PairValue("00") == 0;
    assert "#FFfF00" == "#" + "FF" + "fF" + "00";
    ParsePairs("FF", "fF", "00");
    assert "ffFF00" == "ff" + "FF" + "00";
    ParseBarePairs("ff", "FF", "00");
  }

  /** Six digits without the '#' parse pair by pair. */
  lemma ParseBarePairs(p1: string, p2: string, p3: string)
    requires |p1| == 2 && |p2| == 2 && |p3| == 2
    requires IsHexString(p1) && IsHexString(p2) && IsHexString(p3)
    ensures HexToRgb(p1 + p2 + p3) == Rgb(PairValue(p1), PairValue(p2), PairValue(p3))
  {
    var s := p1 + p2 + p3;
    assert IsHexColor(s);
    var d := ColorDigits(s);
    assert d[0..2] == p1 && d[2..4] == p2 && d[4..6] == p3;
  }

  function Abs(n: int): nat {
    if n < 0 then -n else n
  }

  /** From d >= 1 follows d * c >= c, and from d <= -1 follows d * c <= -c. */
  lemma MulBounds(d: int, c: int)
    requires c > 0
    ensures d >= 1 ==> d * c >= c
    ensures d <= -1 ==> d * c <= -c
  {
  }

  /** The Euclidean remainder is the only r in [0, c) with x == q * c + r. */
  lemma ModUnique(x: int, c: int, q: int, r: int)
    requires c > 0 && 0 <= r < c && x == q * c + r
    ensures x % c == r
  {
    var q0, r0 := x / c, x % c;
    assert x == q0 * c + r0;
    var d := q - q0;
    assert d * c == r0 - r by {
      assert d * c == q * c - q0 * c;
    }
    MulBounds(d, c);
    assert d == 0;
  }

  /** Adding a multiple of c does not change the Euclidean remainder. */
  lemma ModAddMultiple(x: int, m: int, c: int)
    requires c > 0
    ensures (x + m * c) % c == x % c
  {
    assert (x / c + m) * c == (x / c) * c + m * c;
    ModUnique(x + m * c, c, x / c + m, x % c);
  }

  /**
   * JavaScript's `a % n` on integers: the remainder of division truncated toward zero,
   * which takes the sign of `a` (Dafny's `%` is Euclidean and never negative).
   */
  function JsRem(a: int, n: int): (r: int)
    requires n != 0
    ensures Abs(r) < Abs(n)
    ensures a >= 0 ==> r >= 0
    ensures a <= 0 ==> r <= 0
    ensures a >= 0 && n > 0 ==> r == a % n
    ensures (a - r) % Abs(n) == 0
  {
    var c := Abs(n);
    var r := if a >= 0 then Abs(a) % c else -(Abs(a) % c);
    TruncatedRemainder(a, c, r);
    r
  }

  /** The magnitude's remainder, given the dividend's sign, differs from it by a multiple of c. */
  lemma TruncatedRemainder(a: int, c: int, r: int)
    requires c > 0 && r == if a >= 0 then Abs(a) % c else -(Abs(a) % c)
    ensures Abs(r) < c && (a >= 0 ==> 0 <= r == a % c) && (a <= 0 ==> r <= 0)
    ensures (a - r) % c == 0
  {
    var q, m := Abs(a) / c, Abs(a) % c;
    assert Abs(a) == q * c + m;
    if a >= 0 {
      ModUnique(a - m, c, q, 0);
    } else {
      assert (-q) * c == -(q * c);
      ModUnique(a + m, c, -q, 0);
    }
  }

  /** Numbers that differ by a multiple of c have the same Euclidean remainder. */
  lemma SameRemainder(k: int, first: int, c: int)
    requires c > 0 && (k - first) % c == 0
    ensures first % c == k % c
  {
    var q := (k - first) / c;
    assert k == first + q * c;
    ModAddMultiple(first, q, c);
  }

  /**
   * The current and next palette index for palette cycle number k among `count`
   * palettes: nothing when there is no palette (the frame is skipped); otherwise the
   * double remainder brings even negative k into range, and agrees with the
   * mathematical modulo; the next index is its cyclic successor.
   */
  function PaletteIndices(k: int, count: nat): (r: Option<(nat, nat)>)
    ensures r.None? <==> count == 0
    ensures r.Some? ==> r.value.0 < count && r.value.1 < count
    ensures r.Some? ==> r.value.0 == k % count && r.value.1 == (r.value.0 + 1) % count
  {
    if count == 0 then None
    else
      var first := JsRem(k, count);
      var idx := JsRem(first + count, count);
      ModAddMultiple(first, 1, count);
      SameRemainder(k, first, count);
      Some((idx, JsRem(idx + 1, count)))
  }

  /** The next index wraps from the last palette to the first and otherwise moves up by one. */
  lemma NextPaletteWraps(k: int, count: nat)
    requires count > 0
    ensures var p := PaletteIndices(k, count).value;
            (p.0 == count - 1 ==> p.1 == 0) && (p.0 < count - 1 ==> p.1 == p.0 + 1)
  {
    var p := PaletteIndices(k, count).value;
    if p.0 == count - 1 {
      ModUnique(count, count, 1, 0);
    } else {
      ModUnique(p.0 + 1, count, 0, p.0 + 1);
    }
  }

  /** A side of the canvas, listed in the order createShape draws from. */
  datatype Side = Top | Bottom | Left | Right

  const Sides: seq<Side> := [Top, Bottom, Left, Right]

  /** The corner that follows a side going clockwise: 0 top-left, 1 top-right, 2 bottom-right, 3 bottom-left. */
  function SideToCorner(s: Side): (i: nat)
    ensures i < 4
  {
    match s
    case Top => 0
    case Right => 1
    case Bottom => 2
    case Left => 3
  }

  lemma SideToCornerInjective(a: Side, b: Side)
    requires SideToCorner(a) == SideToCorner(b)
    ensures a == b
  {
  }

  /** The random indices `Math.floor(Math.random() * 4)` one shape uses, all in 0..3. */
  predicate ValidDraws(draws: seq<nat>) {
    forall k :: 0 <= k < |draws| ==> draws[k] < 4
  }

  /** Enough draws for the side picker to stop: a later draw names another side than the first. */
  predicate PickerStops(draws: seq<nat>) {
    && 2 <= |draws| && ValidDraws(draws)
    && exists k :: 1 <= k < |draws| && Sides[draws[k]] != Sides[draws[0]]
  }

  datatype Shape = Shape(side1: Side, side2: Side)

  /**
   * createShape's side choice: side1 from the first draw, then draws are taken again
   * until one names a different side. Returns the shape and the position of the draw
   * that gave side2; every draw skipped in between named side1.
   */
  method CreateShape(draws: seq<nat>) returns (shape: Shape, used: nat)
    requires PickerStops(draws)
    ensures 1 <= used < |draws|
    ensures shape.side1 == Sides[draws[0]] && shape.side2 == Sides[draws[used]]
    ensures shape.side1 != shape.side2
    ensures forall j :: 1 <= j < used ==> Sides[draws[j]] == shape.side1
  {
    var side1 := Sides[draws[0]];
    var k := 1;
    var side2 := Sides[draws[k]];
    while side2 == side1
      invariant 1 <= k < |draws|
      invariant side2 == Sides[draws[k]]
      invariant forall j :: 1 <= j < k ==> Sides[draws[j]] == side1
      invariant exists j :: k <= j < |draws| && Sides[draws[j]] != side1
      decreases |draws| - k
    {
      k := k + 1;
      side2 := Sides[draws[k]];
    }
    shape, used := Shape(side1, side2), k;
  }

  /**
   * drawShape's walk from corner idx2 round to corner idx1, as the corners it passes
   * to `lineTo` in order: idx2+1, idx2+2, ... up to idx1, cyclically.
   */
  /** How many steps forward around the four corners lead from b to a. */
  function CornerDistance(a: nat, b: nat): (d: nat)
    requires a < 4 && b < 4
    ensures d < 4 && d == (a - b) % 4
    ensures d == 0 <==> a == b
  {
    if a >= b then a - b else a + 4 - b
  }

  method CornerWalk(idx1: nat, idx2: nat) returns (visited: seq<nat>)
    requires idx1 < 4 && idx2 < 4
    ensures |visited| == (idx1 - idx2) % 4
    ensures forall k :: 0 <= k < |visited| ==> visited[k] == (idx2 + k + 1) % 4
    ensures idx1 != idx2 ==> 1 <= |visited| <= 3 && visited[|visited| - 1] == idx1
    ensures idx1 != idx2 ==> GradientEndpoints(idx1, idx2) == (visited[0], visited[|visited| - 1])
  {
    var i := idx2;
    visited := [];
    while i != idx1
      invariant i < 4 && i == (idx2 + |visited|) % 4
      invariant |visited| + CornerDistance(idx1, i) == CornerDistance(idx1, idx2)
      invariant forall k :: 0 <= k < |visited| ==> visited[k] == (idx2 + k + 1) % 4
      invariant visited != [] ==> visited[|visited| - 1] == i
      decreases CornerDistance(idx1, i)
    {
      i := (i + 1) % 4;
      visited := visited + [i];
    }
  }

  /** The corners the gradient's perimeter midpoint is taken between: the one after idx2, and idx1. */
  function GradientEndpoints(idx1: nat, idx2: nat): (e: (nat, nat))
    ensures e.0 < 4 && e.1 == idx1
  {
    ((idx2 + 1) % 4, idx1)
  }

  /** The corner walk of a created shape goes from side2's corner to side1's, in one to three steps. */
  method ShapeOutline(shape: Shape) returns (visited: seq<nat>)
    requires shape.side1 != shape.side2
    ensures 1 <= |visited| <= 3
    ensures visited[|visited| - 1] == SideToCorner(shape.side1)
    ensures visited[0] == (SideToCorner(shape.side2) + 1) % 4
  {
    if SideToCorner(shape.side1) == SideToCorner(shape.side2) {
      SideToCornerInjective(shape.side1, shape.side2);
    }
    visited := CornerWalk(SideToCorner(shape.side1), SideToCorner(shape.side2));
  }

  /** The `numShapes` default. */
  const DefaultNumShapes := 5

  /** The default palettes as (color1, color2, rimColor). */
  const DefaultPalettes: seq<(string, string, string)> :=
    [("#5a6d8f", "#232f3e", "#e0f7fa"), ("#7a9d7b", "#3e5641", "#eafbe6")]

  /** Every default colour is a formatted colour, so it parses and is not read as black by accident. */
  lemma DefaultPalettesAreColors()
    ensures forall p :: 0 <= p < |DefaultPalettes| ==>
      IsFormattedColor(DefaultPalettes[p].0) && IsFormattedColor(DefaultPalettes[p].1) && IsFormattedColor(DefaultPalettes[p].2)
  {
    DigitsMakeColor("#5a6d8f");
    DigitsMakeColor("#232f3e");
    DigitsMakeColor("#e0f7fa");
    DigitsMakeColor("#7a9d7b");
    DigitsMakeColor("#3e5641");
    DigitsMakeColor("#eafbe6");
  }

  /** A '#' and six lower-case hex digits is a formatted colour. */
  lemma DigitsMakeColor(s: string)
    requires |s| == 7 && s[0] == '#'
    requires IsLowerHexDigit(s[1]) && IsLowerHexDigit(s[2]) && IsLowerHexDigit(s[3])
    requires IsLowerHexDigit(s[4]) && IsLowerHexDigit(s[5]) && IsLowerHexDigit(s[6])
    ensures IsFormattedColor(s)
  {
    assert s[1..3][0] == s[1] && s[1..3][1] == s[2];
    assert s[3..5][0] == s[3] && s[3..5][1] == s[4];
    assert s[5..7][0] == s[5] && s[5..7][1] == s[6];
  }

  /** A shape with two distinct sides whose first side is the one the first draw names. */
  predicate DrawnFrom(shape: Shape, draws: seq<nat>) {
    |draws| > 0 && draws[0] < 4 && shape.side1 == Sides[draws[0]] && shape.side1 != shape.side2
  }

  /**
   * The shape-generation effect: one createShape per i from 0 while i < numShapes, so
   * exactly numShapes shapes (none when it is zero or negative), each with two distinct sides.
   */
  method GenerateShapes(numShapes: int, draws: seq<seq<nat>>) returns (shapes: seq<Shape>)
    requires numShapes <= |draws|
    requires forall i :: 0 <= i < numShapes ==> PickerStops(draws[i])
    ensures |shapes| == if numShapes < 0 then 0 else numShapes
    ensures forall i :: 0 <= i < |shapes| ==> DrawnFrom(shapes[i], draws[i])
  {
    shapes := [];
    var i := 0;
    while i < numShapes
      invariant 0 <= i <= (if numShapes < 0 then 0 else numShapes) && |shapes| == i
      invariant forall j :: 0 <= j < i ==> DrawnFrom(shapes[j], draws[j])
      decreases numShapes - i
    {
      var shape, _ := CreateShape(draws[i]);
      shapes := shapes + [shape];
      i := i + 1;
    }
  }
}
