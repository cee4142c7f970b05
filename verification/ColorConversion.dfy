/**
 Colour conversions of dat.gui.js over the reals: HSV and RGB, and a colour object that keeps one
 representation and recalculates the others on demand.
 */
module ColorConversion {
  import ColorHex
  import opened Wrappers

  datatype Rgb = Rgb(r: real, g: real, b: real)

  /** Hue in degrees; nothing stands for NaN. */
  datatype Hsv = Hsv(h: Maybe<real>, s: real, v: real)

  /** The remainder of JavaScript keeps the sign of the dividend. */
  function Remainder(a: int, n: nat): int
    requires n > 0
  {
    if a >= 0 then a % n else -((-a) % n)
  }

  /** The table of the six sectors; `f` is how far the hue is into its sector. */
  function SectorColor(hi: nat, f: real, s: real, v: real): Rgb {
    var p := v * (1.0 - s);
    var q := v * (1.0 - f * s);
    var t := v * (1.0 - (1.0 - f) * s);
    var c :=
      if hi == 0 then (v, t, p) else if hi == 1 then (q, v, p) else if hi == 2 then (p, v, t)
      else if hi == 3 then (p, q, v) else if hi == 4 then (t, p, v) else (v, p, q);
    Rgb(c.0 * 255.0, c.1 * 255.0, c.2 * 255.0)
  }

  /** Nothing when the sector index is negative: the source then reads a component of undefined. */
  function HsvToRgb(h: real, s: real, v: real): Maybe<Rgb> {
    var hi := Remainder((h / 60.0).Floor, 6);
    var f := h / 60.0 - (h / 60.0).Floor as real;
    if hi < 0 then Nothing else Just(SectorColor(hi, f, s, v))
  }

  /** The hue is in the first sixth of turn `n`. */
  predicate StartsTurn(h: real, n: int) {
    360.0 * n as real <= h < 360.0 * n as real + 60.0
  }

  /** A hue has no sector exactly when it is negative and not in the first sixth of a turn. */
  lemma SectorIsMissingExactly(h: real, s: real, v: real)
    ensures HsvToRgb(h, s, v).Nothing? <==> h < 0.0 && forall n :: !StartsTurn(h, n)
  {
    hide SectorColor, Remainder, StartsTurn;
    SectorOfNegative((h / 60.0).Floor);
    TurnsStart(h);
  }

  lemma TurnsStart(h: real)
    ensures h < 0.0 <==> (h / 60.0).Floor < 0
    ensures (exists n :: StartsTurn(h, n)) <==> (h / 60.0).Floor % 6 == 0
  {
    var a := (h / 60.0).Floor;
    if a % 6 == 0 {
      TurnStartsAt(h, a, a / 6);
    }
    hide StartsTurn;
    if n :| StartsTurn(h, n) {
      TurnStartsAt(h, a, n);
    }
  }

  lemma TurnStartsAt(h: real, a: int, n: int)
    requires a == (h / 60.0).Floor
    ensures StartsTurn(h, n) <==> a == 6 * n
  {
    assert a as real <= h / 60.0 < a as real + 1.0;
    assert 60.0 * a as real <= h < 60.0 * a as real + 60.0;
    if StartsTurn(h, n) {
      assert (6 * n) as real == 6.0 * n as real;
    }
  }

  lemma SectorOfNegative(a: int)
    ensures Remainder(a, 6) < 0 <==> a < 0 && a % 6 != 0
    ensures a % 6 == 0 ==> a == 6 * (a / 6)
  {}

  /** Whole turns do not change the colour of a hue that is not negative. */
  lemma TurnsChangeNothing(h: real, s: real, v: real, n: nat)
    requires h >= 0.0
    ensures HsvToRgb(h + 360.0 * n as real, s, v) == HsvToRgb(h, s, v)
  {
    var a := (h / 60.0).Floor;
    assert (h + 360.0 * n as real) / 60.0 == h / 60.0 + (6 * n) as real;
    assert (h / 60.0 + (6 * n) as real).Floor == a + 6 * n;
    assert (a + 6 * n) % 6 == a % 6;
    hide SectorColor;
  }

  function Min(a: real, b: real): real {
    if a <= b then a else b
  }

  function Max(a: real, b: real): real {
    if a >= b then a else b
  }

  /** The hue in sectors, before it is scaled to degrees; nothing is 0 / 0. */
  function Sextant(c: Rgb, max: real, delta: real): Maybe<real> {
    if delta == 0.0 then Nothing
    else if c.r == max then Just((c.g - c.b) / delta)
    else if c.g == max then Just(2.0 + (c.b - c.r) / delta)
    else Just(4.0 + (c.r - c.g) / delta)
  }

  /** Scaling to degrees, a negative hue wrapped once. */
  function Degrees(sextant: real): real {
    var h := sextant / 6.0;
    (if h < 0.0 then h + 1.0 else h) * 360.0
  }

  function RgbToHsv(c: Rgb): Hsv {
    var min := Min(c.r, Min(c.g, c.b));
    var max := Max(c.r, Max(c.g, c.b));
    var delta := max - min;
    if max == 0.0 then Hsv(Nothing, 0.0, 0.0)
    else
      var sextant := Sextant(c, max, delta);
      Hsv(if sextant.Nothing? then Nothing else Just(Degrees(sextant.value)), delta / max, max / 255.0)
  }

  // ---------------------------------------------------------------- the same products, written out

  /** The three levels of a sector, scaled to bytes: `m` is the largest, `d` the spread. */
  lemma Levels(f: real, s: real, v: real)
    ensures var m, d := 255.0 * v, 255.0 * v * s;
            && v * 255.0 == m
            && v * (1.0 - s) * 255.0 == m - d
            && v * (1.0 - f * s) * 255.0 == m - f * d
            && v * (1.0 - (1.0 - f) * s) * 255.0 == m - d + f * d
  {
    var d := 255.0 * v * s;
    assert f * d == 255.0 * v * s * f;
    assert v * (f * s) * 255.0 == f * d;
  }

  lemma Sector(x: real, k: int)
    requires k as real <= x < k as real + 1.0
    ensures x.Floor == k
  {}

  /** The sector table in terms of the largest level `m` and the spread `d`. */
  lemma SectorLevels(k: nat, f: real, s: real, v: real, m: real, d: real, x: real)
    requires k < 6 && m == 255.0 * v && d == 255.0 * v * s && x == f * d
    ensures SectorColor(k, f, s, v) == Leveled(k, m, d, x)
  {
    Levels(f, s, v);
  }

  lemma InSector(h: real, s: real, v: real, k: nat, f: real)
    requires k < 6 && 0.0 <= f < 1.0 && h == 60.0 * (k as real + f)
    ensures HsvToRgb(h, s, v) == Just(SectorColor(k, f, s, v))
  {
    assert h / 60.0 == k as real + f;
    Sector(h / 60.0, k);
  }

  /** Every hue of the circle is in one of the sectors. */
  lemma SectorOf(h: real) returns (k: nat, f: real)
    requires 0.0 <= h < 360.0
    ensures k < 6 && 0.0 <= f < 1.0 && h == 60.0 * (k as real + f)
  {
    k := (h / 60.0).Floor;
    f := h / 60.0 - k as real;
  }

  // ---------------------------------------------------------------- RGB through HSV

  predicate InBytes(c: Rgb) {
    0.0 <= c.r <= 255.0 && 0.0 <= c.g <= 255.0 && 0.0 <= c.b <= 255.0
  }

  /** Dividing by the spread and multiplying back. */
  lemma Ratio(x: real, d: real) returns (q: real)
    requires d > 0.0 && 0.0 <= x <= d
    ensures q == x / d && (-x) / d == -q
    ensures q * d == x && (1.0 - q) * d == d - x
    ensures 0.0 <= q <= 1.0 && (q == 1.0 <==> x == d) && (q == 0.0 <==> x == 0.0)
  {
    q := x / d;
    assert q * d == x;
    assert q < 0.0 ==> q * d < 0.0;
    assert q > 1.0 ==> (q - 1.0) * d > 0.0;
    var n := (-x) / d;
    assert (n + q) * d == n * d + q * d == 0.0;
  }

  /** The saturation and value of a colour give its levels back. */
  lemma LevelsOfRgb(max: real, delta: real) returns (s: real, v: real)
    requires max > 0.0 && 0.0 <= delta <= max
    ensures s == delta / max && v == max / 255.0
    ensures max == 255.0 * v && delta == 255.0 * v * s
  {
    v := max / 255.0;
    s := Ratio(delta, max);
    assert 255.0 * v * s == max * s;
  }

  /** The colour of sector `k` with largest level `m` and spread `d`; `x` is `f * d`. */
  function Leveled(k: nat, m: real, d: real, x: real): Rgb {
    if k == 0 then Rgb(m, m - d + x, m - d)
    else if k == 1 then Rgb(m - x, m, m - d)
    else if k == 2 then Rgb(m - d, m, m - d + x)
    else if k == 3 then Rgb(m - d, m - x, m)
    else if k == 4 then Rgb(m - d + x, m - d, m)
    else Rgb(m, m - d, m - x)
  }

  /** Where the hue of a colour that is not grey lies. */
  lemma HueOf(c: Rgb, max: real, min: real, d: real) returns (k: nat, f: real, x: real)
    requires max == Max(c.r, Max(c.g, c.b)) && min == Min(c.r, Min(c.g, c.b)) && max > min && d == max - min
    ensures k < 6 && 0.0 <= f < 1.0
    ensures Degrees(Sextant(c, max, d).value) == 60.0 * (k as real + f)
    ensures x == f * d && c == Leveled(k, max, d, x)
  {
    hide Leveled, Degrees;
    if c.r == max {
      k, f, x := RedHue(c, max, min, d);
    } else if c.g == max {
      k, f, x := GreenHue(c, max, min, d);
    } else {
      k, f, x := BlueHue(c, max, min, d);
    }
  }

  lemma RedHue(c: Rgb, max: real, min: real, d: real) returns (k: nat, f: real, x: real)
    requires c.r == max > min == Min(c.g, c.b) && c.g <= max && c.b <= max && d == max - min
    ensures k < 6 && 0.0 <= f < 1.0
    ensures Degrees((c.g - c.b) / d) == 60.0 * (k as real + f)
    ensures x == f * d && c == Leveled(k, max, d, x)
  {
    if c.g >= c.b {
      var q := Ratio(c.g - c.b, d);
      k, f, x := if q == 1.0 then 1 else 0, if q == 1.0 then 0.0 else q, if q == 1.0 then 0.0 else c.g - c.b;
    } else {
      var q := Ratio(c.b - c.g, d);
      assert (c.g - c.b) / d == -q by {
        assert c.g - c.b == -(c.b - c.g);
      }
      k, f, x := 5, 1.0 - q, d - (c.b - c.g);
    }
  }

  lemma GreenHue(c: Rgb, max: real, min: real, d: real) returns (k: nat, f: real, x: real)
    requires c.g == max > min == Min(c.r, c.b) && c.r < max && c.b <= max && d == max - min
    ensures k < 6 && 0.0 <= f < 1.0
    ensures Degrees(2.0 + (c.b - c.r) / d) == 60.0 * (k as real + f)
    ensures x == f * d && c == Leveled(k, max, d, x)
  {
    if c.b >= c.r {
      var q := Ratio(c.b - c.r, d);
      k, f, x := if q == 1.0 then 3 else 2, if q == 1.0 then 0.0 else q, if q == 1.0 then 0.0 else c.b - c.r;
    } else {
      var q := Ratio(c.r - c.b, d);
      assert (c.b - c.r) / d == -q by {
        assert c.b - c.r == -(c.r - c.b);
      }
      k, f, x := 1, 1.0 - q, d - (c.r - c.b);
    }
  }

  lemma BlueHue(c: Rgb, max: real, min: real, d: real) returns (k: nat, f: real, x: real)
    requires c.b == max > min == Min(c.r, c.g) && c.r < max && c.g < max && d == max - min
    ensures k < 6 && 0.0 <= f < 1.0
    ensures Degrees(4.0 + (c.r - c.g) / d) == 60.0 * (k as real + f)
    ensures x == f * d && c == Leveled(k, max, d, x)
  {
    if c.r >= c.g {
      var q := Ratio(c.r - c.g, d);
      k, f, x := 4, q, c.r - c.g;
    } else {
      var q := Ratio(c.g - c.r, d);
      assert (c.r - c.g) / d == -q by {
        assert c.r - c.g == -(c.g - c.r);
      }
      k, f, x := 3, 1.0 - q, d - (c.g - c.r);
    }
  }

  /**
   A colour survives the trip through HSV. Black and greys have no hue of their own: they survive with
   whatever hue the colour object keeps, as long as that hue has a sector.
   */
  lemma RgbSurvivesHsv(c: Rgb, kept: real)
    requires InBytes(c) && kept >= 0.0
    ensures var hsv := RgbToHsv(c);
            HsvToRgb(if hsv.h.Just? then hsv.h.value else kept, hsv.s, hsv.v) == Just(c)
  {
    var min, max := Min(c.r, Min(c.g, c.b)), Max(c.r, Max(c.g, c.b));
    var hsv := RgbToHsv(c);
    if max == min {
      GreyHasNoHue(c, kept);
    } else {
      assert Sextant(c, max, max - min).Just?;
      TintSurvives(c, max, min, max - min);
    }
  }

  lemma TintSurvives(c: Rgb, max: real, min: real, d: real)
    requires Sextant(c, max, d).Just? && InBytes(c) && d == max - min > 0.0
    requires max == Max(c.r, Max(c.g, c.b)) && min == Min(c.r, Min(c.g, c.b))
    ensures HsvToRgb(Degrees(Sextant(c, max, d).value), d / max, max / 255.0) == Just(c)
  {
    assert max > 0.0 && d <= max;
    hide Sextant, Degrees, Leveled, HsvToRgb, Max, Min, InBytes;
    var s, v := LevelsOfRgb(max, d);
    var k, f, x := HueOf(c, max, min, d);
    FromLevels(Degrees(Sextant(c, max, d).value), s, v, c, k, f, max, d, x);
  }

  lemma FromLevels(h: real, s: real, v: real, c: Rgb, k: nat, f: real, m: real, d: real, x: real)
    requires k < 6 && 0.0 <= f < 1.0 && h == 60.0 * (k as real + f) && c == Leveled(k, m, d, x)
    requires m == 255.0 * v && d == 255.0 * v * s && x == f * d
    ensures HsvToRgb(h, s, v) == Just(c)
  {
    InSector(h, s, v, k, f);
    SectorLevels(k, f, s, v, m, d, x);
  }

  lemma GreyHasNoHue(c: Rgb, kept: real)
    requires c.r == c.g == c.b && c.r >= 0.0 && kept >= 0.0
    ensures RgbToHsv(c) == Hsv(Nothing, 0.0, c.r / 255.0)
    ensures HsvToRgb(kept, 0.0, c.r / 255.0) == Just(c)
  {
    var hi, f := Remainder((kept / 60.0).Floor, 6), kept / 60.0 - (kept / 60.0).Floor as real;
    Levels(f, 0.0, c.r / 255.0);
    assert SectorColor(hi, f, 0.0, c.r / 255.0) == c;
  }

  /** The hue is missing exactly for black and the greys. */
  lemma HueIsMissingExactlyForGreys(c: Rgb)
    requires InBytes(c)
    ensures RgbToHsv(c).h.Nothing? <==> c.r == c.g == c.b
  {}

  // ---------------------------------------------------------------- HSV through RGB

  /** The hue, saturation and value of a levelled colour. */
  lemma HsvOfLevels(k: nat, f: real, m: real, d: real, x: real)
    requires k < 6 && 0.0 <= f < 1.0 && 0.0 < d <= m && x == f * d
    requires 0.0 <= x < d && (f > 0.0 ==> x > 0.0)
    ensures RgbToHsv(Leveled(k, m, d, x)) == Hsv(Just(60.0 * (k as real + f)), d / m, m / 255.0)
  {
    var c := Leveled(k, m, d, x);
    assert Max(c.r, Max(c.g, c.b)) == m && Min(c.r, Min(c.g, c.b)) == m - d;
    LeveledSextant(k, f, m, d, x);
  }

  lemma QuotientIs(a: real, d: real, q: real)
    requires d > 0.0 && q * d == a
    ensures a / d == q
  {
    assert (a / d - q) * d == 0.0;
  }

  lemma LeveledSextant(k: nat, f: real, m: real, d: real, x: real)
    requires k < 6 && 0.0 <= f < 1.0 && d > 0.0 && x == f * d && 0.0 <= x < d && (f > 0.0 ==> x > 0.0)
    ensures var s := Sextant(Leveled(k, m, d, x), m, d);
            s.Just? && Degrees(s.value) == 60.0 * (k as real + f)
  {
    QuotientIs(x, d, f);
    QuotientIs(x - d, d, f - 1.0);
    QuotientIs(d, d, 1.0);
    SextantOfLevels(k, f, m, d, x);
  }

  /** Reading the sextant off the levels; `x / d` and `(x - d) / d` are all the quotients there are. */
  lemma SextantOfLevels(k: nat, f: real, m: real, d: real, x: real)
    requires k < 6 && d > 0.0 && 0.0 <= x < d && (f == 0.0 <==> x == 0.0)
    requires 0.0 <= f < 1.0 && x / d == f && (x - d) / d == f - 1.0 && d / d == 1.0
    ensures var s := Sextant(Leveled(k, m, d, x), m, d);
            s.Just? && Degrees(s.value) == 60.0 * (k as real + f)
  {
    var c := Leveled(k, m, d, x);
    if k == 0 {
      assert c.g - c.b == x;
    } else if k == 1 {
      assert if x == 0.0 then c.g - c.b == d else c.b - c.r == x - d;
    } else if k == 2 {
      assert c.b - c.r == x;
    } else if k == 3 {
      assert if x == 0.0 then c.b - c.r == d else c.r - c.g == x - d;
    } else if k == 4 {
      assert c.r - c.g == x;
    } else {
      assert c.g - c.b == x - d;
    }
  }

  /** A colour with a hue on the circle and some saturation and value survives the trip through RGB. */
  lemma HsvSurvivesRgb(h: real, s: real, v: real)
    requires 0.0 <= h < 360.0 && 0.0 < s <= 1.0 && 0.0 < v <= 1.0
    ensures var rgb := HsvToRgb(h, s, v);
            rgb.Just? && InBytes(rgb.value) && RgbToHsv(rgb.value) == Hsv(Just(h), s, v)
  {
    hide Leveled, SectorColor, Sextant, Degrees, HsvToRgb, RgbToHsv, InBytes;
    var k, f := SectorOf(h);
    InSector(h, s, v, k, f);
    var m, d := 255.0 * v, 255.0 * v * s;
    Spread(v, s);
    var x := Portion(f, d);
    SectorLevels(k, f, s, v, m, d, x);
    HsvOfLevels(k, f, m, d, x);
    LeveledInBytes(k, m, d, x);
  }

  lemma ProductIsPositive(a: real, b: real)
    requires a > 0.0 && b > 0.0
    ensures a * b > 0.0
  {}

  lemma Portion(f: real, d: real) returns (x: real)
    requires 0.0 <= f < 1.0 && d > 0.0
    ensures x == f * d && 0.0 <= x < d && (f > 0.0 ==> x > 0.0)
  {
    x := f * d;
    var g := 1.0 - f;
    var rest := g * d;
    ProductIsPositive(g, d);
    if f > 0.0 {
      ProductIsPositive(f, d);
    } else {
      assert x == 0.0 * d;
    }
    assert x + rest == d;
  }

  lemma Spread(v: real, s: real)
    requires 0.0 < s <= 1.0 && 0.0 < v <= 1.0
    ensures var m, d := 255.0 * v, 255.0 * v * s;
            0.0 < d <= m <= 255.0 && d / m == s && m / 255.0 == v
  {
    var m, d := 255.0 * v, 255.0 * v * s;
    assert d == m * s && m * (1.0 - s) >= 0.0 && m * s > 0.0;
    QuotientIs(d, m, s);
  }

  lemma LeveledInBytes(k: nat, m: real, d: real, x: real)
    requires 0.0 <= x < d <= m <= 255.0
    ensures InBytes(Leveled(k, m, d, x))
  {}

  // ---------------------------------------------------------------- packed colours

  /** A component by its place in a packed colour: blue, green, red. */
  function Component(c: Rgb, i: nat): real
    requires i < 3
  {
    if i == 0 then c.b else if i == 1 then c.g else c.r
  }

  function WithComponent(c: Rgb, i: nat, value: real): Rgb
    requires i < 3
  {
    if i == 0 then c.(b := value) else if i == 1 then c.(g := value) else c.(r := value)
  }

  function ByteOf(hex: bv32, i: nat): real
    requires i < 3
  {
    (ColorHex.ComponentFromHex(hex, i) as nat) as real
  }

  function BytesOf(hex: bv32): Rgb {
    Rgb(ByteOf(hex, 2), ByteOf(hex, 1), ByteOf(hex, 0))
  }

  function Truncated(v: real): int {
    if v >= 0.0 then v.Floor else -((-v).Floor)
  }

  /** Truncated to 32 bits. */
  function Word(v: real): (n: nat)
    ensures n < 0x1_0000_0000
  {
    Truncated(v) % 0x1_0000_0000
  }

  /** The 32-bit integer a shift works on. */
  function ToInt32(v: real): bv32 {
    Word(v) as bv32
  }

  /** A fraction is cut off towards zero. */
  lemma TruncatedTowardsZero(v: real)
    ensures var t := Truncated(v) as real;
            if v >= 0.0 then 0.0 <= t <= v < t + 1.0 else t - 1.0 < v <= t <= 0.0
  {}

  /** What does not fit into 32 bits wraps around, negative numbers as well. */
  lemma WordWrapsAround(v: real)
    ensures exists turns: int :: Truncated(v) == Word(v) + turns * 0x1_0000_0000
  {
    assert Truncated(v) == Word(v) + (Truncated(v) / 0x1_0000_0000) * 0x1_0000_0000;
  }

  function Packed(c: Rgb): bv32 {
    ColorHex.RgbToHex(ToInt32(c.r), ToInt32(c.g), ToInt32(c.b))
  }

  predicate IsByte(v: real) {
    0.0 <= v <= 255.0 && v == v.Floor as real
  }

  lemma ByteIsKept(v: real)
    requires IsByte(v)
    ensures ToInt32(v) <= 0xFF && (ToInt32(v) as nat) as real == v
  {
    assert Truncated(v) % 0x1_0000_0000 == v.Floor;
  }

  /** Colours of whole bytes, and no others, come back from being packed. */
  lemma PackedExactlyKeepsBytes(c: Rgb)
    ensures BytesOf(Packed(c)) == c <==> IsByte(c.r) && IsByte(c.g) && IsByte(c.b)
  {
    hide ToInt32, ColorHex.RgbToHex;
    if IsByte(c.r) && IsByte(c.g) && IsByte(c.b) {
      ByteIsKept(c.r);
      ByteIsKept(c.g);
      ByteIsKept(c.b);
      ColorHex.PackedComponents(ToInt32(c.r), ToInt32(c.g), ToInt32(c.b));
    }
    UnpackedIsByte(Packed(c), 0);
    UnpackedIsByte(Packed(c), 1);
    UnpackedIsByte(Packed(c), 2);
  }

  lemma UnpackedIsByte(hex: bv32, i: nat)
    requires i < 3
    ensures IsByte(ByteOf(hex, i))
  {
    assert ColorHex.ComponentFromHex(hex, i) <= 0xFF;
  }

  // ---------------------------------------------------------------- the colour object

  datatype Space = RGB | HSV | HEX

  /** The state of a colour: the fields of the other spaces may be out of date, or not there yet. */
  class Color {
    var space: Space
    var r: Maybe<real>
    var g: Maybe<real>
    var b: Maybe<real>
    var h: Maybe<real>
    var s: real
    var v: real
    var hex: bv32

    /** The colour this object stands for, when it has one. */
    ghost function Meaning(): Maybe<Rgb>
      reads this
    {
      match space
      case RGB => if r.Just? && g.Just? && b.Just? then Just(Rgb(r.value, g.value, b.value)) else Nothing
      case HSV => if h.Nothing? then Nothing else HsvToRgb(h.value, s, v)
      case HEX => Just(BytesOf(hex))
    }

    function Field(i: nat): Maybe<real>
      requires i < 3
      reads this
    {
      if i == 0 then b else if i == 1 then g else r
    }

    /** The field already holds what the colour stands for. */
    ghost predicate IsUpToDate(i: nat)
      requires i < 3
      reads this
    {
      Meaning().Just? && Field(i) == Just(Component(Meaning().value, i))
    }

    /** The two other fields do. */
    ghost predicate OthersUpToDate(i: nat)
      requires i < 3
      reads this
    {
      && (i != 0 ==> IsUpToDate(0)) && (i != 1 ==> IsUpToDate(1)) && (i != 2 ==> IsUpToDate(2))
    }

    constructor FromRgb(c: Rgb)
      ensures space == RGB && Meaning() == Just(c) && h.Nothing?
    {
      space, r, g, b, h, s, v, hex := RGB, Just(c.r), Just(c.g), Just(c.b), Nothing, 0.0, 0.0, 0;
    }

    constructor FromHex(packed: bv32)
      ensures space == HEX && hex == packed && r.Nothing? && g.Nothing? && b.Nothing? && h.Nothing?
    {
      space, r, g, b, h, s, v, hex := HEX, Nothing, Nothing, Nothing, Nothing, 0.0, 0.0, packed;
    }

    /** `recalculateRGB`: of a packed colour only the component asked for is unpacked. */
    method RecalculateRgb(i: nat)
      requires i < 3 && space != RGB && Meaning().Just?
      modifies this`r, this`g, this`b
      ensures Meaning() == old(Meaning())
      ensures forall j: nat | j < 3 ::
                Field(j) == if j == i || space == HSV then Just(Component(Meaning().value, j)) else old(Field(j))
    {
      if space == HEX {
        var component := Just(ByteOf(hex, i));
        if i == 0 {
          b := component;
        } else if i == 1 {
          g := component;
        } else {
          r := component;
        }
      } else {
        var c := HsvToRgb(h.value, s, v).value;
        r, g, b := Just(c.r), Just(c.g), Just(c.b);
      }
    }

    method GetComponent(i: nat) returns (c: real)
      requires i < 3 && Meaning().Just?
      modifies this`r, this`g, this`b
      ensures Meaning() == old(Meaning()) && c == Component(Meaning().value, i) && IsUpToDate(i)
      ensures (i == 0 ==> c == Meaning().value.b) && (i == 1 ==> c == Meaning().value.g)
      ensures i == 2 ==> c == Meaning().value.r
      ensures forall j: nat | j < 3 && old(IsUpToDate(j)) :: IsUpToDate(j)
    {
      if space != RGB {
        RecalculateRgb(i);
      }
      c := Field(i).value;
    }

    /**
     Writing one component switches the space to RGB. The colour is the old one with that component
     exactly when it was not packed, or the two other fields were up to date.
     */
    method SetComponent(i: nat, value: real)
      requires i < 3 && (space != RGB ==> Meaning().Just?)
      modifies this`space, this`r, this`g, this`b
      ensures space == RGB && Field(i) == Just(value)
      ensures (i == 0 ==> b == Just(value)) && (i == 1 ==> g == Just(value)) && (i == 2 ==> r == Just(value))
      ensures forall j: nat | j < 3 && j != i ::
                Field(j) == if old(space) == HSV then Just(Component(old(Meaning()).value, j)) else old(Field(j))
      ensures old(Meaning()).Just? ==>
                (Meaning() == Just(WithComponent(old(Meaning()).value, i, value))
                 <==> old(space) != HEX || old(OthersUpToDate(i)))
    {
      hide HsvToRgb, ByteOf;
      assert Field(0) == b && Field(1) == g && Field(2) == r;
      if space != RGB {
        RecalculateRgb(i);
        assert Field(0) == b && Field(1) == g && Field(2) == r;
        space := RGB;
      }
      if i == 0 {
        b := Just(value);
      } else if i == 1 {
        g := Just(value);
      } else {
        r := Just(value);
      }
    }

    /** Reading the packed colour switches the space: what is not a whole byte is lost, the fields stay. */
    method GetHex() returns (packed: bv32)
      requires Meaning().Just?
      modifies this`space, this`r, this`g, this`b, this`hex
      ensures space == HEX && packed == hex
      ensures hex == if old(space) == HEX then old(hex) else Packed(old(Meaning()).value)
      ensures old(space) != HEX ==> forall j: nat | j < 3 :: Field(j) == Just(Component(old(Meaning()).value, j))
    {
      if space != HEX {
        var red := GetComponent(2);
        var green := GetComponent(1);
        var blue := GetComponent(0);
        hex := ColorHex.RgbToHex(ToInt32(red), ToInt32(green), ToInt32(blue));
        space := HEX;
      }
      packed := hex;
    }

    /** `recalculateHSV`: a hue that is NaN leaves the kept one, or 0 if there is none yet. */
    method RecalculateHsv()
      requires Meaning().Just?
      modifies this`r, this`g, this`b, this`h, this`s, this`v
      ensures var c := RgbToHsv(old(Meaning()).value);
              && s == c.s && v == c.v
              && h == if c.h.Just? then c.h else if old(h).Just? then old(h) else Just(0.0)
      ensures space != HSV ==> Meaning() == old(Meaning())
    {
      hide HsvToRgb, ByteOf, RgbToHsv;
      var red := GetComponent(2);
      var green := GetComponent(1);
      var blue := GetComponent(0);
      var result := RgbToHsv(Rgb(red, green, blue));
      s, v := result.s, result.v;
      if result.h.Just? {
        h := result.h;
      } else if h.Nothing? {
        h := Just(0.0);
      }
    }

    /** Reading a component in HSV changes nothing. */
    method GetSaturation() returns (value: real)
      requires space != HSV ==> Meaning().Just?
      modifies this`r, this`g, this`b, this`h, this`s, this`v
      ensures value == s
      ensures space == HSV ==> s == old(s) && h == old(h) && v == old(v)
      ensures space != HSV ==>
                var c := RgbToHsv(old(Meaning()).value);
                && s == c.s && v == c.v
                && (h == if c.h.Just? then c.h else if old(h).Just? then old(h) else Just(0.0))
                && Meaning() == old(Meaning())
    {
      if space != HSV {
        RecalculateHsv();
      }
      value := s;
    }

    /** Writing one component switches the space, after the two others have been brought up to date. */
    method SetSaturation(value: real)
      requires space != HSV ==> Meaning().Just?
      modifies this
      ensures space == HSV && s == value
      ensures old(space) == HSV ==> h == old(h) && v == old(v)
      ensures old(space) != HSV ==>
                var c := RgbToHsv(old(Meaning()).value);
                && v == c.v
                && h == if c.h.Just? then c.h else if old(h).Just? then old(h) else Just(0.0)
    {
      if space != HSV {
        RecalculateHsv();
        space := HSV;
      }
      s := value;
    }
  }

  /** Writing a colour's own saturation back switches it to HSV and does not change its components, packed or not. */
  method TouchSaturation(color: Color)
    requires color.Meaning().Just? && InBytes(color.Meaning().value)
    requires color.h.Just? ==> color.h.value >= 0.0
    modifies color
    ensures color.space == HSV && color.Meaning() == old(color.Meaning())
  {
    ghost var before := color.Meaning().value;
    ghost var kept := color.h;
    ghost var held := color.space;
    var saturation := color.GetSaturation();
    color.SetSaturation(saturation);
    if held != HSV {
      RgbSurvivesHsv(before, if RgbToHsv(before).h.Just? then 0.0 else color.h.value);
    }
  }

  /** A colour given as a packed one is lost when one component is written: the two others are not there. */
  method WriteIntoPacked(packed: bv32, i: nat, value: real) returns (color: Color)
    requires i < 3
    ensures fresh(color) && color.Meaning() == Nothing
  {
    color := new Color.FromHex(packed);
    color.SetComponent(i, value);
    assert color.Field((i + 1) % 3) == Nothing;
  }
}
