/**
 What the blend modes of src/canvas2d/composite.rs mean (section 10.1 of Compositing and
 Blending Level 1), as laws of the operator on opaque pixels that fix each separable mode,
 and one that reduces translucent pixels to opaque ones.
 */
module BlendLaws {
  import opened Common
  import opened Composite

  function Flat(v: real): Rgb { Rgb(v, v, v) }

  const BLACK := Flat(0.0)
  const GREY := Flat(0.5)
  const WHITE := Flat(1.0)

  function Opaque(c: Rgb): Rgba { Rgba(c.r, c.g, c.b, 1.0) }

  /** An opaque colour blended onto an opaque colour shows what the mode makes of the two, which the laws below speak of. */
  lemma OpaquePixels(mode: BlendMode, s: Rgb, d: Rgb, sqrt: real -> real)
    requires InUnit(s) && InUnit(d)
    ensures Apply(Blend(mode), Opaque(s), Opaque(d), sqrt) == Opaque(Blended(mode, s, d, sqrt))
  {
    OpaqueBlend(Opaque(s), Opaque(d), Blended(mode, s, d, sqrt));
  }

  function Mid(a: real, b: real, t: real): real { a + Times(t, b - a) }

  /** The colour between `a` and `b`, at the place `t` for each channel. */
  function Lerp(a: Rgb, b: Rgb, t: Rgb): Rgb { Rgb(Mid(a.r, b.r, t.r), Mid(a.g, b.g, t.g), Mid(a.b, b.b, t.b)) }

  function Inverse(c: Rgb): Rgb { Rgb(1.0 - c.r, 1.0 - c.g, 1.0 - c.b) }

  lemma MidIsUnit(a: real, b: real, t: real)
    requires 0.0 <= a <= 1.0 && 0.0 <= b <= 1.0 && 0.0 <= t <= 1.0
    ensures 0.0 <= Mid(a, b, t) <= 1.0
  {
    if a <= b {
      var d := b - a;
      TimesIsSmaller(d, t);
      TimesSwaps(d, t);
    } else {
      var d := a - b;
      TimesIsSmaller(d, t);
      TimesSwaps(d, t);
      TimesNegates(t, d);
      assert b - a == -d;
    }
  }

  lemma LerpIsUnit(a: Rgb, b: Rgb, t: Rgb)
    requires InUnit(a) && InUnit(b) && InUnit(t)
    ensures InUnit(Lerp(a, b, t))
  {
    MidIsUnit(a.r, b.r, t.r);
    MidIsUnit(a.g, b.g, t.g);
    MidIsUnit(a.b, b.b, t.b);
  }

  // ----- multiply and screen -----

  lemma ProductOfMid(a: real, b: real, t: real, d: real)
    ensures Mid(a, b, t) * d == Mid(a * d, b * d, t)
  {
    var u := b - a;
    assert (a + t * u) * d == a * d + (t * u) * d;
    assert (t * u) * d == t * (u * d);
    assert u * d == b * d - a * d;
  }

  /** White is neutral, black absorbs, the order does not matter, and the result is linear in each colour. */
  lemma MultiplyLaws(s: Rgb, e: Rgb, t: Rgb, d: Rgb, sqrt: real -> real)
    requires InUnit(s) && InUnit(e) && InUnit(t) && InUnit(d)
    ensures Blended(Multiply, WHITE, d, sqrt) == d && Blended(Multiply, BLACK, d, sqrt) == BLACK
    ensures Blended(Multiply, s, d, sqrt) == Blended(Multiply, d, s, sqrt)
    ensures Blended(Multiply, Lerp(s, e, t), d, sqrt) == Lerp(Blended(Multiply, s, d, sqrt), Blended(Multiply, e, d, sqrt), t)
  {
    LerpIsUnit(s, e, t);
    ProductOfMid(s.r, e.r, t.r, d.r);
    ProductOfMid(s.g, e.g, t.g, d.g);
    ProductOfMid(s.b, e.b, t.b, d.b);
  }

  lemma DualChannel(s: real, d: real)
    ensures ScreenChannel(s, d) == 1.0 - (1.0 - s) * (1.0 - d)
  {
    Expand(s, d);
  }

  /** Screen is multiply on the complements. */
  lemma ScreenIsDual(s: Rgb, d: Rgb, sqrt: real -> real)
    requires InUnit(s) && InUnit(d)
    ensures Blended(Screen, s, d, sqrt) == Inverse(Blended(Multiply, Inverse(s), Inverse(d), sqrt))
  {
    DualChannel(s.r, d.r);
    DualChannel(s.g, d.g);
    DualChannel(s.b, d.b);
  }

  // ----- dodge and burn -----

  /** A channel of a dodge: black stays black; else it is the backdrop over the complement of the source, as far as that goes. */
  ghost predicate Dodges(s: real, d: real, out: real) {
    && (d == 0.0 ==> out == 0.0)
    && (0.0 < d < 1.0 - s ==> out * (1.0 - s) == d)
    && (d > 0.0 && d >= 1.0 - s ==> out == 1.0)
  }

  lemma DodgeChannelDodges(s: real, d: real)
    requires 0.0 <= s <= 1.0 && 0.0 <= d <= 1.0
    ensures Dodges(s, d, DodgeChannel(s, d))
  {
    if 0.0 < d && s < 1.0 {
      Quotient(d, 1.0 - s);
      if d >= 1.0 - s {
        QuotientOfLarger(d, 1.0 - s);
      }
    }
  }

  lemma QuotientOfLarger(x: real, y: real)
    requires 0.0 < y <= x
    ensures x / y >= 1.0
  {
    Quotient(x, y);
    assert (x / y) * y >= y;
  }

  lemma DodgeLaw(s: Rgb, d: Rgb, sqrt: real -> real)
    requires InUnit(s) && InUnit(d)
    ensures var out := Blended(ColorDodge, s, d, sqrt);
      Dodges(s.r, d.r, out.r) && Dodges(s.g, d.g, out.g) && Dodges(s.b, d.b, out.b)
  {
    DodgeChannelDodges(s.r, d.r);
    DodgeChannelDodges(s.g, d.g);
    DodgeChannelDodges(s.b, d.b);
  }

  /** A burn is what a dodge does on the complements. */
  lemma BurnIsDual(s: Rgb, d: Rgb, sqrt: real -> real)
    requires InUnit(s) && InUnit(d)
    ensures var out := Blended(ColorBurn, s, d, sqrt);
      && Dodges(1.0 - s.r, 1.0 - d.r, 1.0 - out.r) && Dodges(1.0 - s.g, 1.0 - d.g, 1.0 - out.g)
      && Dodges(1.0 - s.b, 1.0 - d.b, 1.0 - out.b)
  {
    BurnChannelDodges(s.r, d.r);
    BurnChannelDodges(s.g, d.g);
    BurnChannelDodges(s.b, d.b);
  }

  lemma BurnChannelDodges(s: real, d: real)
    requires 0.0 <= s <= 1.0 && 0.0 <= d <= 1.0
    ensures Dodges(1.0 - s, 1.0 - d, 1.0 - BurnChannel(s, d))
  {
    if d < 1.0 && s > 0.0 {
      Quotient(1.0 - d, s);
      if 1.0 - d >= s {
        QuotientOfLarger(1.0 - d, s);
      }
    }
  }

  // ----- hard light, overlay -----

  /** Hard light multiplies by twice a dark source channel and screens with the rest of a bright one. */
  lemma HardLightHalves(s: Rgb, d: Rgb, sqrt: real -> real)
    ensures var out := Blended(HardLight, s, d, sqrt);
      && (s.r <= 0.5 ==> out.r == Blended(Multiply, Flat(2.0 * s.r), d, sqrt).r)
      && (s.r > 0.5 ==> out.r == Blended(Screen, Flat(2.0 * s.r - 1.0), d, sqrt).r)
      && (s.g <= 0.5 ==> out.g == Blended(Multiply, Flat(2.0 * s.g), d, sqrt).g)
      && (s.g > 0.5 ==> out.g == Blended(Screen, Flat(2.0 * s.g - 1.0), d, sqrt).g)
      && (s.b <= 0.5 ==> out.b == Blended(Multiply, Flat(2.0 * s.b), d, sqrt).b)
      && (s.b > 0.5 ==> out.b == Blended(Screen, Flat(2.0 * s.b - 1.0), d, sqrt).b)
  {
  }

  /** Overlay is hard light with the colours exchanged. */
  lemma OverlayIsHardLight(s: Rgb, d: Rgb, sqrt: real -> real)
    requires InUnit(s) && InUnit(d)
    ensures Blended(Overlay, s, d, sqrt) == Blended(HardLight, d, s, sqrt)
  {
  }

  // ----- darken, lighten, difference, exclusion -----

  /** The darker channel is one of the two and below both, the lighter one is the other, and their difference is the difference. */
  lemma DarkenLightenDifference(s: Rgb, d: Rgb, sqrt: real -> real)
    requires InUnit(s) && InUnit(d)
    ensures var low, high, gap := Blended(Darken, s, d, sqrt), Blended(Lighten, s, d, sqrt), Blended(Difference, s, d, sqrt);
      && Sorts(s.r, d.r, low.r, high.r) && Sorts(s.g, d.g, low.g, high.g) && Sorts(s.b, d.b, low.b, high.b)
      && gap.r == high.r - low.r && gap.g == high.g - low.g && gap.b == high.b - low.b
  {
  }

  ghost predicate Sorts(x: real, y: real, low: real, high: real) {
    low <= high && ((low == x && high == y) || (low == y && high == x))
  }

  lemma ExclusionOfMid(a: real, b: real, t: real, d: real)
    ensures ExclusionChannel(Mid(a, b, t), d) == Mid(ExclusionChannel(a, d), ExclusionChannel(b, d), t)
  {
    var u := b - a;
    assert Mid(a, b, t) * d == a * d + t * (u * d) by {
      ProductOfMid(a, b, t, d);
      assert b * d - a * d == u * d;
    }
    assert ExclusionChannel(b, d) - ExclusionChannel(a, d) == u - 2.0 * (u * d) by {
      assert u * d == b * d - a * d;
    }
    assert t * (u - 2.0 * (u * d)) == t * u - 2.0 * (t * (u * d));
  }

  /** Black is neutral, white inverts, the order does not matter, and the result is linear in each colour. */
  lemma ExclusionLaws(s: Rgb, e: Rgb, t: Rgb, d: Rgb, sqrt: real -> real)
    requires InUnit(s) && InUnit(e) && InUnit(t) && InUnit(d)
    ensures Blended(Exclusion, BLACK, d, sqrt) == d && Blended(Exclusion, WHITE, d, sqrt) == Inverse(d)
    ensures Blended(Exclusion, s, d, sqrt) == Blended(Exclusion, d, s, sqrt)
    ensures Blended(Exclusion, Lerp(s, e, t), d, sqrt) == Lerp(Blended(Exclusion, s, d, sqrt), Blended(Exclusion, e, d, sqrt), t)
  {
    LerpIsUnit(s, e, t);
    ExclusionOfMid(s.r, e.r, t.r, d.r);
    ExclusionOfMid(s.g, e.g, t.g, d.g);
    ExclusionOfMid(s.b, e.b, t.b, d.b);
    ExclusionSwaps(s.r, d.r);
    ExclusionSwaps(s.g, d.g);
    ExclusionSwaps(s.b, d.b);
  }

  lemma ExclusionSwaps(s: real, d: real)
    ensures ExclusionChannel(s, d) == ExclusionChannel(d, s)
  {
    assert 2.0 * s * d == 2.0 * (s * d) == 2.0 * (d * s) == 2.0 * d * s;
  }

  // ----- soft light -----

  /** What white makes of a backdrop channel: a root, or for the dark quarter the cubic that meets it. */
  ghost predicate Softens(d: real, out: real) {
    && (d > 0.25 ==> out >= 0.0 && out * out == d)
    && (d <= 0.25 ==> out == 16.0 * (d * d * d) - 12.0 * (d * d) + 4.0 * d)
  }

  lemma CubicSoftens(d: real)
    ensures Cubic(d) == 16.0 * (d * d * d) - 12.0 * (d * d) + 4.0 * d
  {
    var q := d * d;
    assert (16.0 * d - 12.0) * d == 16.0 * q - 12.0 * d;
    assert (16.0 * q - 12.0 * d + 4.0) * d == 16.0 * (q * d) - 12.0 * q + 4.0 * d;
  }

  /** Black squares the backdrop, middle grey leaves it, white softens it. */
  lemma SoftLightEnds(d: Rgb, sqrt: real -> real)
    requires IsSqrt(sqrt) && InUnit(d)
    ensures Blended(SoftLight, BLACK, d, sqrt) == Blended(Multiply, d, d, sqrt)
    ensures Blended(SoftLight, GREY, d, sqrt) == d
    ensures var out := Blended(SoftLight, WHITE, d, sqrt); Softens(d.r, out.r) && Softens(d.g, out.g) && Softens(d.b, out.b)
  {
    SoftChannelEnds(d.r, sqrt);
    SoftChannelEnds(d.g, sqrt);
    SoftChannelEnds(d.b, sqrt);
  }

  lemma SoftChannelEnds(d: real, sqrt: real -> real)
    requires IsSqrt(sqrt) && 0.0 <= d <= 1.0
    ensures SoftLightChannel(0.0, d, sqrt) == d * d && SoftLightChannel(0.5, d, sqrt) == d
    ensures Softens(d, SoftLightChannel(1.0, d, sqrt))
  {
    assert d - d * (1.0 - d) == d * d;
    CubicSoftens(d);
  }

  /** Between those it is linear in the source, from black to grey and from grey to white. */
  lemma SoftLightIsLinear(t: Rgb, d: Rgb, sqrt: real -> real)
    requires InUnit(t) && InUnit(d) && IsSqrt(sqrt)
    ensures Blended(SoftLight, Lerp(BLACK, GREY, t), d, sqrt) == Lerp(Blended(SoftLight, BLACK, d, sqrt), d, t)
    ensures Blended(SoftLight, Lerp(GREY, WHITE, t), d, sqrt) == Lerp(d, Blended(SoftLight, WHITE, d, sqrt), t)
  {
    LerpIsUnit(BLACK, GREY, t);
    LerpIsUnit(GREY, WHITE, t);
    SoftChannelIsLinear(t.r, d.r, sqrt);
    SoftChannelIsLinear(t.g, d.g, sqrt);
    SoftChannelIsLinear(t.b, d.b, sqrt);
  }

  lemma SoftChannelIsLinear(t: real, d: real, sqrt: real -> real)
    requires 0.0 <= t <= 1.0 && 0.0 <= d <= 1.0 && IsSqrt(sqrt)
    ensures SoftLightChannel(Mid(0.0, 0.5, t), d, sqrt) == Mid(SoftLightChannel(0.0, d, sqrt), d, t)
    ensures SoftLightChannel(Mid(0.5, 1.0, t), d, sqrt) == Mid(d, SoftLightChannel(1.0, d, sqrt), t)
  {
    var dd := if d <= 0.25 then Cubic(d) else sqrt(d);
    SoftChannelEnds(d, sqrt);
    SoftBright(1.0, 1.0, d, dd);
    if t > 0.0 {
      SoftBright(Mid(0.5, 1.0, t), t, d, dd);
    } else {
      assert Mid(0.5, 1.0, t) == 0.5 && Mid(d, SoftLightChannel(1.0, d, sqrt), t) == d;
    }
    SoftDark(Mid(0.0, 0.5, t), t, d);
  }

  lemma SoftBright(s: real, t: real, d: real, dd: real)
    requires 2.0 * s - 1.0 == t
    ensures Brighten(s, d, dd) == Mid(d, dd, t)
  {
  }

  lemma SoftDark(s: real, t: real, d: real)
    requires 2.0 * s == t
    ensures d - Times(Times(1.0 - 2.0 * s, d), 1.0 - d) == Mid(d * d, d, t)
  {
    var e := d * (1.0 - d);
    assert d - d * d == e;
    assert ((1.0 - t) * d) * (1.0 - d) == (1.0 - t) * e == e - t * e;
  }

  // ----- hue, saturation, color, luminosity -----

  /** The colour with every channel moved alike, to luminosity `l`; perhaps outside the gamut. */
  function Shifted(c: Rgb, l: real): Rgb { Rgb(c.r + l - Lum(c), c.g + l - Lum(c), c.b + l - Lum(c)) }

  /**
   What clipping does: it moves all channels towards the luminosity, first by the factor
   that brings the least one up to zero, then by the one that would bring the original
   greatest one down to one; a factor is one where there is nothing to correct.
   */
  lemma ClipScales(c: Rgb) returns (j: real, k: real)
    requires 0.0 <= Lum(c) <= 1.0
    ensures var l := Lum(c);
      && ClipColor(c) == Scaled(Scaled(c, l, j), l, k)
      && (if Least(c) < 0.0 then j * (l - Least(c)) == l else j == 1.0)
      && (if Most(c) > 1.0 then k * (Most(c) - l) == 1.0 - l else k == 1.0)
  {
    j, k := ClipIsScaling(c, Lum(c), Least(c), Most(c));
  }

  /** Color shows the source at the backdrop's luminosity, and luminosity is color with the colours exchanged. */
  lemma ColorShifts(cs: Rgb, cd: Rgb, sqrt: real -> real)
    ensures Blended(Color, cs, cd, sqrt) == ClipColor(Shifted(cs, Lum(cd))) && Lum(Shifted(cs, Lum(cd))) == Lum(cd)
    ensures Blended(Luminosity, cs, cd, sqrt) == Blended(Color, cd, cs, sqrt)
  {
  }

  /** `x` differs from `c` by a factor and a shift of all channels. */
  ghost predicate SameHue(x: Rgb, c: Rgb) {
    && Times(x.r - x.g, Sat(c)) == Times(c.r - c.g, Sat(x))
    && Times(x.g - x.b, Sat(c)) == Times(c.g - c.b, Sat(x))
    && Times(x.b - x.r, Sat(c)) == Times(c.b - c.r, Sat(x))
  }

  /** Hue gives what color gives for any colour of the source's hue and the backdrop's saturation. */
  lemma HueLaw(cs: Rgb, cd: Rgb, x: Rgb, sqrt: real -> real)
    requires Sat(cs) > 0.0 && SameHue(x, cs) && Sat(x) == Sat(cd)
    ensures Blended(Hue, cs, cd, sqrt) == Blended(Color, x, cd, sqrt)
  {
    SetSatOf(cs, x);
  }

  /** Saturation does for any colour of the backdrop's hue and the source's saturation. */
  lemma SaturationLaw(cs: Rgb, cd: Rgb, x: Rgb, sqrt: real -> real)
    requires Sat(cd) > 0.0 && SameHue(x, cd) && Sat(x) == Sat(cs)
    ensures Blended(Saturation, cs, cd, sqrt) == Blended(Color, x, cd, sqrt)
  {
    SetSatOf(cd, x);
  }

  /** There always is such a colour. */
  lemma HueExists(c: Rgb, s: real) returns (x: Rgb)
    requires Sat(c) > 0.0 && s >= 0.0
    ensures SameHue(x, c) && Sat(x) == s
  {
    var f := FactorFor(s, Sat(c));
    SatScales(f, c);
    HueScales(f, c, Sat(c), s);
    x := By(f, c);
  }

  lemma FactorFor(s: real, sat: real) returns (f: real)
    requires s >= 0.0 && sat > 0.0
    ensures 0.0 <= f && Times(f, sat) == s
  {
    Quotient(s, sat);
    f := s / sat;
  }

  function By(f: real, c: Rgb): Rgb { Rgb(Times(f, c.r), Times(f, c.g), Times(f, c.b)) }

  lemma SatScales(f: real, c: Rgb)
    requires 0.0 <= f
    ensures Sat(By(f, c)) == Times(f, Sat(c))
  {
    Scales(f, c.r, c.g);
    Scales(f, c.g, c.b);
    Scales(f, c.b, c.r);
    Scales(f, Most(c), Least(c));
    assert Most(By(f, c)) == Times(f, Most(c)) && Least(By(f, c)) == Times(f, Least(c));
  }

  lemma HueScales(f: real, c: Rgb, sat: real, s: real)
    requires 0.0 <= f && sat == Sat(c) && Times(f, sat) == s && Sat(By(f, c)) == s
    ensures SameHue(By(f, c), c)
  {
    Scales(f, c.r, c.g);
    Scales(f, c.g, c.b);
    Scales(f, c.b, c.r);
    ThroughSat(c.r - c.g, f, sat, s);
    ThroughSat(c.g - c.b, f, sat, s);
    ThroughSat(c.b - c.r, f, sat, s);
  }

  lemma Scales(f: real, a: real, b: real)
    requires 0.0 <= f
    ensures Times(f, a) - Times(f, b) == Times(f, a - b)
    ensures a <= b ==> Times(f, a) <= Times(f, b)
    ensures b <= a ==> Times(f, b) <= Times(f, a)
  {
    assert f * a - f * b == f * (a - b);
    if a <= b {
      NonNegative(f, b - a);
    } else {
      NonNegative(f, a - b);
    }
  }

  lemma ThroughSat(d: real, f: real, sat: real, s: real)
    requires Times(f, sat) == s
    ensures Times(Times(f, d), sat) == Times(d, s)
  {
    assert (f * d) * sat == d * (f * sat);
  }

  /** A colour without hue has none to give or to keep: its saturation cannot be set, and it takes any luminosity as a grey. */
  lemma NoSaturation(c: Rgb, s: real, black: Rgb)
    requires black == Flat(0.0) && Sat(c) <= 0.0
    ensures SetSat(c, s) == black
  {
  }

  lemma GreyTakesLuminosity(grey: Rgb, v: real, cd: Rgb, l: real, sqrt: real -> real)
    requires grey == Flat(v) && 0.0 <= l <= 1.0 && l == Lum(cd)
    ensures Blended(Color, grey, cd, sqrt) == Flat(l)
  {
    GreySetLum(grey, v, l);
  }

  lemma GreySetLum(grey: Rgb, v: real, l: real)
    requires grey == Flat(v) && 0.0 <= l <= 1.0
    ensures SetLum(grey, l) == Flat(l)
  {
    var moved := Rgb(grey.r + (l - Lum(grey)), grey.g + (l - Lum(grey)), grey.b + (l - Lum(grey)));
    assert Lum(grey) == v && moved == Flat(l);
    assert Lum(moved) == Least(moved) == Most(moved) == l;
  }

  /** Setting the saturation of `c` to that of a colour of its hue gives that colour, but for a shift. */
  lemma SetSatOf(c: Rgb, x: Rgb)
    requires Sat(c) > 0.0 && SameHue(x, c)
    ensures forall l :: SetLum(SetSat(c, Sat(x)), l) == SetLum(x, l)
  {
    var t := SetSat(c, Sat(x));
    LeastMoves(c, x);
    var n := Least(x);
    assert t == Rgb(x.r - n, x.g - n, x.b - n);
    assert Lum(t) == Lum(x) - n;
  }

  /** Each channel of `x` stands above the least one as `SetSat` puts it. */
  lemma LeastMoves(c: Rgb, x: Rgb)
    requires Sat(c) > 0.0 && SameHue(x, c)
    ensures SetSat(c, Sat(x)) == Rgb(x.r - Least(x), x.g - Least(x), x.b - Least(x))
  {
    LeastTogether(c, x);
    SetSatShares(c, Sat(x));
    AboveLeast(c.r - Least(c), x.r - Least(x), Sat(c), Sat(x));
    AboveLeast(c.g - Least(c), x.g - Least(x), Sat(c), Sat(x));
    AboveLeast(c.b - Least(c), x.b - Least(x), Sat(c), Sat(x));
  }

  function Share(d: real, s: real, sat: real): real
    requires sat != 0.0
  {
    d * s / sat
  }

  lemma SetSatShares(c: Rgb, s: real)
    requires Sat(c) > 0.0
    ensures var n := Least(c);
      SetSat(c, s) == Rgb(Share(c.r - n, s, Sat(c)), Share(c.g - n, s, Sat(c)), Share(c.b - n, s, Sat(c)))
  {
  }

  lemma AboveLeast(d: real, e: real, sat: real, s: real)
    requires sat > 0.0 && Times(e, sat) == Times(d, s)
    ensures Share(d, s, sat) == e
  {
    assert d * s == e * sat;
  }

  /** Where `c` is least so is `x`, so the distances to the least channel keep their ratio. */
  lemma LeastTogether(c: Rgb, x: Rgb)
    requires Sat(c) > 0.0 && SameHue(x, c)
    ensures Times(x.r - Least(x), Sat(c)) == Times(c.r - Least(c), Sat(x))
    ensures Times(x.g - Least(x), Sat(c)) == Times(c.g - Least(c), Sat(x))
    ensures Times(x.b - Least(x), Sat(c)) == Times(c.b - Least(c), Sat(x))
  {
    var p, q := Sat(c), Sat(x);
    SameOrder(x.r - x.g, c.r - c.g, p, q);
    SameOrder(x.g - x.b, c.g - c.b, p, q);
    SameOrder(x.b - x.r, c.b - c.r, p, q);
    Negated(x.r - x.g, c.r - c.g, p, q);
    Negated(x.g - x.b, c.g - c.b, p, q);
    Negated(x.b - x.r, c.b - c.r, p, q);
  }

  lemma SameOrder(e: real, d: real, p: real, q: real)
    requires p > 0.0 && q >= 0.0 && Times(e, p) == Times(d, q)
    ensures d <= 0.0 ==> e <= 0.0
    ensures d >= 0.0 ==> e >= 0.0
  {
    PositiveFactor(e, p);
    if d <= 0.0 {
      NonNegative(-d, q);
      assert (-d) * q == -(d * q);
    } else {
      NonNegative(d, q);
    }
  }

  lemma PositiveFactor(e: real, p: real)
    requires p > 0.0
    ensures Times(e, p) >= 0.0 ==> e >= 0.0
    ensures Times(e, p) <= 0.0 ==> e <= 0.0
  {
    if e < 0.0 {
      NonZero(-e, p);
      assert (-e) * p == -(e * p);
    } else if e > 0.0 {
      NonZero(e, p);
    }
  }

  lemma NonZero(e: real, p: real)
    requires e > 0.0 && p > 0.0
    ensures e * p > 0.0
  {
  }

  lemma Negated(e: real, d: real, p: real, q: real)
    requires Times(e, p) == Times(d, q)
    ensures Times(-e, p) == Times(-d, q)
  {
    assert (-e) * p == -(e * p) && (-d) * q == -(d * q);
  }

  // ----- translucent pixels -----

  /** The pixel that a colour with this coverage makes. */
  function Covered(c: Rgb, a: real): Rgba { Rgba(Times(a, c.r), Times(a, c.g), Times(a, c.b), a) }

  /** The parts of a pixel's area that are covered by both, by one only, and what is seen there. */
  function Mixture(s: Rgb, d: Rgb, both: Rgb, sa: real, da: real): Rgba {
    Rgba(Part(s.r, d.r, both.r, sa, da), Part(s.g, d.g, both.g, sa, da), Part(s.b, d.b, both.b, sa, da), 1.0 - (1.0 - sa) * (1.0 - da))
  }

  function Part(s: real, d: real, both: real, sa: real, da: real): real {
    (sa * (1.0 - da)) * s + (da * (1.0 - sa)) * d + (sa * da) * both
  }

  /**
   Blending translucent pixels mixes, by area covered, the source's colour, the backdrop's
   colour, and where both cover what the mode makes of the two.
   */
  lemma BlendIsMixture(mode: BlendMode, s: Rgba, d: Rgba, sqrt: real -> real)
    requires Valid(s) && Valid(d)
    ensures var cs, cd := Unpremultiply(s), Unpremultiply(d);
      && s == Covered(cs, s.a) && d == Covered(cd, d.a)
      && Apply(Blend(mode), s, d, sqrt) == Mixture(cs, cd, Blended(mode, cs, cd, sqrt), s.a, d.a)
  {
    var cs, cd := Unpremultiply(s), Unpremultiply(d);
    CoveredAgain(s);
    CoveredAgain(d);
    MixtureOf(cs, cd, Blended(mode, cs, cd, sqrt), s.a, d.a);
  }

  lemma CoveredAgain(p: Rgba)
    requires Valid(p)
    ensures p == Covered(Unpremultiply(p), p.a)
  {
    if p.a > 0.0 {
      Quotient(p.r, p.a);
      Quotient(p.g, p.a);
      Quotient(p.b, p.a);
    }
  }

  lemma MixtureOf(cs: Rgb, cd: Rgb, m: Rgb, sa: real, da: real)
    ensures BlendWith(Covered(cs, sa), Covered(cd, da), m) == Mixture(cs, cd, m, sa, da)
  {
    ChannelIsPart(cs.r, cd.r, sa, da, m.r);
    ChannelIsPart(cs.g, cd.g, sa, da, m.g);
    ChannelIsPart(cs.b, cd.b, sa, da, m.b);
    Expand(sa, da);
    UnionAs(sa, da);
  }

  lemma ChannelIsPart(c: real, e: real, sa: real, da: real, m: real)
    ensures BlendChannel(Times(sa, c), Times(da, e), sa, da, m) == Part(c, e, m, sa, da)
  {
    assert (sa * c) * (1.0 - da) == (sa * (1.0 - da)) * c;
    assert (da * e) * (1.0 - sa) == (da * (1.0 - sa)) * e;
  }

  // ----- Porter-Duff operators -----

  /** What an operator shows where only the source, only the destination, or both cover. */
  datatype Regions = Regions(sourceAlone: bool, destinationAlone: bool, bothSource: bool, bothDestination: bool)

  /**
   Section 9.1, operator by operator. `Lighter` adds where both cover; `Clear` removes the
   destination where the source covers.
   */
  function RegionsOf(op: Operator): Regions
    requires !op.Blend?
  {
    match op
    case Clear => Regions(false, true, false, false)
    case SourceOver => Regions(true, true, true, false)
    case SourceIn => Regions(false, false, true, false)
    case SourceOut => Regions(true, false, false, false)
    case SourceAtop => Regions(false, true, true, false)
    case DestinationOver => Regions(true, true, false, true)
    case DestinationIn => Regions(false, false, false, true)
    case DestinationOut => Regions(false, true, false, false)
    case DestinationAtop => Regions(true, false, false, true)
    case Lighter => Regions(true, true, true, true)
    case Copy => Regions(true, false, true, false)
    case Xor => Regions(true, true, false, false)
  }

  function If(shown: bool, v: real): real { if shown then v else 0.0 }

  /** What is seen of two premultiplied channels with these coverages. */
  function Seen(r: Regions, s: real, d: real, sa: real, da: real): real {
    If(r.sourceAlone, s * (1.0 - da)) + If(r.destinationAlone, d * (1.0 - sa)) + If(r.bothSource, s * da) + If(r.bothDestination, d * sa)
  }

  function Limited(v: real): real { if v < 1.0 then v else 1.0 }

  /** Every operator shows in each of the three regions what it is meant to show there, and adds them up, at most to one. */
  lemma RegionsDecide(op: Operator, s: Rgba, d: Rgba, sqrt: real -> real)
    requires !op.Blend? && Valid(s) && Valid(d)
    ensures var out, r := Apply(op, s, d, sqrt), RegionsOf(op);
      && out.r == Limited(Seen(r, s.r, d.r, s.a, d.a)) && out.g == Limited(Seen(r, s.g, d.g, s.a, d.a))
      && out.b == Limited(Seen(r, s.b, d.b, s.a, d.a)) && out.a == Limited(Seen(r, s.a, d.a, s.a, d.a))
  {
    SeenIsMix(op, s.r, d.r, s.a, d.a);
    SeenIsMix(op, s.g, d.g, s.a, d.a);
    SeenIsMix(op, s.b, d.b, s.a, d.a);
    SeenIsMix(op, s.a, d.a, s.a, d.a);
  }

  lemma SeenIsMix(op: Operator, s: real, d: real, sa: real, da: real)
    requires !op.Blend?
    ensures op == Copy ==> Seen(RegionsOf(op), s, d, sa, da) == s
    ensures op != Copy ==>
      var (fa, fb) := Fractions(op, sa, da); Limited(Seen(RegionsOf(op), s, d, sa, da)) == Mix(s, d, fa, fb)
  {
    var both, also := s * da, d * sa;
    assert s * (1.0 - da) == s - both && d * (1.0 - sa) == d - also;
    assert s * 0.0 == 0.0 && d * 0.0 == 0.0 && s * 1.0 == s && d * 1.0 == d;
  }
}
