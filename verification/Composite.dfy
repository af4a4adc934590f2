/**
 Canvas compositing of src/canvas2d/composite.rs over exact reals: the Porter-Duff
 operators and the blend modes (sections 9.1, 10.1 and 10.2 of Compositing and
 Blending Level 1).
 */
module Composite {
  import opened Common

  /** A premultiplied pixel. */
  datatype Rgba = Rgba(r: real, g: real, b: real, a: real)

  /** An unpremultiplied colour. */
  datatype Rgb = Rgb(r: real, g: real, b: real)

  datatype BlendMode =
    | Multiply | Screen | Overlay | Darken | Lighten | ColorDodge | ColorBurn | HardLight | SoftLight
    | Difference | Exclusion | Hue | Saturation | Color | Luminosity

  datatype Operator =
    | Clear | SourceOver | SourceIn | SourceOut | SourceAtop
    | DestinationOver | DestinationIn | DestinationOut | DestinationAtop
    | Lighter | Copy | Xor | Blend(mode: BlendMode)

  const TRANSPARENT := Rgba(0.0, 0.0, 0.0, 0.0)

  predicate Valid(p: Rgba) {
    0.0 <= p.r <= p.a && 0.0 <= p.g <= p.a && 0.0 <= p.b <= p.a && p.a <= 1.0
  }

  predicate InUnit(c: Rgb) { 0.0 <= c.r <= 1.0 && 0.0 <= c.g <= 1.0 && 0.0 <= c.b <= 1.0 }

  // ----- Porter-Duff -----

  function Mix(s: real, d: real, fa: real, fb: real): real { Min(s * fa + d * fb, 1.0) }

  function PorterDuff(s: Rgba, d: Rgba, fa: real, fb: real): Rgba {
    Rgba(Mix(s.r, d.r, fa, fb), Mix(s.g, d.g, fa, fb), Mix(s.b, d.b, fa, fb), Mix(s.a, d.a, fa, fb))
  }

  predicate IsUnbounded(op: Operator) {
    op in {SourceIn, SourceOut, DestinationIn, DestinationAtop, Copy}
  }

  /** The fractions of the source and of the destination that an operator keeps. */
  function Fractions(op: Operator, sa: real, da: real): (real, real)
    requires !op.Blend? && op != Copy
  {
    match op
    case Clear => (0.0, 1.0 - sa)
    case SourceOver => (1.0, 1.0 - sa)
    case SourceIn => (da, 0.0)
    case SourceOut => (1.0 - da, 0.0)
    case SourceAtop => (da, 1.0 - sa)
    case DestinationOver => (1.0 - da, 1.0)
    case DestinationIn => (0.0, sa)
    case DestinationOut => (0.0, 1.0 - sa)
    case DestinationAtop => (1.0 - da, sa)
    case Lighter => (1.0, 1.0)
    case Xor => (1.0 - da, 1.0 - sa)
  }

  function Apply(op: Operator, s: Rgba, d: Rgba, sqrt: real -> real): Rgba {
    match op
    case Copy => s
    case Blend(mode) => BlendPixels(mode, s, d, sqrt)
    case _ => var (fa, fb) := Fractions(op, s.a, d.a); PorterDuff(s, d, fa, fb)
  }

  // ----- blending -----

  function Unpremultiply(p: Rgba): Rgb {
    if p.a > 0.0 then Rgb(Min(p.r / p.a, 1.0), Min(p.g / p.a, 1.0), Min(p.b / p.a, 1.0)) else Rgb(0.0, 0.0, 0.0)
  }

  function BlendChannel(s: real, d: real, sa: real, da: real, mixed: real): real {
    s * (1.0 - da) + d * (1.0 - sa) + sa * da * mixed
  }

  function BlendPixels(mode: BlendMode, s: Rgba, d: Rgba, sqrt: real -> real): Rgba {
    BlendWith(s, d, Blended(mode, Unpremultiply(s), Unpremultiply(d), sqrt))
  }

  function BlendWith(s: Rgba, d: Rgba, m: Rgb): Rgba {
    Rgba(BlendChannel(s.r, d.r, s.a, d.a, m.r), BlendChannel(s.g, d.g, s.a, d.a, m.g),
         BlendChannel(s.b, d.b, s.a, d.a, m.b), Union(s.a, d.a))
  }

  function Union(sa: real, da: real): real { sa + da * (1.0 - sa) }

  function ScreenChannel(s: real, d: real): real { s + d - s * d }

  function HardLightChannel(s: real, d: real): real {
    if s <= 0.5 then Times(d, 2.0 * s) else ScreenChannel(2.0 * s - 1.0, d)
  }

  function Times(x: real, y: real): real { x * y }

  function DodgeChannel(s: real, d: real): real {
    if d == 0.0 then 0.0 else if s >= 1.0 then 1.0 else Min(d / (1.0 - s), 1.0)
  }

  function BurnChannel(s: real, d: real): real {
    if d >= 1.0 then 1.0 else if s <= 0.0 then 0.0 else 1.0 - Min((1.0 - d) / s, 1.0)
  }

  function SoftLightChannel(s: real, d: real, sqrt: real -> real): real {
    if s <= 0.5 then d - Times(Times(1.0 - 2.0 * s, d), 1.0 - d)
    else
      var dd := if d <= 0.25 then Cubic(d) else sqrt(d);
      Brighten(s, d, dd)
  }

  function Brighten(s: real, d: real, dd: real): real { d + (2.0 * s - 1.0) * (dd - d) }

  function Cubic(d: real): real { ((16.0 * d - 12.0) * d + 4.0) * d }

  function ExclusionChannel(s: real, d: real): real { s + d - 2.0 * s * d }

  /** One channel of a separable mode. */
  function Separable(mode: BlendMode, s: real, d: real, sqrt: real -> real): real
    requires mode !in {Hue, Saturation, Color, Luminosity}
  {
    match mode
    case Multiply => s * d
    case Screen => ScreenChannel(s, d)
    case Overlay => HardLightChannel(d, s)
    case Darken => Min(s, d)
    case Lighten => Max(s, d)
    case ColorDodge => DodgeChannel(s, d)
    case ColorBurn => BurnChannel(s, d)
    case HardLight => HardLightChannel(s, d)
    case SoftLight => SoftLightChannel(s, d, sqrt)
    case Difference => if s < d then d - s else s - d
    case Exclusion => ExclusionChannel(s, d)
  }

  function Blended(mode: BlendMode, cs: Rgb, cd: Rgb, sqrt: real -> real): Rgb {
    match mode
    case Hue => SetLum(SetSat(cs, Sat(cd)), Lum(cd))
    case Saturation => SetLum(SetSat(cd, Sat(cs)), Lum(cd))
    case Color => SetLum(cs, Lum(cd))
    case Luminosity => SetLum(cd, Lum(cs))
    case _ => Rgb(Separable(mode, cs.r, cd.r, sqrt), Separable(mode, cs.g, cd.g, sqrt), Separable(mode, cs.b, cd.b, sqrt))
  }

  function Lum(c: Rgb): real { 0.3 * c.r + 0.59 * c.g + 0.11 * c.b }
  function Least(c: Rgb): real { Min(Min(c.r, c.g), c.b) }
  function Most(c: Rgb): real { Max(Max(c.r, c.g), c.b) }
  function Sat(c: Rgb): real { Most(c) - Least(c) }

  /** A division by zero has no real value; the source would produce a NaN there. */
  function Div(x: real, y: real): real { if y == 0.0 then 0.0 else x / y }

  function Pull(v: real, l: real, num: real, den: real): real { l + Div((v - l) * num, den) }

  /** Every channel pulled towards the luminosity `l` by `num / den`. */
  function PullAll(c: Rgb, l: real, num: real, den: real): Rgb {
    Rgb(Pull(c.r, l, num, den), Pull(c.g, l, num, den), Pull(c.b, l, num, den))
  }

  /** Both corrections use the least and the most of the colour as it came in. */
  function ClipColor(c: Rgb): Rgb { ClipWith(c, Lum(c), Least(c), Most(c)) }

  function ClipWith(c: Rgb, l: real, n: real, x: real): Rgb {
    var low := if n < 0.0 then PullAll(c, l, l, l - n) else c;
    if x > 1.0 then PullAll(low, l, 1.0 - l, x - l) else low
  }

  function SetLum(c: Rgb, l: real): Rgb {
    var d := l - Lum(c);
    ClipColor(Rgb(c.r + d, c.g + d, c.b + d))
  }

  function SetSat(c: Rgb, s: real): Rgb {
    var most, least := Most(c), Least(c);
    if most <= least then Rgb(0.0, 0.0, 0.0)
    else Rgb((c.r - least) * s / (most - least), (c.g - least) * s / (most - least), (c.b - least) * s / (most - least))
  }

  // ----- products of numbers between zero and one -----

  lemma NonNegative(x: real, y: real)
    requires 0.0 <= x && 0.0 <= y
    ensures 0.0 <= x * y
  {
  }

  lemma Shrinks(x: real, y: real)
    requires 0.0 <= x && y <= 1.0
    ensures x * y <= x
  {
    NonNegative(x, 1.0 - y);
    assert x * (1.0 - y) == x - x * y;
  }

  lemma Product(x: real, y: real)
    requires 0.0 <= x && 0.0 <= y <= 1.0
    ensures 0.0 <= x * y <= x
  {
    NonNegative(x, y);
    Shrinks(x, y);
  }

  lemma TimesSwaps(x: real, y: real)
    ensures Times(x, y) == Times(y, x)
  {
  }

  lemma TimesNegates(x: real, y: real)
    ensures Times(x, -y) == -Times(x, y)
  {
  }

  lemma Quotient(x: real, y: real)
    requires 0.0 <= x && 0.0 < y
    ensures (x / y) * y == x
    ensures 0.0 <= x / y
    ensures x <= y ==> x / y <= 1.0
  {
  }

  // ----- Porter-Duff operators keep pixels valid -----

  lemma ScaleOrder(c: real, a: real, f: real)
    requires 0.0 <= c <= a && 0.0 <= f
    ensures 0.0 <= c * f <= a * f
  {
    NonNegative(c, f);
    NonNegative(a - c, f);
    assert (a - c) * f == a * f - c * f;
  }

  lemma SumOrder(a: real, b: real, c: real, d: real)
    requires 0.0 <= a <= b && 0.0 <= c <= d
    ensures 0.0 <= a + c <= b + d
  {
  }

  lemma MinOrder(u: real, v: real)
    requires 0.0 <= u <= v
    ensures 0.0 <= Min(u, 1.0) <= Min(v, 1.0) <= 1.0
  {
  }

  lemma MixIsValid(s: real, d: real, sa: real, da: real, fa: real, fb: real)
    requires 0.0 <= s <= sa && 0.0 <= d <= da && 0.0 <= fa && 0.0 <= fb
    ensures 0.0 <= Mix(s, d, fa, fb) <= Mix(sa, da, fa, fb) <= 1.0
  {
    ScaleOrder(s, sa, fa);
    ScaleOrder(d, da, fb);
    SumOrder(s * fa, sa * fa, d * fb, da * fb);
    MinOrder(s * fa + d * fb, sa * fa + da * fb);
  }

  /** Every operator that is not a blend takes valid pixels to a valid pixel. */
  lemma PorterDuffIsValid(op: Operator, s: Rgba, d: Rgba, sqrt: real -> real)
    requires !op.Blend? && Valid(s) && Valid(d)
    ensures Valid(Apply(op, s, d, sqrt))
  {
    if op != Copy {
      var (fa, fb) := Fractions(op, s.a, d.a);
      MixIsValid(s.r, d.r, s.a, d.a, fa, fb);
      MixIsValid(s.g, d.g, s.a, d.a, fa, fb);
      MixIsValid(s.b, d.b, s.a, d.a, fa, fb);
    }
  }

  function Over(s: real, d: real, sa: real): real { s + d * (1.0 - sa) }

  lemma BelowOne(s: real, sa: real, t: real, ta: real)
    requires 0.0 <= s <= sa && 0.0 <= t <= ta <= 1.0 - sa
    ensures 0.0 <= s + t <= sa + ta <= 1.0 && Min(s + t, 1.0) == s + t
  {
  }

  /** Source-over never reaches its clamp, so a channel is plain `s + d(1 - sa)`. */
  lemma OverIsExact(s: real, d: real, sa: real, da: real)
    requires 0.0 <= s <= sa <= 1.0 && 0.0 <= d <= da <= 1.0
    ensures Mix(s, d, 1.0, 1.0 - sa) == Over(s, d, sa)
    ensures 0.0 <= Over(s, d, sa) <= Over(sa, da, sa) <= 1.0
  {
    ScaleOrder(d, da, 1.0 - sa);
    ScaleOrder(da, 1.0, 1.0 - sa);
    BelowOne(s, sa, d * (1.0 - sa), da * (1.0 - sa));
  }

  lemma OverChannelAssociates(x: real, y: real, z: real, xa: real, ya: real)
    ensures Over(x, Over(y, z, ya), xa) == Over(Over(x, y, xa), z, Over(xa, ya, xa))
  {
    var f, g := 1.0 - xa, 1.0 - ya;
    assert 1.0 - (xa + ya * f) == g * f;
    assert (y + z * g) * f == y * f + (z * g) * f;
    assert (z * g) * f == z * (g * f);
  }

  function OverPixel(s: Rgba, d: Rgba): Rgba {
    Rgba(Over(s.r, d.r, s.a), Over(s.g, d.g, s.a), Over(s.b, d.b, s.a), Over(s.a, d.a, s.a))
  }

  lemma SourceOverIsExact(s: Rgba, d: Rgba, sqrt: real -> real)
    requires Valid(s) && Valid(d)
    ensures Apply(SourceOver, s, d, sqrt) == OverPixel(s, d) && Valid(OverPixel(s, d))
  {
    OverIsExact(s.r, d.r, s.a, d.a);
    OverIsExact(s.g, d.g, s.a, d.a);
    OverIsExact(s.b, d.b, s.a, d.a);
    OverIsExact(s.a, d.a, s.a, d.a);
    assert Fractions(SourceOver, s.a, d.a) == (1.0, 1.0 - s.a);
  }

  lemma OverPixelAssociates(x: Rgba, y: Rgba, z: Rgba)
    ensures OverPixel(x, OverPixel(y, z)) == OverPixel(OverPixel(x, y), z)
  {
    OverChannelAssociates(x.r, y.r, z.r, x.a, y.a);
    OverChannelAssociates(x.g, y.g, z.g, x.a, y.a);
    OverChannelAssociates(x.b, y.b, z.b, x.a, y.a);
    OverChannelAssociates(x.a, y.a, z.a, x.a, y.a);
  }

  /** Painting three layers over each other does not depend on which two are joined first. */
  lemma SourceOverAssociates(x: Rgba, y: Rgba, z: Rgba, sqrt: real -> real)
    requires Valid(x) && Valid(y) && Valid(z)
    ensures Apply(SourceOver, x, Apply(SourceOver, y, z, sqrt), sqrt) ==
            Apply(SourceOver, Apply(SourceOver, x, y, sqrt), z, sqrt)
  {
    SourceOverIsExact(y, z, sqrt);
    SourceOverIsExact(x, y, sqrt);
    SourceOverIsExact(x, OverPixel(y, z), sqrt);
    SourceOverIsExact(OverPixel(x, y), z, sqrt);
    OverPixelAssociates(x, y, z);
  }

  /** The operator that does the same with source and destination exchanged. */
  function Twin(op: Operator): Operator {
    match op
    case SourceOver => DestinationOver
    case SourceIn => DestinationIn
    case SourceOut => DestinationOut
    case SourceAtop => DestinationAtop
    case DestinationOver => SourceOver
    case DestinationIn => SourceIn
    case DestinationOut => SourceOut
    case DestinationAtop => SourceAtop
    case other => other
  }

  /** Each destination operator is its source twin with the arguments exchanged; lighter and xor are their own twins. */
  lemma TwinsSwap(op: Operator, s: Rgba, d: Rgba, sqrt: real -> real)
    requires !op.Blend? && op != Copy && op != Clear
    ensures Apply(op, s, d, sqrt) == Apply(Twin(op), d, s, sqrt)
  {
    var (fa, fb) := Fractions(op, s.a, d.a);
    assert Fractions(Twin(op), d.a, s.a) == (fb, fa);
  }

  lemma KeepsDestination(op: Operator, d: Rgba, sqrt: real -> real)
    requires Valid(d) && !IsUnbounded(op)
    ensures Apply(op, TRANSPARENT, d, sqrt) == d
  {
  }

  /**
   `is_unbounded` is exact: it holds of an operator, blends included, if and only if
   compositing transparent black changes some valid destination.
   */
  lemma UnboundedIsExact(op: Operator, sqrt: real -> real)
    ensures IsUnbounded(op) <==> exists d :: Valid(d) && Apply(op, TRANSPARENT, d, sqrt) != d
  {
    var white := Rgba(1.0, 1.0, 1.0, 1.0);
    if IsUnbounded(op) {
      assert Valid(white);
      assert Apply(op, TRANSPARENT, white, sqrt).a == 0.0;
    } else {
      forall d | Valid(d) ensures Apply(op, TRANSPARENT, d, sqrt) == d {
        KeepsDestination(op, d, sqrt);
      }
    }
  }

  // ----- separable modes stay between zero and one -----

  ghost predicate IsSqrt(sqrt: real -> real) {
    forall d :: d >= 0.0 ==> sqrt(d) >= 0.0 && sqrt(d) * sqrt(d) == d
  }

  lemma SqrtOfUnit(d: real, sqrt: real -> real)
    requires IsSqrt(sqrt) && 0.0 <= d <= 1.0
    ensures d <= sqrt(d) <= 1.0
  {
    RootOfUnit(sqrt(d), d);
  }

  lemma RootOfUnit(q: real, d: real)
    requires 0.0 <= q && q * q == d <= 1.0
    ensures d <= q <= 1.0
  {
    if q > 1.0 {
      ScaleOrder(1.0, q, q);
      assert false;
    }
    Shrinks(q, q);
  }

  lemma Expand(s: real, d: real)
    ensures (1.0 - s) * (1.0 - d) == 1.0 - s - d + s * d
  {
    var e := 1.0 - d;
    assert (1.0 - s) * e == e - s * e;
    assert s * e == s - s * d;
  }

  /** Where the product of two channels lies, in the form the blends need. */
  lemma ProductBounds(s: real, d: real)
    requires 0.0 <= s <= 1.0 && 0.0 <= d <= 1.0
    ensures 0.0 <= s * d <= s && s * d <= d && 0.0 <= 1.0 - s - d + s * d
  {
    Product(s, d);
    Product(d, s);
    assert d * s == s * d;
    NonNegative(1.0 - s, 1.0 - d);
    Expand(s, d);
  }

  lemma ScreenIsUnit(s: real, d: real)
    requires 0.0 <= s <= 1.0 && 0.0 <= d <= 1.0
    ensures 0.0 <= ScreenChannel(s, d) <= 1.0
  {
    ProductBounds(s, d);
  }

  lemma TimesIsSmaller(x: real, y: real)
    requires 0.0 <= x && 0.0 <= y <= 1.0
    ensures 0.0 <= Times(x, y) <= x
  {
    Product(x, y);
  }

  lemma HardLightIsUnit(s: real, d: real)
    requires 0.0 <= s <= 1.0 && 0.0 <= d <= 1.0
    ensures 0.0 <= HardLightChannel(s, d) <= 1.0
  {
    if s <= 0.5 {
      TimesIsSmaller(d, 2.0 * s);
    } else {
      ScreenIsUnit(2.0 * s - 1.0, d);
    }
  }

  /** The cubic that replaces the square root for dark backdrops lies between the backdrop and one. */
  lemma SoftLightCubic(d: real)
    requires 0.0 <= d <= 0.25
    ensures d <= Cubic(d) <= 1.0
  {
    var q := (16.0 * d - 12.0) * d + 4.0;
    NonNegative(12.0 - 16.0 * d, d);
    assert (12.0 - 16.0 * d) * d == 4.0 - q;
    NonNegative(0.25 - d, 12.0 - 16.0 * d);
    assert (0.25 - d) * (12.0 - 16.0 * d) == 0.25 * (12.0 - 16.0 * d) - (12.0 - 16.0 * d) * d;
    NonNegative(q - 1.0, d);
    assert (q - 1.0) * d == q * d - d;
    NonNegative(4.0 - q, d);
    assert (4.0 - q) * d == 4.0 * d - q * d;
  }

  lemma SoftLightDark(s: real, d: real)
    requires 0.0 <= s <= 0.5 && 0.0 <= d <= 1.0
    ensures 0.0 <= d - Times(Times(1.0 - 2.0 * s, d), 1.0 - d) <= 1.0
  {
    var t := 1.0 - 2.0 * s;
    TimesIsSmaller(d, t);
    assert Times(t, d) == Times(d, t);
    TimesIsSmaller(Times(t, d), 1.0 - d);
  }

  lemma SoftLightBright(s: real, d: real, dd: real)
    requires 0.5 < s <= 1.0 && 0.0 <= d <= dd <= 1.0
    ensures 0.0 <= Brighten(s, d, dd) <= 1.0
  {
    var t, e := 2.0 * s - 1.0, dd - d;
    Product(e, t);
    var w := e * t;
    assert 0.0 <= w <= e;
    assert Brighten(s, d, dd) == d + w;
  }

  lemma SoftLightIsUnit(s: real, d: real, sqrt: real -> real)
    requires IsSqrt(sqrt) && 0.0 <= s <= 1.0 && 0.0 <= d <= 1.0
    ensures 0.0 <= SoftLightChannel(s, d, sqrt) <= 1.0
  {
    if s <= 0.5 {
      SoftLightDark(s, d);
    } else if d <= 0.25 {
      SoftLightCubic(d);
      var dd := Cubic(d);
      SoftLightBright(s, d, dd);
    } else {
      SqrtOfUnit(d, sqrt);
      var dd := sqrt(d);
      SoftLightBright(s, d, dd);
    }
  }

  lemma ExclusionIsUnit(s: real, d: real)
    requires 0.0 <= s <= 1.0 && 0.0 <= d <= 1.0
    ensures 0.0 <= ExclusionChannel(s, d) <= 1.0
  {
    ProductBounds(s, d);
    TwiceOut(s, d, s * d, 2.0 * s * d);
  }

  lemma TwiceOut(s: real, d: real, p: real, t: real)
    requires 0.0 <= p <= s && p <= d && 0.0 <= 1.0 - s - d + p && t == 2.0 * p
    ensures 0.0 <= s + d - t <= 1.0
  {
  }

  lemma DodgeIsUnit(s: real, d: real)
    requires 0.0 <= s <= 1.0 && 0.0 <= d <= 1.0
    ensures 0.0 <= DodgeChannel(s, d) <= 1.0
  {
    if s < 1.0 {
      var t := 1.0 - s;
      Quotient(d, t);
    }
  }

  lemma BurnIsUnit(s: real, d: real)
    requires 0.0 <= s <= 1.0 && 0.0 <= d <= 1.0
    ensures 0.0 <= BurnChannel(s, d) <= 1.0
  {
    if s > 0.0 {
      var t := 1.0 - d;
      Quotient(t, s);
    }
  }

  lemma SeparableIsUnit(mode: BlendMode, s: real, d: real, sqrt: real -> real)
    requires IsSqrt(sqrt) && 0.0 <= s <= 1.0 && 0.0 <= d <= 1.0 && mode !in {Hue, Saturation, Color, Luminosity}
    ensures 0.0 <= Separable(mode, s, d, sqrt) <= 1.0
  {
    match mode
    case Multiply => Product(s, d);
    case Screen => ScreenIsUnit(s, d);
    case Overlay => HardLightIsUnit(d, s);
    case HardLight => HardLightIsUnit(s, d);
    case SoftLight => SoftLightIsUnit(s, d, sqrt);
    case ColorDodge => DodgeIsUnit(s, d);
    case ColorBurn => BurnIsUnit(s, d);
    case Exclusion => ExclusionIsUnit(s, d);
    case _ =>
  }

  // ----- clipping to the gamut keeps the luminosity -----

  /** `(v - l) * num / den` as a scaling of `v - l` by one factor. */
  lemma PullScales(v: real, l: real, num: real, den: real, k: real)
    requires den > 0.0 && k * den == num
    ensures Pull(v, l, num, den) == Toward(v, l, k)
  {
    var w := (v - l) * num / den;
    assert w * den == (v - l) * num == (v - l) * (k * den) == (k * (v - l)) * den;
    assert (w - k * (v - l)) * den == 0.0;
  }

  lemma LumOfScaled(c: Rgb, l: real, k: real)
    requires Lum(c) == l
    ensures Lum(Scaled(c, l, k)) == l
  {
    var x, y, z := c.r - l, c.g - l, c.b - l;
    assert 0.3 * (k * x) + 0.59 * (k * y) + 0.11 * (k * z) == k * (0.3 * x + 0.59 * y + 0.11 * z);
    assert 0.3 * x + 0.59 * y + 0.11 * z == 0.0;
  }

  /** A factor between zero and one whose product with `den` is `num`. */
  lemma Factor(num: real, den: real) returns (k: real)
    requires 0.0 <= num < den
    ensures k * den == num && 0.0 <= k <= 1.0
  {
    Quotient(num, den);
    k := num / den;
  }

  function Toward(v: real, l: real, k: real): real { l + k * (v - l) }

  function Scaled(c: Rgb, l: real, k: real): Rgb { Rgb(Toward(c.r, l, k), Toward(c.g, l, k), Toward(c.b, l, k)) }

  lemma PullAllScales(c: Rgb, l: real, num: real, den: real, k: real)
    requires den > 0.0 && k * den == num
    ensures PullAll(c, l, num, den) == Scaled(c, l, k)
  {
    PullScales(c.r, l, num, den, k);
    PullScales(c.g, l, num, den, k);
    PullScales(c.b, l, num, den, k);
  }

  /** The low correction, as a scaling by `j`. */
  lemma LowIsScaling(c: Rgb, l: real, n: real) returns (j: real)
    requires 0.0 <= l <= 1.0
    ensures (if n < 0.0 then PullAll(c, l, l, l - n) else c) == Scaled(c, l, j)
    ensures 0.0 <= j <= 1.0 && j * (l - n) <= l
    ensures if n < 0.0 then j * (l - n) == l else j == 1.0
  {
    if n < 0.0 {
      j := Factor(l, l - n);
      PullAllScales(c, l, l, l - n, j);
    } else {
      j := 1.0;
    }
  }

  /** The high correction of any colour, as a scaling by `k`. */
  lemma HighIsScaling(low: Rgb, l: real, x: real) returns (k: real)
    requires 0.0 <= l <= 1.0
    ensures (if x > 1.0 then PullAll(low, l, 1.0 - l, x - l) else low) == Scaled(low, l, k)
    ensures 0.0 <= k <= 1.0 && k * (x - l) <= 1.0 - l
    ensures if x > 1.0 then k * (x - l) == 1.0 - l else k == 1.0
  {
    if x > 1.0 {
      k := Factor(1.0 - l, x - l);
      PullAllScales(low, l, 1.0 - l, x - l, k);
    } else {
      k := 1.0;
    }
  }

  /**
   With `j` for the low and `k` for the high correction, clipping scales twice about
   the luminosity, and each correction brings its own end to the border.
   */
  lemma ClipIsScaling(c: Rgb, l: real, n: real, x: real) returns (j: real, k: real)
    requires 0.0 <= l <= 1.0
    ensures ClipWith(c, l, n, x) == Scaled(Scaled(c, l, j), l, k)
    ensures 0.0 <= j <= 1.0 && j * (l - n) <= l
    ensures 0.0 <= k <= 1.0 && k * (x - l) <= 1.0 - l
    ensures if n < 0.0 then j * (l - n) == l else j == 1.0
    ensures if x > 1.0 then k * (x - l) == 1.0 - l else k == 1.0
  {
    j := LowIsScaling(c, l, n);
    k := HighIsScaling(Scaled(c, l, j), l, x);
  }

  /** The low correction takes a channel above zero and not beyond the original maximum. */
  lemma LowChannel(v: real, l: real, n: real, x: real, j: real)
    requires 0.0 <= l && n <= v <= x && n <= l <= x && 0.0 <= j <= 1.0 && j * (l - n) <= l
    ensures 0.0 <= Toward(v, l, j) <= x
  {
    if v >= l {
      TimesIsSmaller(v - l, j);
      assert Toward(v, l, j) == l + Times(v - l, j);
    } else {
      UpTo(l - v, l - n, l, j);
      assert Toward(v, l, j) == l - Times(j, l - v);
    }
  }

  /** The high correction, which still uses the original maximum, then stays in the gamut. */
  lemma HighChannel(v: real, l: real, x: real, k: real)
    requires 0.0 <= v <= x && 0.0 <= l <= 1.0 && 0.0 <= k <= 1.0 && k * (x - l) <= 1.0 - l
    ensures 0.0 <= Toward(v, l, k) <= 1.0
  {
    if v >= l {
      UpTo(v - l, x - l, 1.0 - l, k);
      assert Toward(v, l, k) == l + Times(k, v - l);
    } else {
      TimesIsSmaller(l - v, k);
      assert Toward(v, l, k) == l - Times(l - v, k);
    }
  }

  lemma UpTo(e: real, f: real, bound: real, k: real)
    requires 0.0 <= e <= f && 0.0 <= k && k * f <= bound
    ensures 0.0 <= Times(k, e) <= bound
  {
    ScaleOrder(e, f, k);
    assert e * k == k * e && f * k == k * f;
  }

  lemma LumBetween(c: Rgb)
    ensures Least(c) <= Lum(c) <= Most(c)
  {
    var n, x := Least(c), Most(c);
    assert Lum(c) - n == 0.3 * (c.r - n) + 0.59 * (c.g - n) + 0.11 * (c.b - n);
    assert x - Lum(c) == 0.3 * (x - c.r) + 0.59 * (x - c.g) + 0.11 * (x - c.b);
  }

  lemma ScaledIsSound(c: Rgb, l: real, n: real, x: real, j: real, k: real)
    requires 0.0 <= l <= 1.0 && n <= l <= x && 0.0 <= j <= 1.0 && 0.0 <= k <= 1.0
    requires n <= c.r <= x && n <= c.g <= x && n <= c.b <= x
    requires j * (l - n) <= l && k * (x - l) <= 1.0 - l
    ensures InUnit(Scaled(Scaled(c, l, j), l, k))
  {
    LowChannel(c.r, l, n, x, j);
    LowChannel(c.g, l, n, x, j);
    LowChannel(c.b, l, n, x, j);
    HighChannel(Toward(c.r, l, j), l, x, k);
    HighChannel(Toward(c.g, l, j), l, x, k);
    HighChannel(Toward(c.b, l, j), l, x, k);
  }

  /** Clipping keeps the luminosity exactly and lands in the gamut, even when both corrections fire. */
  lemma ClipColorIsSound(c: Rgb)
    requires 0.0 <= Lum(c) <= 1.0
    ensures InUnit(ClipColor(c)) && Lum(ClipColor(c)) == Lum(c)
  {
    var l, n, x := Lum(c), Least(c), Most(c);
    LumBetween(c);
    var j, k := ClipIsScaling(c, l, n, x);
    LumOfScaled(c, l, j);
    LumOfScaled(Scaled(c, l, j), l, k);
    ScaledIsSound(c, l, n, x, j, k);
  }

  lemma LumOfUnit(c: Rgb)
    requires InUnit(c)
    ensures 0.0 <= Lum(c) <= 1.0
  {
  }

  /** It does both exactly when the luminosity it starts from is between zero and one. */
  lemma ClipColorIsExact(c: Rgb)
    ensures InUnit(ClipColor(c)) && Lum(ClipColor(c)) == Lum(c) <==> 0.0 <= Lum(c) <= 1.0
  {
    if 0.0 <= Lum(c) <= 1.0 {
      ClipColorIsSound(c);
    } else if InUnit(ClipColor(c)) {
      LumOfUnit(ClipColor(c));
    }
  }

  lemma SetLumIsSound(c: Rgb, l: real)
    requires 0.0 <= l <= 1.0
    ensures InUnit(SetLum(c, l)) && Lum(SetLum(c, l)) == l
  {
    var d := l - Lum(c);
    var moved := Rgb(c.r + d, c.g + d, c.b + d);
    assert Lum(moved) == Lum(c) + d;
    ClipColorIsSound(moved);
  }

  /** Hue, saturation and color keep the backdrop's luminosity; luminosity takes the source's. */
  lemma BlendLuminosity(mode: BlendMode, cs: Rgb, cd: Rgb, sqrt: real -> real)
    requires InUnit(cs) && InUnit(cd) && mode in {Hue, Saturation, Color, Luminosity}
    ensures Lum(Blended(mode, cs, cd, sqrt)) == (if mode == Luminosity then Lum(cs) else Lum(cd))
    ensures InUnit(Blended(mode, cs, cd, sqrt))
  {
    LumOfUnit(cs);
    LumOfUnit(cd);
    match mode
    case Hue => SetLumIsSound(SetSat(cs, Sat(cd)), Lum(cd));
    case Saturation => SetLumIsSound(SetSat(cd, Sat(cs)), Lum(cd));
    case Color => SetLumIsSound(cs, Lum(cd));
    case Luminosity => SetLumIsSound(cd, Lum(cs));
  }

  // ----- every blend mode keeps pixels valid -----

  lemma UnpremultiplyIsUnit(p: Rgba)
    requires Valid(p)
    ensures InUnit(Unpremultiply(p))
  {
    if p.a > 0.0 {
      Quotient(p.r, p.a);
      Quotient(p.g, p.a);
      Quotient(p.b, p.a);
    }
  }

  lemma BlendChannelIsValid(s: real, d: real, sa: real, da: real, m: real)
    requires 0.0 <= s <= sa <= 1.0 && 0.0 <= d <= da <= 1.0 && 0.0 <= m <= 1.0
    ensures 0.0 <= BlendChannel(s, d, sa, da, m) <= Union(sa, da) <= 1.0
  {
    PartBound(s, sa, da);
    PartBound(d, da, sa);
    ProductBounds(sa, da);
    MixedBound(sa, da, m);
    assert da * sa == sa * da;
    ThreeParts(s * (1.0 - da), sa, d * (1.0 - sa), da, sa * da * m, sa * da);
    UnionAs(sa, da);
  }

  lemma PartBound(s: real, sa: real, da: real)
    requires 0.0 <= s <= sa && da <= 1.0
    ensures 0.0 <= s * (1.0 - da) <= sa - sa * da
  {
    var f := 1.0 - da;
    ScaleOrder(s, sa, f);
    assert sa * f == sa - sa * da;
  }

  lemma MixedBound(sa: real, da: real, m: real)
    requires 0.0 <= sa * da && 0.0 <= m <= 1.0
    ensures 0.0 <= sa * da * m <= sa * da
  {
    var p := sa * da;
    Product(p, m);
    assert 0.0 <= p * m <= p;
  }

  lemma UnionAs(sa: real, da: real)
    ensures Union(sa, da) == sa + (da - sa * da)
  {
  }

  lemma ThreeParts(u: real, sa: real, v: real, da: real, w: real, p: real)
    requires 0.0 <= u <= sa - p && 0.0 <= v <= da - p && 0.0 <= w <= p && 0.0 <= 1.0 - sa - da + p
    ensures 0.0 <= u + v + w <= sa + (da - p) <= 1.0
  {
  }

  lemma BlendedIsUnit(mode: BlendMode, cs: Rgb, cd: Rgb, sqrt: real -> real)
    requires IsSqrt(sqrt) && InUnit(cs) && InUnit(cd)
    ensures InUnit(Blended(mode, cs, cd, sqrt))
  {
    if mode in {Hue, Saturation, Color, Luminosity} {
      BlendLuminosity(mode, cs, cd, sqrt);
    } else {
      SeparableIsUnit(mode, cs.r, cd.r, sqrt);
      SeparableIsUnit(mode, cs.g, cd.g, sqrt);
      SeparableIsUnit(mode, cs.b, cd.b, sqrt);
    }
  }

  /** All blend modes take valid pixels to a valid pixel. */
  lemma BlendIsValid(mode: BlendMode, s: Rgba, d: Rgba, sqrt: real -> real)
    requires IsSqrt(sqrt) && Valid(s) && Valid(d)
    ensures Valid(Apply(Blend(mode), s, d, sqrt))
  {
    UnpremultiplyIsUnit(s);
    UnpremultiplyIsUnit(d);
    var m := Blended(mode, Unpremultiply(s), Unpremultiply(d), sqrt);
    BlendedIsUnit(mode, Unpremultiply(s), Unpremultiply(d), sqrt);
    BlendWithIsValid(s, d, m);
  }

  lemma BlendWithIsValid(s: Rgba, d: Rgba, m: Rgb)
    requires Valid(s) && Valid(d) && InUnit(m)
    ensures Valid(BlendWith(s, d, m))
  {
    BlendChannelIsValid(s.r, d.r, s.a, d.a, m.r);
    BlendChannelIsValid(s.g, d.g, s.a, d.a, m.g);
    BlendChannelIsValid(s.b, d.b, s.a, d.a, m.b);
  }

  /** Between opaque pixels a blend shows the blended colour and nothing else. */
  lemma OpaqueBlend(s: Rgba, d: Rgba, m: Rgb)
    requires Valid(s) && Valid(d) && s.a == d.a == 1.0
    ensures BlendWith(s, d, m) == Rgba(m.r, m.g, m.b, 1.0)
    ensures Unpremultiply(s) == Rgb(s.r, s.g, s.b) && Unpremultiply(d) == Rgb(d.r, d.g, d.b)
  {
  }

  /** On opaque pixels the luminosity law is visible in the composited pixel itself. */
  lemma OpaqueLuminosity(mode: BlendMode, s: Rgba, d: Rgba, sqrt: real -> real)
    requires Valid(s) && Valid(d) && s.a == d.a == 1.0 && mode in {Hue, Saturation, Color, Luminosity}
    ensures var out := Apply(Blend(mode), s, d, sqrt);
      out.a == 1.0 && Lum(Rgb(out.r, out.g, out.b)) ==
      (if mode == Luminosity then Lum(Rgb(s.r, s.g, s.b)) else Lum(Rgb(d.r, d.g, d.b)))
  {
    var cs, cd := Rgb(s.r, s.g, s.b), Rgb(d.r, d.g, d.b);
    var m := Blended(mode, cs, cd, sqrt);
    OpaqueBlend(s, d, m);
    assert Apply(Blend(mode), s, d, sqrt) == BlendWith(s, d, m);
    BlendLuminosity(mode, cs, cd, sqrt);
    assert Rgb(m.r, m.g, m.b) == m;
  }
}
