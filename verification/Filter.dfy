/**
 The colour filters of src/canvas2d/filter.rs over exact reals: every filter is an
 affine map of the unpremultiplied colour, clamped and premultiplied again.
 */
module Filter {
  import opened Common
  import opened Composite

  /** `HueRotate` carries the sine and cosine of its angle; blur and drop shadow are not colour filters. */
  datatype FilterFunction =
    | Brightness(amount: real)
    | Contrast(amount: real)
    | Invert(amount: real)
    | Grayscale(amount: real)
    | Sepia(amount: real)
    | Saturate(amount: real)
    | HueRotate(sin: real, cos: real)
    | Opacity(amount: real)

  function Clamp(x: real): (y: real)
    ensures 0.0 <= y <= 1.0 && (0.0 <= x <= 1.0 ==> y == x)
  {
    if x < 0.0 then 0.0 else if x > 1.0 then 1.0 else x
  }

  // ----- matrices -----

  datatype Row = Row(r: real, g: real, b: real, offset: real)
  datatype Matrix = Matrix(r: Row, g: Row, b: Row)

  function Diagonal(scale: real, offset: real): Matrix {
    Matrix(Row(scale, 0.0, 0.0, offset), Row(0.0, scale, 0.0, offset), Row(0.0, 0.0, scale, offset))
  }

  /** The grayscale matrix for `s`, the share of colour that is kept. */
  function GrayscaleMatrix(s: real): Matrix {
    Matrix(Row(0.2126 + 0.7874 * s, 0.7152 - 0.7152 * s, 0.0722 - 0.0722 * s, 0.0),
           Row(0.2126 - 0.2126 * s, 0.7152 + 0.2848 * s, 0.0722 - 0.0722 * s, 0.0),
           Row(0.2126 - 0.2126 * s, 0.7152 - 0.7152 * s, 0.0722 + 0.9278 * s, 0.0))
  }

  function SepiaMatrix(s: real): Matrix {
    Matrix(Row(0.393 + 0.607 * s, 0.769 - 0.769 * s, 0.189 - 0.189 * s, 0.0),
           Row(0.349 - 0.349 * s, 0.686 + 0.314 * s, 0.168 - 0.168 * s, 0.0),
           Row(0.272 - 0.272 * s, 0.534 - 0.534 * s, 0.131 + 0.869 * s, 0.0))
  }

  function SaturateMatrix(s: real): Matrix {
    Matrix(Row(0.213 + 0.787 * s, 0.715 - 0.715 * s, 0.072 - 0.072 * s, 0.0),
           Row(0.213 - 0.213 * s, 0.715 + 0.285 * s, 0.072 - 0.072 * s, 0.0),
           Row(0.213 - 0.213 * s, 0.715 - 0.715 * s, 0.072 + 0.928 * s, 0.0))
  }

  function HueRotateMatrix(sin: real, cos: real): Matrix {
    Matrix(
      Row(0.213 + cos * 0.787 - sin * 0.213, 0.715 - cos * 0.715 - sin * 0.715, 0.072 - cos * 0.072 + sin * 0.928, 0.0),
      Row(0.213 - cos * 0.213 + sin * 0.143, 0.715 + cos * 0.285 + sin * 0.140, 0.072 - cos * 0.072 - sin * 0.283, 0.0),
      Row(0.213 - cos * 0.213 - sin * 0.787, 0.715 - cos * 0.715 + sin * 0.715, 0.072 + cos * 0.928 + sin * 0.072, 0.0))
  }

  function ColorMatrix(f: FilterFunction): Matrix {
    match f
    case Brightness(amount) => Diagonal(amount, 0.0)
    case Contrast(amount) => Diagonal(amount, 0.5 - 0.5 * amount)
    case Invert(amount) => Diagonal(1.0 - 2.0 * Clamp(amount), Clamp(amount))
    case Grayscale(amount) => GrayscaleMatrix(1.0 - Clamp(amount))
    case Sepia(amount) => SepiaMatrix(1.0 - Clamp(amount))
    case Saturate(amount) => SaturateMatrix(amount)
    case HueRotate(sin, cos) => HueRotateMatrix(sin, cos)
    case Opacity(_) => Diagonal(1.0, 0.0)
  }

  function RowOf(m: Row, c: Rgb): real { m.r * c.r + m.g * c.g + m.b * c.b + m.offset }

  function Transform(m: Matrix, c: Rgb): Rgb { Rgb(RowOf(m.r, c), RowOf(m.g, c), RowOf(m.b, c)) }

  // ----- pixels and layers -----

  function Colour(p: Rgba): Rgb
    requires p.a > 0.0
  {
    Rgb(p.r / p.a, p.g / p.a, p.b / p.a)
  }

  function Premultiply(c: Rgb, a: real): Rgba { Rgba(Times(c.r, a), Times(c.g, a), Times(c.b, a), a) }

  function ClampColour(c: Rgb): Rgb { Rgb(Clamp(c.r), Clamp(c.g), Clamp(c.b)) }

  /** `map` for one pixel. */
  function FilterPixel(f: FilterFunction, p: Rgba): Rgba {
    if p.a <= 0.0 then p
    else if f.Opacity? then Premultiply(ClampColour(Colour(p)), Clamp(Times(p.a, Clamp(f.amount))))
    else Premultiply(ClampColour(Transform(ColorMatrix(f), Colour(p))), Clamp(p.a))
  }

  function FilterAll(f: FilterFunction, layer: seq<Rgba>): seq<Rgba> {
    seq(|layer|, i requires 0 <= i < |layer| => FilterPixel(f, layer[i]))
  }

  function FilterList(fs: seq<FilterFunction>, layer: seq<Rgba>): seq<Rgba> {
    if fs == [] then layer else FilterList(fs[1..], FilterAll(fs[0], layer))
  }

  /** `map`: every pixel of the layer rewritten in place. */
  method MapLayer(f: FilterFunction, layer: array<Rgba>)
    modifies layer
    ensures layer[..] == FilterAll(f, old(layer[..]))
  {
    for i := 0 to layer.Length
      invariant forall k :: 0 <= k < i ==> layer[k] == FilterPixel(f, old(layer[k]))
      invariant forall k :: i <= k < layer.Length ==> layer[k] == old(layer[k])
    {
      if layer[i].a <= 0.0 {
        continue;
      }
      layer[i] := FilterPixel(f, layer[i]);
    }
  }

  /** `apply`: the filters in order. */
  method ApplyFilters(fs: seq<FilterFunction>, layer: array<Rgba>)
    modifies layer
    ensures layer[..] == FilterList(fs, old(layer[..]))
  {
    for i := 0 to |fs|
      invariant FilterList(fs[i..], layer[..]) == FilterList(fs, old(layer[..]))
    {
      assert fs[i..][0] == fs[i] && fs[i..][1..] == fs[i + 1..];
      MapLayer(fs[i], layer);
    }
  }

  ghost predicate ValidLayer(layer: seq<Rgba>) {
    forall i :: 0 <= i < |layer| ==> Valid(layer[i])
  }

  // ----- premultiplication -----

  lemma PremultiplyIsValid(c: Rgb, a: real)
    requires InUnit(c) && 0.0 <= a <= 1.0
    ensures Valid(Premultiply(c, a))
  {
    ChannelBound(c.r, a);
    ChannelBound(c.g, a);
    ChannelBound(c.b, a);
  }

  lemma ChannelBound(x: real, a: real)
    requires 0.0 <= x <= 1.0 && 0.0 <= a
    ensures 0.0 <= Times(x, a) <= a
  {
    ScaleOrder(x, 1.0, a);
  }

  lemma DivideBack(x: real, a: real)
    requires a > 0.0
    ensures Times(x, a) / a == x && Times(x / a, a) == x
  {
  }

  lemma PremultiplyRoundTrip(c: Rgb, a: real)
    requires a > 0.0
    ensures Colour(Premultiply(c, a)) == c
  {
    DivideBack(c.r, a);
    DivideBack(c.g, a);
    DivideBack(c.b, a);
  }

  lemma ColourRoundTrip(p: Rgba)
    requires Valid(p) && p.a > 0.0
    ensures Premultiply(Colour(p), p.a) == p && InUnit(Colour(p))
  {
    DivideBack(p.r, p.a);
    DivideBack(p.g, p.a);
    DivideBack(p.b, p.a);
    Quotient(p.r, p.a);
    Quotient(p.g, p.a);
    Quotient(p.b, p.a);
  }

  /** Every colour filter takes a valid layer to a valid layer. */
  lemma FilterIsValid(f: FilterFunction, p: Rgba)
    requires Valid(p)
    ensures Valid(FilterPixel(f, p))
  {
    if p.a > 0.0 {
      if f.Opacity? {
        PremultiplyIsValid(ClampColour(Colour(p)), Clamp(Times(p.a, Clamp(f.amount))));
      } else {
        PremultiplyIsValid(ClampColour(Transform(ColorMatrix(f), Colour(p))), Clamp(p.a));
      }
    }
  }

  lemma {:induction false} FilterListIsValid(fs: seq<FilterFunction>, layer: seq<Rgba>)
    requires ValidLayer(layer)
    ensures ValidLayer(FilterList(fs, layer)) && |FilterList(fs, layer)| == |layer|
    decreases |fs|
  {
    if fs != [] {
      forall i | 0 <= i < |layer| ensures Valid(FilterAll(fs[0], layer)[i]) {
        FilterIsValid(fs[0], layer[i]);
      }
      FilterListIsValid(fs[1..], FilterAll(fs[0], layer));
    }
  }

  // ----- grayscale -----

  function Luma(c: Rgb): real { 0.2126 * c.r + 0.7152 * c.g + 0.0722 * c.b }

  /** The colour moved towards its own luma, keeping the share `s`. */
  function Desaturate(s: real, c: Rgb): Rgb {
    Rgb(Blendward(s, c.r, Luma(c)), Blendward(s, c.g, Luma(c)), Blendward(s, c.b, Luma(c)))
  }

  function Blendward(s: real, v: real, y: real): real { Times(s, v) + Times(1.0 - s, y) }

  lemma GrayscaleDesaturates(s: real, c: Rgb)
    ensures Transform(GrayscaleMatrix(s), c) == Desaturate(s, c)
  {
    var x, y, z := s * c.r, s * c.g, s * c.b;
    assert (0.2126 + 0.7874 * s) * c.r == 0.2126 * c.r + 0.7874 * x;
    assert (0.2126 - 0.2126 * s) * c.r == 0.2126 * c.r - 0.2126 * x;
    assert (0.7152 - 0.7152 * s) * c.g == 0.7152 * c.g - 0.7152 * y;
    assert (0.7152 + 0.2848 * s) * c.g == 0.7152 * c.g + 0.2848 * y;
    assert (0.0722 - 0.0722 * s) * c.b == 0.0722 * c.b - 0.0722 * z;
    assert (0.0722 + 0.9278 * s) * c.b == 0.0722 * c.b + 0.9278 * z;
    assert (1.0 - s) * Luma(c) == Luma(c) - (0.2126 * x + 0.7152 * y + 0.0722 * z);
  }

  lemma LumaIsKept(s: real, c: Rgb)
    ensures Luma(Desaturate(s, c)) == Luma(c)
  {
    var y := Luma(c);
    var e := (1.0 - s) * y;
    assert s * y == 0.2126 * (s * c.r) + 0.7152 * (s * c.g) + 0.0722 * (s * c.b);
    assert Luma(Desaturate(s, c)) == s * y + e;
  }

  lemma BlendwardTwice(s: real, t: real, v: real, y: real)
    ensures Blendward(t, Blendward(s, v, y), y) == Blendward(Times(s, t), v, y)
  {
    var u := s * v;
    assert t * (u + (1.0 - s) * y) == t * u + t * ((1.0 - s) * y);
    assert t * u == (s * t) * v;
    assert t * ((1.0 - s) * y) == t * y - (s * t) * y;
  }

  lemma DesaturateTwice(s: real, t: real, c: Rgb)
    ensures Desaturate(t, Desaturate(s, c)) == Desaturate(Times(s, t), c)
  {
    LumaIsKept(s, c);
    BlendwardTwice(s, t, c.r, Luma(c));
    BlendwardTwice(s, t, c.g, Luma(c));
    BlendwardTwice(s, t, c.b, Luma(c));
  }

  lemma BlendwardIsUnit(s: real, v: real, y: real)
    requires 0.0 <= s <= 1.0 && 0.0 <= v <= 1.0 && 0.0 <= y <= 1.0
    ensures 0.0 <= Blendward(s, v, y) <= 1.0
  {
    TimesIsSmaller(s, v);
    TimesIsSmaller(1.0 - s, y);
  }

  lemma DesaturateIsUnit(s: real, c: Rgb)
    requires 0.0 <= s <= 1.0 && InUnit(c)
    ensures InUnit(Desaturate(s, c))
  {
    BlendwardIsUnit(s, c.r, Luma(c));
    BlendwardIsUnit(s, c.g, Luma(c));
    BlendwardIsUnit(s, c.b, Luma(c));
  }

  /** On valid pixels the clamps of a grayscale filter do nothing. */
  lemma GrayscaleIsExact(amount: real, c: Rgb, a: real)
    requires InUnit(c) && 0.0 < a <= 1.0
    ensures FilterPixel(Grayscale(amount), Premultiply(c, a)) == Premultiply(Desaturate(1.0 - Clamp(amount), c), a)
    ensures InUnit(Desaturate(1.0 - Clamp(amount), c))
  {
    var s := 1.0 - Clamp(amount);
    PremultiplyRoundTrip(c, a);
    GrayscaleDesaturates(s, c);
    DesaturateIsUnit(s, c);
  }

  /** The amount of one grayscale filter that does the work of two. */
  function Fused(a: real, b: real): real { 1.0 - Times(1.0 - Clamp(a), 1.0 - Clamp(b)) }

  lemma FusedIsUnit(a: real, b: real)
    ensures 0.0 <= Fused(a, b) <= 1.0
    ensures 1.0 - Clamp(Fused(a, b)) == Times(1.0 - Clamp(a), 1.0 - Clamp(b))
  {
    TimesIsSmaller(1.0 - Clamp(a), 1.0 - Clamp(b));
  }

  lemma GrayscaleTwice(a: real, b: real, c: Rgb, alpha: real)
    requires InUnit(c) && 0.0 < alpha <= 1.0
    ensures FilterPixel(Grayscale(b), Premultiply(Desaturate(1.0 - Clamp(a), c), alpha)) ==
            FilterPixel(Grayscale(Fused(a, b)), Premultiply(c, alpha))
  {
    var s, t := 1.0 - Clamp(a), 1.0 - Clamp(b);
    DesaturateIsUnit(s, c);
    GrayscaleIsExact(b, Desaturate(s, c), alpha);
    GrayscaleIsExact(Fused(a, b), c, alpha);
    FusedIsUnit(a, b);
    DesaturateTwice(s, t, c);
  }

  lemma GrayscaleFusion(a: real, b: real, p: Rgba)
    requires Valid(p)
    ensures FilterPixel(Grayscale(b), FilterPixel(Grayscale(a), p)) == FilterPixel(Grayscale(Fused(a, b)), p)
  {
    if p.a > 0.0 {
      var c := Colour(p);
      ColourRoundTrip(p);
      GrayscaleIsExact(a, c, p.a);
      GrayscaleTwice(a, b, c, p.a);
    }
  }

  /** On valid layers two grayscale filters are one, with no clamping in between. */
  lemma GrayscaleLayerFusion(a: real, b: real, layer: seq<Rgba>)
    requires ValidLayer(layer)
    ensures FilterList([Grayscale(a), Grayscale(b)], layer) == FilterList([Grayscale(Fused(a, b))], layer)
  {
    var two, one := [Grayscale(a), Grayscale(b)], [Grayscale(Fused(a, b))];
    assert two[1..] == [Grayscale(b)] && two[1..][1..] == [] && one[1..] == [];
    forall i | 0 <= i < |layer|
      ensures FilterAll(Grayscale(b), FilterAll(Grayscale(a), layer))[i] == FilterAll(Grayscale(Fused(a, b)), layer)[i]
    {
      GrayscaleFusion(a, b, layer[i]);
    }
    assert FilterAll(Grayscale(b), FilterAll(Grayscale(a), layer)) == FilterAll(Grayscale(Fused(a, b)), layer);
  }

  // ----- saturation -----

  function Dot(m: Row, x: real, y: real, z: real): real { m.r * x + m.g * y + m.b * z }

  /** The linear part of `a` after `b`. */
  function TimesMatrix(a: Matrix, b: Matrix): Matrix {
    Matrix(Across(a.r, b), Across(a.g, b), Across(a.b, b))
  }

  function Across(m: Row, b: Matrix): Row {
    Row(Dot(m, b.r.r, b.g.r, b.b.r), Dot(m, b.r.g, b.g.g, b.b.g), Dot(m, b.r.b, b.g.b, b.b.b), 0.0)
  }

  /** Saturation filters multiply: s after t is s * t. */
  lemma SaturateMultiplies(s: real, t: real)
    ensures TimesMatrix(SaturateMatrix(s), SaturateMatrix(t)) == SaturateMatrix(s * t)
  {
    var p, a, b, c := s * t, SaturateMatrix(s), SaturateMatrix(t), SaturateMatrix(s * t);
    assert Across(a.r, b) == c.r;
    assert Across(a.g, b) == c.g;
    assert Across(a.b, b) == c.b;
  }

  /** The luma that the saturation matrix keeps. */
  function Grey(c: Rgb): real { 0.213 * c.r + 0.715 * c.g + 0.072 * c.b }

  /** The colour moved from its grey by the factor `s`. */
  function Saturated(s: real, c: Rgb): Rgb {
    Rgb(Blendward(s, c.r, Grey(c)), Blendward(s, c.g, Grey(c)), Blendward(s, c.b, Grey(c)))
  }

  lemma SaturateMoves(s: real, c: Rgb)
    ensures Transform(SaturateMatrix(s), c) == Saturated(s, c)
  {
    var x, y, z := s * c.r, s * c.g, s * c.b;
    assert (0.213 + 0.787 * s) * c.r == 0.213 * c.r + 0.787 * x;
    assert (0.213 - 0.213 * s) * c.r == 0.213 * c.r - 0.213 * x;
    assert (0.715 - 0.715 * s) * c.g == 0.715 * c.g - 0.715 * y;
    assert (0.715 + 0.285 * s) * c.g == 0.715 * c.g + 0.285 * y;
    assert (0.072 - 0.072 * s) * c.b == 0.072 * c.b - 0.072 * z;
    assert (0.072 + 0.928 * s) * c.b == 0.072 * c.b + 0.928 * z;
    assert (1.0 - s) * Grey(c) == Grey(c) - (0.213 * x + 0.715 * y + 0.072 * z);
  }

  lemma GreyIsKept(s: real, c: Rgb)
    ensures Grey(Saturated(s, c)) == Grey(c)
  {
    var y := Grey(c);
    var e := (1.0 - s) * y;
    assert s * y == 0.213 * (s * c.r) + 0.715 * (s * c.g) + 0.072 * (s * c.b);
    assert Grey(Saturated(s, c)) == s * y + e;
  }

  lemma SaturatedTwice(s: real, t: real, c: Rgb)
    ensures Saturated(t, Saturated(s, c)) == Saturated(Times(s, t), c)
  {
    GreyIsKept(s, c);
    BlendwardTwice(s, t, c.r, Grey(c));
    BlendwardTwice(s, t, c.g, Grey(c));
    BlendwardTwice(s, t, c.b, Grey(c));
  }

  /** A saturate amount between zero and one stays in the gamut. */
  lemma SaturatedIsUnit(s: real, c: Rgb)
    requires 0.0 <= s <= 1.0 && InUnit(c)
    ensures InUnit(Saturated(s, c))
  {
    BlendwardIsUnit(s, c.r, Grey(c));
    BlendwardIsUnit(s, c.g, Grey(c));
    BlendwardIsUnit(s, c.b, Grey(c));
  }

  /** On pixels: two saturate filters are one, as long as the first leaves nothing to clamp. */
  lemma SaturateFusion(s: real, t: real, p: Rgba)
    requires Valid(p) && (p.a > 0.0 ==> 0.0 <= s <= 1.0 || InUnit(Saturated(s, Colour(p))))
    ensures FilterPixel(Saturate(t), FilterPixel(Saturate(s), p)) == FilterPixel(Saturate(Times(s, t)), p)
  {
    if p.a > 0.0 {
      var c := Colour(p);
      var d := Saturated(s, c);
      ColourRoundTrip(p);
      if 0.0 <= s <= 1.0 {
        SaturatedIsUnit(s, c);
      }
      SaturateIsExact(s, c, p.a);
      SaturateIsExact(t, d, p.a);
      SaturateIsExact(Times(s, t), c, p.a);
      SaturatedTwice(s, t, c);
    }
  }

  lemma SaturateIsExact(s: real, c: Rgb, a: real)
    requires 0.0 < a <= 1.0
    ensures FilterPixel(Saturate(s), Premultiply(c, a)) == Premultiply(ClampColour(Saturated(s, c)), a)
    ensures InUnit(Saturated(s, c)) ==> ClampColour(Saturated(s, c)) == Saturated(s, c)
  {
    FilterIsExact(Saturate(s), c, a);
    SaturateMoves(s, c);
  }

  /** The factor `t` of a colour moves its channels by `t` times their distance from `y`. */
  lemma BlendwardAs(t: real, v: real, y: real)
    ensures Blendward(t, v, y) == y + Times(t, v - y)
  {
    assert t * (v - y) == t * v - t * y;
    assert (1.0 - t) * y == y - t * y;
  }

  function Distance(x: real): real { if x < 0.0 then -x else x }

  lemma StaysInside(t: real, v: real, y: real, room: real)
    requires 0.0 <= t && Times(t, Distance(v - y)) <= room && room <= y && room <= 1.0 - y
    ensures 0.0 <= Blendward(t, v, y) <= 1.0
  {
    BlendwardAs(t, v, y);
    var d := Distance(v - y);
    NonNegative(t, d);
    if v < y {
      TimesNegates(t, d);
      assert v - y == -d;
    } else {
      assert v - y == d;
    }
  }

  lemma SmallerFactor(t: real, d: real, all: real, room: real)
    requires 0.0 <= t && 0.0 <= d <= all && Times(t, all) <= room
    ensures Times(t, d) <= room
  {
    NonNegative(t, all - d);
    assert t * (all - d) == t * all - t * d;
  }

  /** With a factor this small the colour stays in the gamut, although `d` itself is outside. */
  lemma SmallFactor(d: Rgb, y: real) returns (t: real)
    requires Grey(d) == y && 0.0 < y < 1.0
    ensures t > 0.0 && InUnit(Saturated(t, d))
  {
    var room := Min(y, 1.0 - y);
    var r, g, b := Distance(d.r - y), Distance(d.g - y), Distance(d.b - y);
    var all := 1.0 + r + g + b;
    t := room / all;
    assert t > 0.0;
    assert Times(t, all) == room;
    SmallerFactor(t, r, all, room);
    SmallerFactor(t, g, all, room);
    SmallerFactor(t, b, all, room);
    StaysInside(t, d.r, y, room);
    StaysInside(t, d.g, y, room);
    StaysInside(t, d.b, y, room);
  }

  /** A colour of the gamut whose grey is black or white is black or white, and no factor moves it. */
  lemma ExtremeGreyIsFixed(s: real, c: Rgb)
    requires InUnit(c) && (Grey(c) <= 0.0 || Grey(c) >= 1.0)
    ensures Saturated(s, c) == c
  {
    ExtremeIsGrey(c);
    BlendwardSame(s, c.r);
  }

  lemma ExtremeIsGrey(c: Rgb)
    requires (InUnit(c) && (Grey(c) <= 0.0 || Grey(c) >= 1.0))
    ensures c.r == c.g == c.b == Grey(c)
  {
  }

  lemma BlendwardSame(s: real, v: real)
    ensures Blendward(s, v, v) == v
  {
    assert (1.0 - s) * v == v - s * v;
  }

  ghost predicate Fuses(s: real, t: real, p: Rgba) {
    FilterPixel(Saturate(t), FilterPixel(Saturate(s), p)) == FilterPixel(Saturate(Times(s, t)), p)
  }

  /** For a visible pixel of colour `c`, fusing is a matter of colours. */
  lemma FusesAsColours(s: real, t: real, c: Rgb, a: real)
    requires 0.0 < a <= 1.0 && InUnit(c)
    ensures var d := Saturated(s, c);
      Fuses(s, t, Premultiply(c, a)) <==> ClampColour(Saturated(t, ClampColour(d))) == ClampColour(Saturated(t, d))
  {
    var d := Saturated(s, c);
    SaturateIsExact(s, c, a);
    SaturateIsExact(t, ClampColour(d), a);
    SaturateIsExact(Times(s, t), c, a);
    SaturatedTwice(s, t, c);
    var left, right := ClampColour(Saturated(t, ClampColour(d))), ClampColour(Saturated(t, d));
    PremultiplyRoundTrip(left, a);
    PremultiplyRoundTrip(right, a);
  }

  /** If the first filter clamps, some second one shows it. */
  lemma ClampShows(s: real, c: Rgb) returns (t: real)
    requires InUnit(c) && !InUnit(Saturated(s, c))
    ensures var d := Saturated(s, c);
      ClampColour(Saturated(t, ClampColour(d))) != ClampColour(Saturated(t, d))
  {
    var d := Saturated(s, c);
    var e, y := ClampColour(d), Grey(c);
    GreyIsKept(s, c);
    if y <= 0.0 || y >= 1.0 {
      ExtremeGreyIsFixed(s, c);
      assert false;
    }
    if Grey(e) != y {
      t := 0.0;
      NoFactor(d);
      NoFactor(e);
    } else {
      t := SmallFactor(d, y);
      ClampedChannel(t, d.r, y);
      ClampedChannel(t, d.g, y);
      ClampedChannel(t, d.b, y);
    }
  }

  lemma NoFactor(c: Rgb)
    ensures Saturated(0.0, c) == Rgb(Grey(c), Grey(c), Grey(c))
  {
  }

  /** A clamped channel, moved by a positive factor that keeps the original in the gamut, stays there and is still another. */
  lemma ClampedChannel(t: real, v: real, y: real)
    requires t > 0.0 && 0.0 < y < 1.0 && 0.0 <= Blendward(t, v, y) <= 1.0
    ensures 0.0 <= Blendward(t, Clamp(v), y) <= 1.0
    ensures v != Clamp(v) ==> Blendward(t, Clamp(v), y) != Blendward(t, v, y)
  {
    var w := Clamp(v);
    BlendwardAs(t, v, y);
    BlendwardAs(t, w, y);
    if v < 0.0 {
      Moves(t, v, w);
      Moves(t, w, y);
      assert t * (w - y) - t * (v - y) == t * (w - v);
      assert t * (w - y) == -(t * (y - w));
    } else if v > 1.0 {
      Moves(t, w, v);
      Moves(t, y, w);
      assert t * (v - y) - t * (w - y) == t * (v - w);
    }
  }

  lemma Moves(t: real, low: real, high: real)
    requires t > 0.0 && low < high
    ensures t * (high - low) > 0.0
  {
  }

  /**
   Exactly when saturation filters fuse: whatever the second amount, if and only if the
   pixel is transparent or the first filter leaves nothing to clamp.
   */
  lemma SaturateFusesIff(s: real, p: Rgba)
    requires Valid(p)
    ensures (forall t :: Fuses(s, t, p)) <==> (p.a > 0.0 ==> InUnit(Saturated(s, Colour(p))))
  {
    if p.a > 0.0 && !InUnit(Saturated(s, Colour(p))) {
      var c := Colour(p);
      ColourRoundTrip(p);
      var t := ClampShows(s, c);
      FusesAsColours(s, t, c, p.a);
      assert !Fuses(s, t, p);
    } else {
      forall t ensures Fuses(s, t, p) { SaturateFusion(s, t, p); }
    }
  }

  /** Opaque red, saturated twofold and then by half, is not red again. */
  lemma SaturateMayClip()
    ensures var red := Rgba(1.0, 0.0, 0.0, 1.0); Valid(red) && !Fuses(2.0, 0.5, red)
  {
    var c := Rgb(1.0, 0.0, 0.0);
    var d := Saturated(2.0, c);
    RedAsPixel(c);
    RedTwofold(c);
    FusesAsColours(2.0, 0.5, c, 1.0);
    HalfOf(c, 0.6065);
    HalfOf(d, 1.0);
  }

  lemma RedAsPixel(c: Rgb)
    requires c == Rgb(1.0, 0.0, 0.0)
    ensures Premultiply(c, 1.0) == Rgba(1.0, 0.0, 0.0, 1.0)
  {
  }

  lemma RedTwofold(c: Rgb)
    requires c == Rgb(1.0, 0.0, 0.0)
    ensures Saturated(2.0, c) == Rgb(1.787, -0.213, -0.213) && ClampColour(Saturated(2.0, c)) == c
  {
  }

  lemma HalfOf(c: Rgb, red: real)
    requires 0.5 * c.r + 0.5 * Grey(c) == red
    ensures Saturated(0.5, c).r == red
  {
  }

  // ----- greys -----

  lemma RowFixesGrey(m: Row, v: real)
    requires m.r + m.g + m.b == 1.0 && m.offset == 0.0
    ensures RowOf(m, Rgb(v, v, v)) == v
  {
    assert m.r * v + m.g * v + m.b * v == (m.r + m.g + m.b) * v;
  }

  ghost predicate RowsSumToOne(m: Matrix) {
    && m.r.r + m.r.g + m.r.b == 1.0 && m.r.offset == 0.0
    && m.g.r + m.g.g + m.g.b == 1.0 && m.g.offset == 0.0
    && m.b.r + m.b.g + m.b.b == 1.0 && m.b.offset == 0.0
  }

  lemma MatrixRowsSum(f: FilterFunction)
    requires f.Grayscale? || f.Saturate? || f.HueRotate?
    ensures RowsSumToOne(ColorMatrix(f))
  {
  }

  lemma MatrixFixesGrey(m: Matrix, v: real)
    requires RowsSumToOne(m)
    ensures Transform(m, Rgb(v, v, v)) == Rgb(v, v, v)
  {
    RowFixesGrey(m.r, v);
    RowFixesGrey(m.g, v);
    RowFixesGrey(m.b, v);
  }

  /** Grayscale, saturate and hue-rotate leave every grey alone, at every amount and angle. */
  lemma GreysAreFixed(f: FilterFunction, p: Rgba)
    requires f.Grayscale? || f.Saturate? || f.HueRotate?
    requires Valid(p) && p.r == p.g == p.b
    ensures FilterPixel(f, p) == p
  {
    if p.a > 0.0 {
      var c := Colour(p);
      ColourRoundTrip(p);
      MatrixRowsSum(f);
      MatrixFixesGrey(ColorMatrix(f), c.r);
      FilterIsExact(f, c, p.a);
    }
  }

  // ----- opacity -----

  /** On valid pixels opacity scales the alpha and keeps the colour. */
  lemma OpacityIsExact(amount: real, c: Rgb, a: real)
    requires InUnit(c) && 0.0 < a <= 1.0
    ensures FilterPixel(Opacity(amount), Premultiply(c, a)) == Premultiply(c, Times(a, Clamp(amount)))
    ensures 0.0 <= Times(a, Clamp(amount)) <= 1.0
  {
    PremultiplyRoundTrip(c, a);
    TimesIsSmaller(a, Clamp(amount));
  }

  /** On valid pixels any other filter acts on the colour and keeps the alpha. */
  lemma FilterIsExact(f: FilterFunction, c: Rgb, a: real)
    requires !f.Opacity? && 0.0 < a <= 1.0
    ensures FilterPixel(f, Premultiply(c, a)) == Premultiply(ClampColour(Transform(ColorMatrix(f), c)), a)
  {
    PremultiplyRoundTrip(c, a);
  }

  /** Opacity and any other colour filter may be applied in either order. */
  lemma OpacityCommutes(f: FilterFunction, amount: real, p: Rgba)
    requires !f.Opacity? && Valid(p)
    ensures FilterPixel(f, FilterPixel(Opacity(amount), p)) == FilterPixel(Opacity(amount), FilterPixel(f, p))
  {
    if p.a > 0.0 {
      var c, b := Colour(p), Times(p.a, Clamp(amount));
      var d := ClampColour(Transform(ColorMatrix(f), c));
      ColourRoundTrip(p);
      FilterIsExact(f, c, p.a);
      OpacityIsExact(amount, c, p.a);
      OpacityIsExact(amount, d, p.a);
      if b > 0.0 {
        FilterIsExact(f, c, b);
      } else {
        NoAlphaNoColour(c);
        NoAlphaNoColour(d);
      }
    }
  }

  lemma NoAlphaNoColour(c: Rgb)
    ensures Premultiply(c, 0.0) == TRANSPARENT
  {
  }

  // ----- what the other filters do to a colour -----

  /** Every channel at the place `t` between two colours. */
  function Between(c: Rgb, d: Rgb, t: real): Rgb {
    Rgb(c.r + Times(t, d.r - c.r), c.g + Times(t, d.g - c.g), c.b + Times(t, d.b - c.b))
  }

  function Grey3(v: real): Rgb { Rgb(v, v, v) }

  function Opposite(c: Rgb): Rgb { Rgb(1.0 - c.r, 1.0 - c.g, 1.0 - c.b) }

  /** Brightness moves from black: at zero it is black, at one it changes nothing. */
  lemma BrightnessLaw(amount: real, c: Rgb, a: real)
    requires 0.0 < a <= 1.0
    ensures FilterPixel(Brightness(amount), Premultiply(c, a)) == Premultiply(ClampColour(Between(Grey3(0.0), c, amount)), a)
  {
    FilterIsExact(Brightness(amount), c, a);
    DiagonalOf(amount, 0.0, c);
  }

  /** Contrast moves from middle grey. */
  lemma ContrastLaw(amount: real, c: Rgb, a: real)
    requires 0.0 < a <= 1.0
    ensures FilterPixel(Contrast(amount), Premultiply(c, a)) == Premultiply(ClampColour(Between(Grey3(0.5), c, amount)), a)
  {
    FilterIsExact(Contrast(amount), c, a);
    DiagonalOf(amount, 0.5 - 0.5 * amount, c);
    FromGrey(amount, 0.5, c.r);
    FromGrey(amount, 0.5, c.g);
    FromGrey(amount, 0.5, c.b);
  }

  /** Invert moves from the colour to its opposite, by the amount within zero and one. */
  lemma InvertLaw(amount: real, c: Rgb, a: real)
    requires 0.0 < a <= 1.0
    ensures FilterPixel(Invert(amount), Premultiply(c, a)) == Premultiply(ClampColour(Between(c, Opposite(c), Clamp(amount))), a)
  {
    var t := Clamp(amount);
    FilterIsExact(Invert(amount), c, a);
    DiagonalOf(1.0 - 2.0 * t, t, c);
    ToOpposite(t, c.r);
    ToOpposite(t, c.g);
    ToOpposite(t, c.b);
  }

  lemma DiagonalOf(scale: real, offset: real, c: Rgb)
    ensures Transform(Diagonal(scale, offset), c) == Rgb(Times(scale, c.r) + offset, Times(scale, c.g) + offset, Times(scale, c.b) + offset)
  {
  }

  lemma FromGrey(t: real, v: real, c: real)
    ensures v + Times(t, c - v) == Times(t, c) + (v - v * t)
  {
    assert t * (c - v) == t * c - t * v;
  }

  lemma ToOpposite(t: real, c: real)
    ensures c + Times(t, (1.0 - c) - c) == Times(1.0 - 2.0 * t, c) + t
  {
    assert t * (1.0 - 2.0 * c) == t - 2.0 * (t * c);
    assert (1.0 - 2.0 * t) * c == c - 2.0 * (t * c);
  }

  /** Inverting twice is inverting not at all. */
  lemma InvertTwice(p: Rgba)
    requires Valid(p)
    ensures FilterPixel(Invert(1.0), FilterPixel(Invert(1.0), p)) == p
  {
    if p.a > 0.0 {
      var c := Colour(p);
      ColourRoundTrip(p);
      FullyInverted(c);
      FullyInverted(Opposite(c));
      InvertLaw(1.0, c, p.a);
      InvertLaw(1.0, Opposite(c), p.a);
    }
  }

  lemma FullyInverted(c: Rgb)
    requires InUnit(c)
    ensures Between(c, Opposite(c), Clamp(1.0)) == Opposite(c) && ClampColour(Opposite(c)) == Opposite(c) && Opposite(Opposite(c)) == c
  {
  }

  /** The sepia tone of a colour. */
  function Tone(c: Rgb): Rgb {
    Rgb(0.393 * c.r + 0.769 * c.g + 0.189 * c.b, 0.349 * c.r + 0.686 * c.g + 0.168 * c.b, 0.272 * c.r + 0.534 * c.g + 0.131 * c.b)
  }

  /** Sepia moves from the colour to its tone, by the amount within zero and one. */
  lemma SepiaLaw(amount: real, c: Rgb, a: real)
    requires 0.0 < a <= 1.0
    ensures FilterPixel(Sepia(amount), Premultiply(c, a)) == Premultiply(ClampColour(Between(c, Tone(c), Clamp(amount))), a)
  {
    FilterIsExact(Sepia(amount), c, a);
    SepiaMoves(Clamp(amount), c);
  }

  lemma SepiaMoves(t: real, c: Rgb)
    ensures Transform(SepiaMatrix(1.0 - t), c) == Between(c, Tone(c), t)
  {
    var x, y, z := t * c.r, t * c.g, t * c.b;
    assert (0.393 + 0.607 * (1.0 - t)) * c.r == c.r - 0.607 * x;
    assert (0.769 - 0.769 * (1.0 - t)) * c.g == 0.769 * y;
    assert (0.189 - 0.189 * (1.0 - t)) * c.b == 0.189 * z;
    assert (0.349 - 0.349 * (1.0 - t)) * c.r == 0.349 * x;
    assert (0.686 + 0.314 * (1.0 - t)) * c.g == c.g - 0.314 * y;
    assert (0.168 - 0.168 * (1.0 - t)) * c.b == 0.168 * z;
    assert (0.272 - 0.272 * (1.0 - t)) * c.r == 0.272 * x;
    assert (0.534 - 0.534 * (1.0 - t)) * c.g == 0.534 * y;
    assert (0.131 + 0.869 * (1.0 - t)) * c.b == c.b - 0.869 * z;
    assert t * (Tone(c).r - c.r) == 0.393 * x + 0.769 * y + 0.189 * z - x;
    assert t * (Tone(c).g - c.g) == 0.349 * x + 0.686 * y + 0.168 * z - y;
    assert t * (Tone(c).b - c.b) == 0.272 * x + 0.534 * y + 0.131 * z - z;
  }

  /** The direction in which a quarter turn of the hue moves a colour; a grey it does not move. */
  function Turn(c: Rgb): Rgb {
    Rgb(-0.213 * c.r - 0.715 * c.g + 0.928 * c.b, 0.143 * c.r + 0.140 * c.g - 0.283 * c.b, -0.787 * c.r + 0.715 * c.g + 0.072 * c.b)
  }

  /** A hue rotation keeps the grey, the cosine's share of the colour's distance from it, and the sine's share of the turn. */
  lemma HueRotateLaw(sin: real, cos: real, c: Rgb, a: real)
    requires 0.0 < a <= 1.0
    ensures var d, q := Saturated(cos, c), Turn(c);
      FilterPixel(HueRotate(sin, cos), Premultiply(c, a)) ==
      Premultiply(ClampColour(Rgb(d.r + Times(sin, q.r), d.g + Times(sin, q.g), d.b + Times(sin, q.b))), a)
  {
    FilterIsExact(HueRotate(sin, cos), c, a);
    SaturateMoves(cos, c);
    HueRotateParts(sin, cos, c);
  }

  lemma HueRotateParts(sin: real, cos: real, c: Rgb)
    ensures var d, q := Transform(SaturateMatrix(cos), c), Turn(c);
      Transform(HueRotateMatrix(sin, cos), c) == Rgb(d.r + Times(sin, q.r), d.g + Times(sin, q.g), d.b + Times(sin, q.b))
  {
    RowParts(0.213 + cos * 0.787, 0.715 - cos * 0.715, 0.072 - cos * 0.072, -0.213, -0.715, 0.928, sin, c);
    RowParts(0.213 - cos * 0.213, 0.715 + cos * 0.285, 0.072 - cos * 0.072, 0.143, 0.140, -0.283, sin, c);
    RowParts(0.213 - cos * 0.213, 0.715 - cos * 0.715, 0.072 + cos * 0.928, -0.787, 0.715, 0.072, sin, c);
  }

  lemma RowParts(x: real, y: real, z: real, u: real, v: real, w: real, sin: real, c: Rgb)
    ensures (x + sin * u) * c.r + (y + sin * v) * c.g + (z + sin * w) * c.b ==
            x * c.r + y * c.g + z * c.b + Times(sin, u * c.r + v * c.g + w * c.b)
  {
    assert (x + sin * u) * c.r == x * c.r + sin * (u * c.r);
    assert (y + sin * v) * c.g == y * c.g + sin * (v * c.g);
    assert (z + sin * w) * c.b == z * c.b + sin * (w * c.b);
    assert sin * (u * c.r + v * c.g + w * c.b) == sin * (u * c.r) + sin * (v * c.g) + sin * (w * c.b);
  }
}
