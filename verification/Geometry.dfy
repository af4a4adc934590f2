/**
 Even-odd polygon containment of src/geometry.rs over exact reals, for SVG fills and
 CSS clipping regions.
 */
module Geometry {
  import opened Common

  /** A point; one with a coordinate that is not a number or is infinite is `NonFinite`. */
  datatype Point = Finite(x: real, y: real) | NonFinite

  datatype PolygonUse = SvgFill | CssClip

  type P = p: Point | p.Finite? witness Finite(0.0, 0.0)

  // ----- edges -----

  function Cross(a: P, b: P, p: P): real { (b.x - a.x) * (p.y - a.y) - (b.y - a.y) * (p.x - a.x) }

  predicate OnEdge(a: P, b: P, p: P) {
    Cross(a, b, p) == 0.0 && Min(a.x, b.x) <= p.x <= Max(a.x, b.x) && Min(a.y, b.y) <= p.y <= Max(a.y, b.y)
  }

  /** Where the line through `a` and `b` is at height `y`. */
  function XAt(a: P, b: P, y: real): real
    requires a.y != b.y
  {
    (a.x - b.x) * (y - b.y) / (a.y - b.y) + b.x
  }

  predicate Crosses(a: P, b: P, p: P) {
    (b.y > p.y) != (a.y > p.y) && p.x < XAt(a, b, p.y)
  }

  // ----- the loop -----

  datatype Tally = Tally(inside: bool, onBoundary: bool)

  function Walk(previous: P, points: seq<P>, p: P): Tally
    decreases |points|
  {
    if points == [] then Tally(false, false)
    else
      var rest := Walk(points[0], points[1..], p);
      Tally(Crosses(previous, points[0], p) != rest.inside, OnEdge(previous, points[0], p) || rest.onBoundary)
  }

  /** The first point that differs from the first, or the length. */
  function FirstOther(points: seq<P>): (k: nat)
    requires points != []
    ensures k <= |points| && (k < |points| ==> points[k] != points[0])
    ensures forall i :: 0 <= i < k ==> points[i] == points[0]
  {
    OtherFrom(points, 0)
  }

  function OtherFrom(points: seq<P>, i: nat): (k: nat)
    requires i <= |points| && points != [] && forall j :: 0 <= j < i ==> points[j] == points[0]
    ensures k <= |points| && (k < |points| ==> points[k] != points[0])
    ensures forall j :: 0 <= j < k ==> points[j] == points[0]
    decreases |points| - i
  {
    if i == |points| || points[i] != points[0] then i else OtherFrom(points, i + 1)
  }

  predicate HasArea(points: seq<P>) {
    |points| >= 3 &&
    var k := FirstOther(points);
    k < |points| && exists i :: 0 <= i < |points| && Cross(points[0], points[k], points[i]) != 0.0
  }

  predicate AllFinite(points: seq<Point>) { forall i :: 0 <= i < |points| ==> points[i].Finite? }

  function Contains(point: Point, points: seq<Point>, polygonUse: PolygonUse): bool {
    if |points| < 2 || !point.Finite? || !AllFinite(points) then false
    else
      var ps: seq<P> := points;
      var t := Walk(ps[|ps| - 1], ps, point);
      if polygonUse == CssClip && !HasArea(ps) then false else t.onBoundary || t.inside
  }

  method PointInPolygon(point: Point, points: seq<Point>, polygonUse: PolygonUse) returns (r: bool)
    ensures r == Contains(point, points, polygonUse)
  {
    if |points| < 2 || !point.Finite? || !AllFinite(points) {
      return false;
    }
    var ps: seq<P> := points;
    var inside, onBoundary := false, false;
    var previous := ps[|ps| - 1];
    ghost var whole := Walk(ps[|ps| - 1], ps, point);
    for i := 0 to |ps|
      invariant previous == if i == 0 then ps[|ps| - 1] else ps[i - 1]
      invariant whole.inside == (inside != Walk(previous, ps[i..], point).inside)
      invariant whole.onBoundary == (onBoundary || Walk(previous, ps[i..], point).onBoundary)
    {
      var current := ps[i];
      assert ps[i..][0] == current && ps[i..][1..] == ps[i + 1..];
      if OnEdge(previous, current, point) {
        onBoundary := true;
      }
      if Crosses(previous, current, point) {
        inside := !inside;
      }
      previous := current;
    }
    if polygonUse == CssClip && !HasArea(ps) {
      return false;
    }
    return onBoundary || inside;
  }

  // ----- edges have no direction -----

  lemma XAtIsSymmetric(a: P, b: P, y: real)
    requires a.y != b.y
    ensures XAt(a, b, y) == XAt(b, a, y)
  {
    var d, w := a.y - b.y, a.x - b.x;
    var t := (y - b.y) / d;
    assert t * d == y - b.y;
    LineAt(w, y - b.y, d, t);
    assert (t - 1.0) * d == y - a.y;
    assert ((1.0 - t) * (-d)) == y - a.y;
    LineAt(-w, y - a.y, -d, 1.0 - t);
    assert w * t + b.x == (-w) * (1.0 - t) + a.x;
  }

  lemma LineAt(w: real, h: real, d: real, t: real)
    requires d != 0.0 && t * d == h
    ensures w * h / d == w * t
  {
    assert w * h == (w * t) * d;
    assert ((w * t) * d) / d == w * t;
  }

  lemma CrossesIsSymmetric(a: P, b: P, p: P)
    ensures Crosses(a, b, p) == Crosses(b, a, p)
  {
    if a.y != b.y {
      XAtIsSymmetric(a, b, p.y);
    }
  }

  lemma CrossSwaps(a: P, b: P, p: P)
    ensures Cross(a, b, p) == -Cross(b, a, p)
  {
  }

  lemma OnEdgeIsSymmetric(a: P, b: P, p: P)
    ensures OnEdge(a, b, p) == OnEdge(b, a, p)
  {
    CrossSwaps(a, b, p);
  }

  // ----- folding a symmetric edge test over a closed path -----

  type EdgeTest = (P, P) -> bool

  function Fold(odd: bool, x: bool, y: bool): bool { if odd then x != y else x || y }

  /** The test folded over consecutive points: parity if `odd`, else disjunction. */
  ghost function Path(odd: bool, f: EdgeTest, ps: seq<P>): bool {
    if |ps| < 2 then false else Fold(odd, f(ps[0], ps[1]), Path(odd, f, ps[1..]))
  }

  ghost function Closed(odd: bool, f: EdgeTest, ps: seq<P>): bool
    requires ps != []
  {
    Fold(odd, f(ps[|ps| - 1], ps[0]), Path(odd, f, ps))
  }

  ghost predicate Symmetric(f: EdgeTest) { forall a: P, b: P :: f(a, b) == f(b, a) }

  lemma {:induction false} PathConcat(odd: bool, f: EdgeTest, a: seq<P>, b: seq<P>)
    requires a != [] && b != []
    ensures Path(odd, f, a + b) == Fold(odd, Path(odd, f, a), Fold(odd, f(a[|a| - 1], b[0]), Path(odd, f, b)))
  {
    assert (a + b)[1..] == a[1..] + b;
    if |a| > 1 {
      PathConcat(odd, f, a[1..], b);
    } else {
      assert a[1..] + b == b;
    }
  }

  lemma RotationInvariant(odd: bool, f: EdgeTest, a: seq<P>, b: seq<P>)
    requires a != [] && b != []
    ensures Closed(odd, f, a + b) == Closed(odd, f, b + a)
  {
    PathConcat(odd, f, a, b);
    PathConcat(odd, f, b, a);
  }

  function Reversed<T>(xs: seq<T>): (r: seq<T>)
    ensures |r| == |xs| && forall i :: 0 <= i < |xs| ==> r[i] == xs[|xs| - 1 - i]
  {
    if xs == [] then [] else Reversed(xs[1..]) + [xs[0]]
  }

  lemma {:induction false} PathReversed(odd: bool, f: EdgeTest, ps: seq<P>)
    requires Symmetric(f)
    ensures Path(odd, f, Reversed(ps)) == Path(odd, f, ps)
  {
    if |ps| >= 2 {
      PathReversed(odd, f, ps[1..]);
      PathConcat(odd, f, Reversed(ps[1..]), [ps[0]]);
      assert Reversed(ps[1..])[|ps| - 2] == ps[1];
      assert f(ps[1], ps[0]) == f(ps[0], ps[1]);
    }
  }

  lemma ReversalInvariant(odd: bool, f: EdgeTest, ps: seq<P>)
    requires Symmetric(f) && ps != []
    ensures Closed(odd, f, Reversed(ps)) == Closed(odd, f, ps)
  {
    PathReversed(odd, f, ps);
    assert f(ps[0], ps[|ps| - 1]) == f(ps[|ps| - 1], ps[0]);
  }

  // ----- the loop folds both tests -----

  ghost function Crossing(p: P): EdgeTest { (a: P, b: P) => Crosses(a, b, p) }
  ghost function Touching(p: P): EdgeTest { (a: P, b: P) => OnEdge(a, b, p) }

  lemma TestsAreSymmetric(p: P)
    ensures Symmetric(Crossing(p)) && Symmetric(Touching(p))
  {
    forall a: P, b: P
      ensures Crossing(p)(a, b) == Crossing(p)(b, a)
      ensures Touching(p)(a, b) == Touching(p)(b, a)
    {
      CrossesIsSymmetric(a, b, p);
      OnEdgeIsSymmetric(a, b, p);
    }
  }

  lemma {:induction false} WalkFolds(previous: P, ps: seq<P>, p: P)
    requires ps != []
    ensures Walk(previous, ps, p) ==
            Tally(Fold(true, Crosses(previous, ps[0], p), Path(true, Crossing(p), ps)),
                  Fold(false, OnEdge(previous, ps[0], p), Path(false, Touching(p), ps)))
    decreases |ps|
  {
    if |ps| > 1 {
      WalkFolds(ps[0], ps[1..], p);
    }
  }

  ghost function Inside(ps: seq<P>, p: P): bool
    requires ps != []
  {
    Closed(true, Crossing(p), ps)
  }

  lemma WalkIsClosedFold(ps: seq<P>, p: P)
    requires ps != []
    ensures Walk(ps[|ps| - 1], ps, p) == Tally(Inside(ps, p), Closed(false, Touching(p), ps))
  {
    WalkFolds(ps[|ps| - 1], ps, p);
  }

  // ----- the parity is that of the fan of triangles -----

  /** Exclusive or over the triangles that `apex` forms with consecutive points. */
  ghost function Fan(apex: P, ps: seq<P>, p: P): bool {
    if |ps| < 2 then false else Inside([apex, ps[0], ps[1]], p) != Fan(apex, ps[1..], p)
  }

  lemma TriangleParity(a: P, b: P, c: P, p: P)
    ensures Inside([a, b, c], p) == (Crosses(c, a, p) != (Crosses(a, b, p) != Crosses(b, c, p)))
  {
    assert [a, b, c][1..] == [b, c] && [b, c][1..] == [c];
    assert Path(true, Crossing(p), [b, c]) == Crosses(b, c, p);
  }

  /** A point is inside by the even-odd rule exactly when an odd number of fan triangles contain it. */
  lemma {:induction false} ParityIsFan(apex: P, ps: seq<P>, p: P)
    requires ps != []
    ensures Inside([apex] + ps, p) == Fan(apex, ps, p)
  {
    var whole := [apex] + ps;
    assert whole[1..] == ps;
    assert Inside(whole, p) == (Crosses(ps[|ps| - 1], apex, p) != (Crosses(apex, ps[0], p) != Path(true, Crossing(p), ps)));
    if |ps| == 1 {
      CrossesIsSymmetric(ps[0], apex, p);
    } else {
      var rest := ps[1..];
      ParityIsFan(apex, rest, p);
      assert ([apex] + rest)[1..] == rest;
      TriangleParity(apex, ps[0], ps[1], p);
      CrossesIsSymmetric(ps[1], apex, p);
    }
  }

  // ----- area does not depend on the base points -----

  /** Some three vertices are not on one line. */
  ghost predicate Spread(ps: seq<P>) { exists i: nat, j: nat, k: nat :: Bent(ps, i, j, k) }

  ghost predicate Bent(ps: seq<P>, i: nat, j: nat, k: nat) {
    i < |ps| && j < |ps| && k < |ps| && Cross(ps[i], ps[j], ps[k]) != 0.0
  }

  /** Two vectors parallel to a nonzero one are parallel to each other. */
  lemma ParallelVectors(dx: real, dy: real, qx: real, qy: real, rx: real, ry: real)
    requires (dx != 0.0 || dy != 0.0) && dx * qy == dy * qx && dx * ry == dy * rx
    ensures qx * ry == qy * rx
  {
    var u, v := qx * ry, qy * rx;
    assert dx * u == qx * (dx * ry) == qx * (dy * rx);
    assert dx * v == rx * (dx * qy) == rx * (dy * qx);
    assert dx * (u - v) == 0.0;
    assert dy * u == ry * (dy * qx) == ry * (dx * qy);
    assert dy * v == qy * (dy * rx) == qy * (dx * ry);
    assert dy * (u - v) == 0.0;
  }

  lemma CrossFromOrigin(o: P, a: P, b: P, c: P)
    ensures Cross(a, b, c) == Cross(o, b, c) - Cross(o, a, c) + Cross(o, a, b)
  {
  }

  lemma CollinearWithOrigin(o: P, d: P, a: P, b: P)
    requires o != d && Cross(o, d, a) == 0.0 && Cross(o, d, b) == 0.0
    ensures Cross(o, a, b) == 0.0
  {
    ParallelVectors(d.x - o.x, d.y - o.y, a.x - o.x, a.y - o.y, b.x - o.x, b.y - o.y);
  }

  /** `has_area` is exact: it holds if and only if some three vertices are not on one line. */
  lemma HasAreaIsSpread(ps: seq<P>)
    ensures HasArea(ps) <==> Spread(ps)
  {
    if HasArea(ps) {
      var k := FirstOther(ps);
      var i :| 0 <= i < |ps| && Cross(ps[0], ps[k], ps[i]) != 0.0;
      assert Bent(ps, 0, k, i);
    } else {
      forall i: nat, j: nat, k: nat ensures !Bent(ps, i, j, k) {
        if i < |ps| && j < |ps| && k < |ps| {
          AllCollinear(ps, i, j, k);
        }
      }
    }
  }

  lemma AllCollinear(ps: seq<P>, i: nat, j: nat, k: nat)
    requires i < |ps| && j < |ps| && k < |ps| && !HasArea(ps)
    ensures Cross(ps[i], ps[j], ps[k]) == 0.0
  {
    var o, n := ps[0], FirstOther(ps);
    if |ps| < 3 {
      assert ps[i] == ps[j] || ps[j] == ps[k] || ps[i] == ps[k];
    } else if n < |ps| {
      var d := ps[n];
      assert Cross(o, d, ps[i]) == 0.0 && Cross(o, d, ps[j]) == 0.0 && Cross(o, d, ps[k]) == 0.0;
      CollinearWithOrigin(o, d, ps[j], ps[k]);
      CollinearWithOrigin(o, d, ps[i], ps[k]);
      CollinearWithOrigin(o, d, ps[i], ps[j]);
      CrossFromOrigin(o, ps[i], ps[j], ps[k]);
    }
  }

  /** Lists with the same vertices agree on having area. */
  lemma SpreadOnSameVertices(ps: seq<P>, qs: seq<P>)
    requires forall x: P :: x in ps ==> x in qs
    ensures Spread(ps) ==> Spread(qs)
  {
    if Spread(ps) {
      var i: nat, j: nat, k: nat :| Bent(ps, i, j, k);
      var i', j', k' := Place(qs, ps[i]), Place(qs, ps[j]), Place(qs, ps[k]);
      assert Bent(qs, i', j', k');
    }
  }

  ghost function Place(qs: seq<P>, x: P): (i: nat)
    requires x in qs
    ensures i < |qs| && qs[i] == x
  {
    var i: nat :| i < |qs| && qs[i] == x;
    i
  }

  lemma SameVerticesSameArea(ps: seq<P>, qs: seq<P>)
    requires forall x: P :: x in ps <==> x in qs
    ensures HasArea(ps) == HasArea(qs)
  {
    HasAreaIsSpread(ps);
    HasAreaIsSpread(qs);
    SpreadOnSameVertices(ps, qs);
    SpreadOnSameVertices(qs, ps);
  }

  // ----- the full answer -----

  /** The answer, boundary and area included, does not depend on which vertex comes first. */
  lemma RotationDoesNotMatter(point: Point, a: seq<Point>, b: seq<Point>, polygonUse: PolygonUse)
    ensures Contains(point, a + b, polygonUse) == Contains(point, b + a, polygonUse)
  {
    if a == [] || b == [] {
      assert a + b == b + a;
    } else if point.Finite? && AllFinite(a) && AllFinite(b) {
      var u: seq<P>, v: seq<P>, p: P := a, b, point;
      WalkIsClosedFold(u + v, p);
      WalkIsClosedFold(v + u, p);
      RotationInvariant(true, Crossing(p), u, v);
      RotationInvariant(false, Touching(p), u, v);
      SameVerticesSameArea(u + v, v + u);
    } else if point.Finite? {
      NotFinite(a, b);
      NotFinite(b, a);
    }
  }

  lemma NotFinite(a: seq<Point>, b: seq<Point>)
    ensures AllFinite(a + b) <==> AllFinite(a) && AllFinite(b)
  {
    if AllFinite(a + b) {
      forall i | 0 <= i < |a| ensures a[i].Finite? { assert (a + b)[i] == a[i]; }
      forall i | 0 <= i < |b| ensures b[i].Finite? { assert (a + b)[|a| + i] == b[i]; }
    }
  }

  /** Nor does it depend on the direction in which the vertices are listed. */
  lemma DirectionDoesNotMatter(point: Point, points: seq<Point>, polygonUse: PolygonUse)
    ensures Contains(point, Reversed(points), polygonUse) == Contains(point, points, polygonUse)
  {
    var r := Reversed(points);
    if AllFinite(r) {
      forall i | 0 <= i < |points| ensures points[i].Finite? { assert r[|points| - 1 - i] == points[i]; }
    }
    if |points| >= 2 && point.Finite? && AllFinite(points) {
      var ps: seq<P>, p: P := points, point;
      assert r == Reversed(ps);
      TestsAreSymmetric(p);
      WalkIsClosedFold(ps, p);
      WalkIsClosedFold(Reversed(ps), p);
      ReversalInvariant(true, Crossing(p), ps);
      ReversalInvariant(false, Touching(p), ps);
      forall x: P ensures x in ps <==> x in Reversed(ps) {
        if x in ps {
          var i :| 0 <= i < |ps| && ps[i] == x;
          assert Reversed(ps)[|ps| - 1 - i] == x;
        }
      }
      SameVerticesSameArea(ps, Reversed(ps));
    }
  }
}
