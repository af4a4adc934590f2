/**
 What the even-odd test of src/geometry.rs means: for triangles, convex combination of the
 vertices; for polygons, the parity of the triangles of a fan; for all, nothing outside the
 bounding box.
 */
module Polygons {
  import opened Common
  import opened Geometry

  ghost predicate Up(a: P, p: P) { a.y > p.y }

  // ----- signs -----

  lemma Sign(x: real, y: real)
    ensures x > 0.0 && y > 0.0 ==> x * y > 0.0
    ensures x > 0.0 && y < 0.0 ==> x * y < 0.0
    ensures x < 0.0 && y > 0.0 ==> x * y < 0.0
    ensures x < 0.0 && y < 0.0 ==> x * y > 0.0
    ensures x == 0.0 || y == 0.0 ==> x * y == 0.0
  {
  }

  function Det(ux: real, uy: real, vx: real, vy: real): real { ux * vy - uy * vx }

  /** The cross product of two vertices as seen from the point. */
  lemma CrossIsDet(a: P, b: P, p: P)
    ensures Cross(a, b, p) == Det(a.x - p.x, a.y - p.y, b.x - p.x, b.y - p.y)
  {
    var ux, uy, vx, vy := a.x - p.x, a.y - p.y, b.x - p.x, b.y - p.y;
    assert Cross(a, b, p) == (vx - ux) * (-uy) - (vy - uy) * (-ux);
    assert (vx - ux) * (-uy) == ux * uy - vx * uy;
    assert (vy - uy) * (-ux) == uy * ux - vy * ux;
  }

  /** Crossing the ray, told by the side of the edge on which the point lies. */
  lemma CrossesBySide(a: P, b: P, p: P)
    ensures Crosses(a, b, p) <==> Up(a, p) != Up(b, p) && (if Up(b, p) then Cross(a, b, p) > 0.0 else Cross(a, b, p) < 0.0)
  {
    if Up(a, p) != Up(b, p) {
      var d, w, h, q := a.y - b.y, a.x - b.x, p.y - b.y, p.x - b.x;
      var t := h / d;
      assert t * d == h;
      LineAt(w, h, d, t);
      var z := q - w * t;
      assert XAt(a, b, p.y) == w * t + b.x;
      CrossAlong(a, b, p, d, w, h, q, t);
      Sign(d, z);
    }
  }

  lemma CrossAlong(a: P, b: P, p: P, d: real, w: real, h: real, q: real, t: real)
    requires d == a.y - b.y && w == a.x - b.x && h == p.y - b.y && q == p.x - b.x && t * d == h
    ensures Cross(a, b, p) == d * (q - w * t)
  {
    assert Cross(a, b, p) == (-w) * (h - d) - (-d) * (q - w);
    assert (-w) * (h - d) == w * d - w * h;
    assert (-d) * (q - w) == d * w - d * q;
    assert d * (q - w * t) == d * q - w * (t * d);
  }

  // ----- weights -----

  /** The three cross products add up to that of the triangle. */
  lemma SidesAddUp(a: P, b: P, c: P, p: P)
    ensures Cross(a, b, p) + Cross(b, c, p) + Cross(c, a, p) == Cross(a, b, c)
  {
    var ux, uy, vx, vy, wx, wy := a.x - p.x, a.y - p.y, b.x - p.x, b.y - p.y, c.x - p.x, c.y - p.y;
    CrossIsDet(a, b, p);
    CrossIsDet(b, c, p);
    CrossIsDet(c, a, p);
    assert Cross(a, b, c) == (vx - ux) * (wy - uy) - (vy - uy) * (wx - ux);
    assert (vx - ux) * (wy - uy) == vx * wy - vx * uy - ux * wy + ux * uy;
    assert (vy - uy) * (wx - ux) == vy * wx - vy * ux - uy * wx + uy * ux;
  }

  /** With them as weights the vertices balance about the point. */
  lemma Balance(a: P, b: P, c: P, p: P)
    ensures Cross(b, c, p) * (a.y - p.y) + Cross(c, a, p) * (b.y - p.y) + Cross(a, b, p) * (c.y - p.y) == 0.0
    ensures Cross(b, c, p) * (a.x - p.x) + Cross(c, a, p) * (b.x - p.x) + Cross(a, b, p) * (c.x - p.x) == 0.0
  {
    CrossIsDet(a, b, p);
    CrossIsDet(b, c, p);
    CrossIsDet(c, a, p);
    BalanceOf(a.x - p.x, a.y - p.y, b.x - p.x, b.y - p.y, c.x - p.x, c.y - p.y);
  }

  lemma BalanceOf(ux: real, uy: real, vx: real, vy: real, wx: real, wy: real)
    ensures Det(vx, vy, wx, wy) * uy + Det(wx, wy, ux, uy) * vy + Det(ux, uy, vx, vy) * wy == 0.0
    ensures Det(vx, vy, wx, wy) * ux + Det(wx, wy, ux, uy) * vx + Det(ux, uy, vx, vy) * wx == 0.0
  {
    var xy, yz, zx := ux * vy, vx * wy, wx * uy;
    var yx, zy, xz := uy * vx, vy * wx, wy * ux;
    assert (yz - zy) * uy == yz * uy - zy * uy && (zx - xz) * vy == zx * vy - xz * vy && (xy - yx) * wy == xy * wy - yx * wy;
    assert yz * uy == yx * wy && zy * uy == zx * vy && xz * vy == xy * wy;
    assert (yz - zy) * ux == yz * ux - zy * ux && (zx - xz) * vx == zx * vx - xz * vx && (xy - yx) * wx == xy * wx - yx * wx;
    assert yz * ux == xz * vx && zy * ux == xy * wx && zx * vx == yx * wx;
  }

  ghost predicate AllLeft(a: P, b: P, c: P, p: P) {
    Cross(a, b, p) >= 0.0 && Cross(b, c, p) >= 0.0 && Cross(c, a, p) >= 0.0
  }

  // ----- the boundary of a triangle -----

  lemma Between(u: real, v: real, m: real, n: real)
    requires m >= 0.0 && n >= 0.0 && m + n > 0.0 && m * u + n * v == 0.0
    ensures Min(u, v) <= 0.0 <= Max(u, v)
  {
    Sign(m, u);
    Sign(n, v);
  }

  lemma NotBetween(u: real, v: real, m: real, n: real)
    requires m < 0.0 && n > 0.0 && m * u + n * v == 0.0 && Min(u, v) <= 0.0 <= Max(u, v)
    ensures u == 0.0 && v == 0.0
  {
    Sign(m, u);
    Sign(n, v);
  }

  lemma InBox(a: real, b: real, p: real)
    ensures Min(a, b) <= p <= Max(a, b) <==> Min(a - p, b - p) <= 0.0 <= Max(a - p, b - p)
  {
  }

  /** A point is on an edge of a counterclockwise triangle exactly if it is on the edge's line and not outside the other two. */
  lemma OnEdgeIff(a: P, b: P, c: P, p: P)
    requires Cross(a, b, c) > 0.0
    ensures OnEdge(a, b, p) <==> Cross(a, b, p) == 0.0 && Cross(b, c, p) >= 0.0 && Cross(c, a, p) >= 0.0
  {
    SidesAddUp(a, b, c, p);
    Balance(a, b, c, p);
    InBox(a.x, b.x, p.x);
    InBox(a.y, b.y, p.y);
    if Cross(a, b, p) == 0.0 {
      var m, n := Cross(b, c, p), Cross(c, a, p);
      OnLine(a, b, c, p, m, n);
    }
  }

  lemma OnLine(a: P, b: P, c: P, p: P, m: real, n: real)
    requires m + n > 0.0 && m * (a.x - p.x) + n * (b.x - p.x) == 0.0 && m * (a.y - p.y) + n * (b.y - p.y) == 0.0
    requires Cross(a, b, c) > 0.0
    ensures m >= 0.0 && n >= 0.0 <==>
            && Min(a.x - p.x, b.x - p.x) <= 0.0 <= Max(a.x - p.x, b.x - p.x)
            && Min(a.y - p.y, b.y - p.y) <= 0.0 <= Max(a.y - p.y, b.y - p.y)
  {
    var ux, uy, vx, vy := a.x - p.x, a.y - p.y, b.x - p.x, b.y - p.y;
    if m >= 0.0 && n >= 0.0 {
      Between(ux, vx, m, n);
      Between(uy, vy, m, n);
    } else if Min(ux, vx) <= 0.0 <= Max(ux, vx) && Min(uy, vy) <= 0.0 <= Max(uy, vy) {
      if m < 0.0 {
        NotBetween(ux, vx, m, n);
        NotBetween(uy, vy, m, n);
      } else {
        NotBetween(vx, ux, n, m);
        NotBetween(vy, uy, n, m);
      }
      SamePoint(a, b, c);
    }
  }

  lemma SamePoint(a: P, b: P, c: P)
    requires a == b
    ensures Cross(a, b, c) == 0.0
  {
  }

  // ----- triangles -----

  ghost predicate Touches(a: P, b: P, c: P, p: P) { OnEdge(a, b, p) || OnEdge(b, c, p) || OnEdge(c, a, p) }

  ghost predicate Odd(a: P, b: P, c: P, p: P) { Crosses(a, b, p) != (Crosses(b, c, p) != Crosses(c, a, p)) }

  lemma Turned(a: P, b: P, c: P)
    ensures Cross(b, c, a) == Cross(a, b, c)
  {
    SidesAddUp(a, b, c, a);
    assert Cross(a, b, a) == 0.0 && Cross(c, a, a) == 0.0;
  }

  lemma TouchesIff(a: P, b: P, c: P, p: P)
    requires Cross(a, b, c) > 0.0
    ensures Touches(a, b, c, p) <==>
            AllLeft(a, b, c, p) && (Cross(a, b, p) == 0.0 || Cross(b, c, p) == 0.0 || Cross(c, a, p) == 0.0)
  {
    Turned(a, b, c);
    Turned(b, c, a);
    OnEdgeIff(a, b, c, p);
    OnEdgeIff(b, c, a, p);
    OnEdgeIff(c, a, b, p);
  }

  /** Heights that balance under weights of one sign are not all positive, and if none is, they are zero. */
  lemma LevelSigns(m: real, n: real, o: real, x: real, y: real, z: real)
    requires m > 0.0 && n > 0.0 && o > 0.0 && m * x + n * y + o * z == 0.0
    ensures !(x > 0.0 && y > 0.0 && z > 0.0)
    ensures x <= 0.0 && y <= 0.0 && z <= 0.0 ==> x == 0.0 && y == 0.0 && z == 0.0
  {
    Sign(m, x);
    Sign(n, y);
    Sign(o, z);
  }

  lemma Level(a: P, b: P, c: P)
    ensures a.y == b.y == c.y ==> Cross(a, b, c) == 0.0
  {
  }

  /** All vertices on one side of the ray's height: only the boundary can be inside. */
  lemma LevelTriangle(a: P, b: P, c: P, p: P)
    requires Cross(a, b, c) > 0.0 && Up(a, p) == Up(b, p) == Up(c, p)
    ensures !Odd(a, b, c, p) && (AllLeft(a, b, c, p) ==> Touches(a, b, c, p))
  {
    var m, n, o := Cross(b, c, p), Cross(c, a, p), Cross(a, b, p);
    TouchesIff(a, b, c, p);
    Balance(a, b, c, p);
    Level(a, b, c);
    if m > 0.0 && n > 0.0 && o > 0.0 {
      LevelSigns(m, n, o, a.y - p.y, b.y - p.y, c.y - p.y);
    }
  }

  lemma PeakSigns(m: real, n: real, o: real, x: real, y: real, z: real)
    requires x <= 0.0 && y <= 0.0 && z > 0.0 && m * x + n * y + o * z == 0.0 && m + n + o > 0.0
    ensures m >= 0.0 && n >= 0.0 ==> o >= 0.0
    ensures !(m <= 0.0 && n < 0.0)
  {
    Sign(m, x);
    Sign(n, y);
    Sign(o, z);
  }

  /** One vertex above, two not. */
  lemma PeakTriangle(a: P, b: P, c: P, p: P)
    requires Cross(a, b, c) > 0.0 && !Up(a, p) && !Up(b, p) && Up(c, p)
    ensures Odd(a, b, c, p) || Touches(a, b, c, p) <==> AllLeft(a, b, c, p)
  {
    var m, n, o := Cross(b, c, p), Cross(c, a, p), Cross(a, b, p);
    assert m + n + o > 0.0 by { SidesAddUp(a, b, c, p); }
    assert m * (a.y - p.y) + n * (b.y - p.y) + o * (c.y - p.y) == 0.0 by { Balance(a, b, c, p); }
    PeakSigns(m, n, o, a.y - p.y, b.y - p.y, c.y - p.y);
    TouchesIff(a, b, c, p);
    assert Odd(a, b, c, p) <==> (m > 0.0) != (n < 0.0) by {
      CrossesBySide(a, b, p);
      CrossesBySide(b, c, p);
      CrossesBySide(c, a, p);
    }
  }

  lemma ValleySigns(m: real, n: real, o: real, x: real, y: real, z: real)
    requires x > 0.0 && y > 0.0 && z <= 0.0 && m * x + n * y + o * z == 0.0 && m + n + o > 0.0
    ensures m >= 0.0 && n > 0.0 ==> o >= 0.0
    ensures !(m < 0.0 && n <= 0.0)
  {
    Sign(m, x);
    Sign(n, y);
    Sign(o, z);
  }

  /** Two vertices above, one not. */
  lemma ValleyTriangle(a: P, b: P, c: P, p: P)
    requires Cross(a, b, c) > 0.0 && Up(a, p) && Up(b, p) && !Up(c, p)
    ensures Odd(a, b, c, p) || Touches(a, b, c, p) <==> AllLeft(a, b, c, p)
  {
    var m, n, o := Cross(b, c, p), Cross(c, a, p), Cross(a, b, p);
    assert m + n + o > 0.0 by { SidesAddUp(a, b, c, p); }
    assert m * (a.y - p.y) + n * (b.y - p.y) + o * (c.y - p.y) == 0.0 by { Balance(a, b, c, p); }
    ValleySigns(m, n, o, a.y - p.y, b.y - p.y, c.y - p.y);
    TouchesIff(a, b, c, p);
    assert Odd(a, b, c, p) <==> (m < 0.0) != (n > 0.0) by {
      CrossesBySide(a, b, p);
      CrossesBySide(b, c, p);
      CrossesBySide(c, a, p);
    }
  }

  lemma CounterclockwiseTriangle(a: P, b: P, c: P, p: P)
    requires Cross(a, b, c) > 0.0
    ensures Odd(a, b, c, p) || Touches(a, b, c, p) <==> AllLeft(a, b, c, p)
  {
    Turned(a, b, c);
    Turned(b, c, a);
    TouchesIff(a, b, c, p);
    if Up(a, p) == Up(b, p) {
      if Up(b, p) == Up(c, p) {
        LevelTriangle(a, b, c, p);
      } else if Up(c, p) {
        PeakTriangle(a, b, c, p);
      } else {
        ValleyTriangle(a, b, c, p);
      }
    } else if Up(b, p) == Up(c, p) {
      if Up(a, p) {
        PeakTriangle(b, c, a, p);
      } else {
        ValleyTriangle(b, c, a, p);
      }
    } else if Up(b, p) {
      PeakTriangle(c, a, b, p);
    } else {
      ValleyTriangle(c, a, b, p);
    }
  }

  /** No two of the three cross products have opposite signs. */
  ghost predicate InTriangle(a: P, b: P, c: P, p: P) {
    AllLeft(a, b, c, p) || (Cross(a, b, p) <= 0.0 && Cross(b, c, p) <= 0.0 && Cross(c, a, p) <= 0.0)
  }

  lemma AnyTriangle(a: P, b: P, c: P, p: P)
    requires Cross(a, b, c) != 0.0
    ensures Odd(a, b, c, p) || Touches(a, b, c, p) <==> InTriangle(a, b, c, p)
  {
    SidesAddUp(a, b, c, p);
    if Cross(a, b, c) > 0.0 {
      CounterclockwiseTriangle(a, b, c, p);
    } else {
      Mirrored(a, b, c, p);
      CounterclockwiseTriangle(c, b, a, p);
    }
  }

  lemma Mirrored(a: P, b: P, c: P, p: P)
    ensures Cross(c, b, a) == -Cross(a, b, c) && Cross(c, b, p) == -Cross(b, c, p)
    ensures Cross(b, a, p) == -Cross(a, b, p) && Cross(a, c, p) == -Cross(c, a, p)
    ensures Odd(c, b, a, p) == Odd(a, b, c, p) && Touches(c, b, a, p) == Touches(a, b, c, p)
  {
    CrossSwaps(c, b, a);
    Turned(a, b, c);
    CrossSwaps(c, b, p);
    CrossSwaps(b, a, p);
    CrossSwaps(a, c, p);
    CrossesIsSymmetric(a, b, p);
    CrossesIsSymmetric(b, c, p);
    CrossesIsSymmetric(c, a, p);
    OnEdgeIsSymmetric(a, b, p);
    OnEdgeIsSymmetric(b, c, p);
    OnEdgeIsSymmetric(c, a, p);
  }

  // ----- the answer for a triangle -----

  lemma TriangleWalk(a: P, b: P, c: P, p: P)
    ensures Walk(c, [a, b, c], p) == Tally(Odd(a, b, c, p), Touches(a, b, c, p))
  {
    var ps := [a, b, c];
    assert ps[1..] == [b, c] && [b, c][1..] == [c] && [c][1..] == [];
    assert Walk(b, [c], p) == Tally(Crosses(b, c, p) != false, OnEdge(b, c, p) || false);
    assert Walk(a, [b, c], p).inside == (Crosses(a, b, p) != Crosses(b, c, p));
  }

  /**
   For a triangle with area the answer is geometric containment, boundary included,
   whichever way its vertices are listed and whichever use it is for.
   */
  lemma TriangleContains(a: P, b: P, c: P, p: P, polygonUse: PolygonUse)
    requires Cross(a, b, c) != 0.0
    ensures Contains(p, [a, b, c], polygonUse) <==> InTriangle(a, b, c, p)
  {
    var ps: seq<P> := [a, b, c];
    TriangleWalk(a, b, c, p);
    AnyTriangle(a, b, c, p);
    assert Bent(ps, 0, 1, 2);
    HasAreaIsSpread(ps);
    assert ps[|ps| - 1] == c;
  }

  /** The point is a weighted mean of the vertices. */
  ghost predicate Mean(a: P, b: P, c: P, p: P, u: real, v: real, w: real) {
    && u >= 0.0 && v >= 0.0 && w >= 0.0 && u + v + w == 1.0
    && p.x == u * a.x + v * b.x + w * c.x && p.y == u * a.y + v * b.y + w * c.y
  }

  /** A weighted mean of the vertices has cross products in the ratio of the weights. */
  lemma MeanIsInside(a: P, b: P, c: P, p: P, u: real, v: real, w: real)
    requires Mean(a, b, c, p, u, v, w)
    ensures InTriangle(a, b, c, p)
  {
    var area := Cross(a, b, c);
    MeanSide(a, b, c, p, u, v, w);
    Turned(a, b, c);
    MeanSide(b, c, a, p, v, w, u);
    Turned(b, c, a);
    MeanSide(c, a, b, p, w, u, v);
    Sign(w, area);
    Sign(u, area);
    Sign(v, area);
  }

  lemma MeanSide(a: P, b: P, c: P, p: P, u: real, v: real, w: real)
    requires u + v + w == 1.0 && p.x == u * a.x + v * b.x + w * c.x && p.y == u * a.y + v * b.y + w * c.y
    ensures Cross(a, b, p) == w * Cross(a, b, c)
  {
    var vx, vy, wx, wy := b.x - a.x, b.y - a.y, c.x - a.x, c.y - a.y;
    MeanFrom(a.x, b.x, c.x, u, v, w);
    MeanFrom(a.y, b.y, c.y, u, v, w);
    assert vx * (v * vy + w * wy) == v * (vx * vy) + w * (vx * wy);
    assert vy * (v * vx + w * wx) == v * (vx * vy) + w * (vy * wx);
    assert w * (vx * wy - vy * wx) == w * (vx * wy) - w * (vy * wx);
  }

  lemma MeanFrom(a: real, b: real, c: real, u: real, v: real, w: real)
    requires u + v + w == 1.0
    ensures u * a + v * b + w * c - a == v * (b - a) + w * (c - a)
  {
    assert u * a == a - v * a - w * a by { assert (u + v + w) * a == u * a + v * a + w * a; }
  }

  /** And in a triangle with area every point inside is one. */
  lemma InsideIsMean(a: P, b: P, c: P, p: P) returns (u: real, v: real, w: real)
    requires Cross(a, b, c) != 0.0 && InTriangle(a, b, c, p)
    ensures Mean(a, b, c, p, u, v, w)
  {
    var area := Cross(a, b, c);
    SidesAddUp(a, b, c, p);
    Balance(a, b, c, p);
    u := Weight(Cross(b, c, p), area);
    v := Weight(Cross(c, a, p), area);
    w := Weight(Cross(a, b, p), area);
    var m, n, o := Cross(b, c, p), Cross(c, a, p), Cross(a, b, p);
    WeightsSum(u, v, w, area, m, n, o);
    Balanced(a.x - p.x, b.x - p.x, c.x - p.x, u, v, w, area, m, n, o);
    Balanced(a.y - p.y, b.y - p.y, c.y - p.y, u, v, w, area, m, n, o);
    MeanAbout(a.x, b.x, c.x, p.x, u, v, w);
    MeanAbout(a.y, b.y, c.y, p.y, u, v, w);
  }

  lemma WeightsSum(u: real, v: real, w: real, area: real, m: real, n: real, o: real)
    requires area != 0.0 && u * area == m && v * area == n && w * area == o && m + n + o == area
    ensures u + v + w == 1.0
  {
    var rest := u + v + w - 1.0;
    assert rest * area == u * area + v * area + w * area - area;
    Sign(rest, area);
  }

  lemma Weight(side: real, area: real) returns (u: real)
    requires area != 0.0 && (area > 0.0 ==> side >= 0.0) && (area < 0.0 ==> side <= 0.0)
    ensures u >= 0.0 && u * area == side
  {
    u := side / area;
    assert u * area == side;
    Sign(u, area);
  }

  lemma Balanced(x: real, y: real, z: real, u: real, v: real, w: real, area: real, m: real, n: real, o: real)
    requires area != 0.0 && u * area == m && v * area == n && w * area == o && m * x + n * y + o * z == 0.0
    ensures u * x + v * y + w * z == 0.0
  {
    var sum := u * x + v * y + w * z;
    assert (u * x) * area == m * x && (v * y) * area == n * y && (w * z) * area == o * z;
    assert sum * area == (u * x) * area + (v * y) * area + (w * z) * area;
    Sign(sum, area);
  }

  lemma MeanAbout(a: real, b: real, c: real, p: real, u: real, v: real, w: real)
    requires u + v + w == 1.0 && u * (a - p) + v * (b - p) + w * (c - p) == 0.0
    ensures p == u * a + v * b + w * c
  {
    assert u * (a - p) == u * a - u * p && v * (b - p) == v * b - v * p && w * (c - p) == w * c - w * p;
    assert (u + v + w) * p == u * p + v * p + w * p;
  }

  // ----- triangles without area -----

  lemma OppositeSigns(m: real, n: real, x: real, y: real)
    requires (m * x + n * y == 0.0 && ((x > 0.0 && y > 0.0) || (x < 0.0 && y < 0.0)))
    ensures (m > 0.0 <==> n < 0.0)
    ensures (m < 0.0 <==> n > 0.0)
  {
    Sign(m, x);
    Sign(n, y);
  }

  /** `c` alone on its side of the ray's height, in a triangle without area: its two edges are crossed together. */
  lemma FlatPeak(a: P, b: P, c: P, p: P)
    requires Cross(a, b, c) == 0.0 && Up(a, p) == Up(b, p) != Up(c, p)
    ensures !Odd(a, b, c, p)
  {
    var m, n, o := Cross(b, c, p), Cross(c, a, p), Cross(a, b, p);
    assert m + n + o == 0.0 by { SidesAddUp(a, b, c, p); }
    assert m * (a.y - p.y) + n * (b.y - p.y) + o * (c.y - p.y) == 0.0 by { Balance(a, b, c, p); }
    AboutThird(m, n, o, a.y - p.y, b.y - p.y, c.y - p.y);
    OppositeSigns(m, n, a.y - c.y, b.y - c.y);
    CrossesBySide(a, b, p);
    CrossesBySide(b, c, p);
    CrossesBySide(c, a, p);
  }

  lemma AboutThird(m: real, n: real, o: real, x: real, y: real, z: real)
    requires m + n + o == 0.0 && m * x + n * y + o * z == 0.0
    ensures m * (x - z) + n * (y - z) == 0.0
  {
    assert m * (x - z) == m * x - m * z && n * (y - z) == n * y - n * z;
    assert (m + n + o) * z == m * z + n * z + o * z;
  }

  lemma FlatTriangle(a: P, b: P, c: P, p: P)
    requires Cross(a, b, c) == 0.0
    ensures !Odd(a, b, c, p)
  {
    Turned(a, b, c);
    Turned(b, c, a);
    if Up(a, p) == Up(b, p) {
      if Up(b, p) != Up(c, p) {
        FlatPeak(a, b, c, p);
      }
    } else if Up(b, p) == Up(c, p) {
      FlatPeak(b, c, a, p);
    } else {
      FlatPeak(c, a, b, p);
    }
  }

  // ----- polygons -----

  /** Exclusive or, over the fan from `apex`, of whether the triangle has area and contains the point. */
  ghost predicate OddFan(apex: P, ps: seq<P>, p: P) {
    |ps| >= 2 && (Cross(apex, ps[0], ps[1]) != 0.0 && InTriangle(apex, ps[0], ps[1], p)) != OddFan(apex, ps[1..], p)
  }

  /** The point is on no segment of the fan. */
  ghost predicate OffFan(apex: P, ps: seq<P>, p: P) {
    && (forall i :: 0 <= i < |ps| ==> !OnEdge(apex, ps[i], p))
    && (forall i :: 0 <= i < |ps| - 1 ==> !OnEdge(ps[i], ps[i + 1], p))
  }

  /** Off the fan's segments, its parity is that of the triangles that contain the point. */
  lemma {:induction false} FanIsGeometric(apex: P, ps: seq<P>, p: P)
    requires OffFan(apex, ps, p)
    ensures Fan(apex, ps, p) == OddFan(apex, ps, p)
  {
    if |ps| >= 2 {
      var a, b := ps[0], ps[1];
      FanIsGeometric(apex, ps[1..], p);
      assert !OnEdge(apex, ps[0], p) && !OnEdge(apex, ps[1], p) && !OnEdge(ps[0], ps[1], p);
      OnEdgeIsSymmetric(apex, b, p);
      TriangleParity(apex, a, b, p);
      assert Inside([apex, a, b], p) == Odd(apex, a, b, p);
      if Cross(apex, a, b) == 0.0 {
        FlatTriangle(apex, a, b, p);
      } else {
        AnyTriangle(apex, a, b, p);
      }
    }
  }

  /** Off the fan's segments, a point is in the polygon exactly if an odd number of the fan's triangles contain it. */
  lemma PolygonIsOddFan(apex: P, ps: seq<P>, p: P)
    requires ps != [] && OffFan(apex, ps, p)
    ensures Contains(p, [apex] + ps, SvgFill) <==> OddFan(apex, ps, p)
  {
    var whole: seq<P> := [apex] + ps;
    FanIsGeometric(apex, ps, p);
    ParityIsFan(apex, ps, p);
    WalkIsClosedFold(whole, p);
    forall i | 0 <= i < |whole| - 1 ensures !Touching(p)(whole[i], whole[i + 1]) {
      if i > 0 {
        assert whole[i] == ps[i - 1] && whole[i + 1] == ps[i];
      }
    }
    OnEdgeIsSymmetric(apex, ps[|ps| - 1], p);
    NoEdgeHolds(false, Touching(p), whole);
    assert whole[|whole| - 1] == ps[|ps| - 1] && whole[0] == apex;
  }

  lemma {:induction false} NoEdgeHolds(odd: bool, f: EdgeTest, ps: seq<P>)
    requires forall i :: 0 <= i < |ps| - 1 ==> !f(ps[i], ps[i + 1])
    ensures !Path(odd, f, ps)
  {
    if |ps| >= 2 {
      var rest := ps[1..];
      forall i | 0 <= i < |rest| - 1 ensures !f(rest[i], rest[i + 1]) {
        assert rest[i] == ps[i + 1] && rest[i + 1] == ps[i + 2];
      }
      NoEdgeHolds(odd, f, rest);
      assert !f(ps[0], ps[0 + 1]);
    }
  }

  // ----- the bounding box -----

  /** Every vertex is strictly to one side of the point. */
  ghost predicate OutsideBox(ps: seq<P>, p: P) {
    || (forall i :: 0 <= i < |ps| ==> ps[i].x < p.x)
    || (forall i :: 0 <= i < |ps| ==> ps[i].x > p.x)
    || (forall i :: 0 <= i < |ps| ==> ps[i].y < p.y)
    || (forall i :: 0 <= i < |ps| ==> ps[i].y > p.y)
  }

  ghost predicate SameSide(a: P, b: P, p: P) {
    (a.x < p.x && b.x < p.x) || (a.x > p.x && b.x > p.x) || (a.y < p.y && b.y < p.y) || (a.y > p.y && b.y > p.y)
  }

  lemma EdgeOfBox(a: P, b: P, p: P)
    ensures SameSide(a, b, p) ==> !OnEdge(a, b, p)
    ensures a.x < p.x && b.x < p.x ==> !Crosses(a, b, p)
    ensures a.x > p.x && b.x > p.x ==> (Crosses(a, b, p) <==> Up(a, p) != Up(b, p))
    ensures Up(a, p) == Up(b, p) ==> !Crosses(a, b, p)
  {
    CrossesBySide(a, b, p);
    CrossIsDet(a, b, p);
    DetSigns(a.x - p.x, a.y - p.y, b.x - p.x, b.y - p.y);
  }

  lemma DetSigns(ux: real, uy: real, vx: real, vy: real)
    ensures ux < 0.0 && vx < 0.0 && uy <= 0.0 && vy > 0.0 ==> Det(ux, uy, vx, vy) < 0.0
    ensures ux < 0.0 && vx < 0.0 && uy > 0.0 && vy <= 0.0 ==> Det(ux, uy, vx, vy) > 0.0
    ensures ux > 0.0 && vx > 0.0 && uy <= 0.0 && vy > 0.0 ==> Det(ux, uy, vx, vy) > 0.0
    ensures ux > 0.0 && vx > 0.0 && uy > 0.0 && vy <= 0.0 ==> Det(ux, uy, vx, vy) < 0.0
  {
    Sign(ux, vy);
    Sign(uy, vx);
  }

  /** An edge test that compares the ends telescopes. */
  lemma {:induction false} Telescopes(ps: seq<P>, p: P)
    requires ps != [] && forall i :: 0 <= i < |ps| ==> ps[i].x > p.x
    ensures Path(true, Crossing(p), ps) == (Up(ps[0], p) != Up(ps[|ps| - 1], p))
  {
    if |ps| >= 2 {
      Telescopes(ps[1..], p);
      EdgeOfBox(ps[0], ps[1], p);
    }
  }

  lemma NothingCrosses(ps: seq<P>, p: P)
    requires ps != []
    requires (forall i :: 0 <= i < |ps| ==> ps[i].x < p.x) || (forall i :: 0 <= i < |ps| ==> Up(ps[i], p) == Up(ps[0], p))
    ensures !Inside(ps, p)
  {
    forall i | 0 <= i < |ps| - 1 ensures !Crossing(p)(ps[i], ps[i + 1]) {
      EdgeOfBox(ps[i], ps[i + 1], p);
    }
    NoEdgeHolds(true, Crossing(p), ps);
    EdgeOfBox(ps[|ps| - 1], ps[0], p);
  }

  lemma NothingTouches(ps: seq<P>, p: P)
    requires ps != [] && OutsideBox(ps, p)
    ensures !Closed(false, Touching(p), ps)
  {
    forall i | 0 <= i < |ps| - 1 ensures !Touching(p)(ps[i], ps[i + 1]) {
      EdgeOfBox(ps[i], ps[i + 1], p);
    }
    NoEdgeHolds(false, Touching(p), ps);
    EdgeOfBox(ps[|ps| - 1], ps[0], p);
  }

  /** A point outside the bounding box of the vertices is never contained. */
  lemma OutsideBoxIsOutside(ps: seq<P>, p: P, polygonUse: PolygonUse)
    requires OutsideBox(ps, p)
    ensures !Contains(p, ps, polygonUse)
  {
    if |ps| >= 2 {
      WalkIsClosedFold(ps, p);
      NothingTouches(ps, p);
      if forall i :: 0 <= i < |ps| ==> ps[i].x > p.x {
        Telescopes(ps, p);
        EdgeOfBox(ps[|ps| - 1], ps[0], p);
      } else {
        NothingCrosses(ps, p);
      }
    }
  }

  /** A clip region needs area; otherwise the use makes no difference. Too few or non-finite vertices contain nothing. */
  lemma UseMattersForArea(ps: seq<P>, p: P)
    ensures Contains(p, ps, CssClip) <==> Contains(p, ps, SvgFill) && Spread(ps)
  {
    HasAreaIsSpread(ps);
  }

  lemma NothingWithoutFiniteVertices(points: seq<Point>, point: Point, polygonUse: PolygonUse)
    requires |points| < 2 || point.NonFinite? || exists i :: 0 <= i < |points| && points[i].NonFinite?
    ensures !Contains(point, points, polygonUse)
  {
  }

  /** A segment, drawn as two vertices, contains exactly its own points. */
  lemma SegmentContains(a: P, b: P, p: P)
    ensures Contains(p, [a, b], SvgFill) <==> OnEdge(a, b, p)
  {
    var ps: seq<P> := [a, b];
    assert ps[1..] == [b] && [b][1..] == [];
    assert Walk(a, [b], p) == Tally(Crosses(a, b, p) != false, OnEdge(a, b, p) || false);
    CrossesIsSymmetric(a, b, p);
    OnEdgeIsSymmetric(a, b, p);
  }
}
