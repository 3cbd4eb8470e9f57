/**
 * `LineIntersection` of Source/SvgCollision.cs: the segment-against-segment test, the
 * crossing point of two lines, the brute-force pass over consecutive vertex pairs and the
 * crossing-number (ray casting) classifier.
 */
module LineIntersection {
  import opened Wrappers
  import opened Geometry
  import opened CollisionResults

  // ----- segment geometry used to state the contracts -----

  /** The point of the segment from `s` to `e` at parameter `t`. */
  function PointAt(s: Vec, e: Vec, t: real): Vec
  {
    Add(s, Scale(Sub(e, s), t))
  }

  /** Parameter `t` on the first segment and `u` on the second name the same point. */
  predicate Meet(ps1: Vec, pe1: Vec, ps2: Vec, pe2: Vec, t: real, u: real)
  {
    PointAt(ps1, pe1, t) == PointAt(ps2, pe2, u)
  }

  /** The closed segments ps1-pe1 and ps2-pe2 have a point in common. */
  ghost predicate SegmentsMeet(ps1: Vec, pe1: Vec, ps2: Vec, pe2: Vec)
  {
    exists t, u :: 0.0 <= t <= 1.0 && 0.0 <= u <= 1.0 && Meet(ps1, pe1, ps2, pe2, t, u)
  }

  /** `p` lies on the infinite line through `s` and `e`. */
  predicate OnLine(s: Vec, e: Vec, p: Vec)
  {
    Cross(Sub(e, s), Sub(p, s)) == 0.0
  }

  // ----- DoLinesIntersect -----

  /**
   * `DoLinesIntersect`: the parametric cross-product test. When `ps2` lies on the first line
   * (`CmPxr == 0`) only the sign-change test of `ps2` against the first segment's X and Y
   * extents is made; otherwise both parameters must lie in [0, 1].
   */
  function DoLinesIntersect(ps1: Vec, pe1: Vec, ps2: Vec, pe2: Vec): bool
  {
    var cmP := Sub(ps2, ps1);
    var r := Sub(pe1, ps1);
    var s := Sub(pe2, ps2);
    var cmPxr := Cross(cmP, r);
    var cmPxs := Cross(cmP, s);
    var rxs := Cross(r, s);
    if cmPxr == 0.0 then
      ((ps2.x - ps1.x < 0.0) != (ps2.x - pe1.x < 0.0)) || ((ps2.y - ps1.y < 0.0) != (ps2.y - pe1.y < 0.0))
    else if rxs == 0.0 then
      false
    else
      ParametersInUnit(cmPxs, cmPxr, rxs)
  }

  /** The last step of `DoLinesIntersect`: `t = CmPxs / rxs` and `u = CmPxr / rxs` both lie in [0, 1]. */
  predicate ParametersInUnit(cmPxs: real, cmPxr: real, rxs: real)
    requires rxs != 0.0
  {
    var rxsr := 1.0 / rxs;
    var t := cmPxs * rxsr;
    var u := cmPxr * rxsr;
    t >= 0.0 && t <= 1.0 && u >= 0.0 && u <= 1.0
  }

  /** The parameters of any common point of the two lines satisfy Cramer's equations. */
  lemma MeetParameters(ps1: Vec, pe1: Vec, ps2: Vec, pe2: Vec, t: real, u: real)
    requires Meet(ps1, pe1, ps2, pe2, t, u)
    ensures t * Cross(Sub(pe1, ps1), Sub(pe2, ps2)) == Cross(Sub(ps2, ps1), Sub(pe2, ps2))
    ensures u * Cross(Sub(pe1, ps1), Sub(pe2, ps2)) == Cross(Sub(ps2, ps1), Sub(pe1, ps1))
  {
    var c, r, s := Sub(ps2, ps1), Sub(pe1, ps1), Sub(pe2, ps2);
    assert c.x == t * r.x - u * s.x && c.y == t * r.y - u * s.y;
    calc {
      Cross(c, s);
      (t * r.x - u * s.x) * s.y - (t * r.y - u * s.y) * s.x;
      t * (r.x * s.y - r.y * s.x);
    }
    calc {
      Cross(c, r);
      (t * r.x - u * s.x) * r.y - (t * r.y - u * s.y) * r.x;
      u * (r.x * s.y - r.y * s.x);
    }
  }

  lemma Cancel(a: real, b: real, d: real)
    requires d != 0.0 && a * d == b * d
    ensures a == b
  {
    assert (a - b) * d == 0.0;
  }

  /** With a non-zero determinant, Cramer's parameters name a common point of the two lines. */
  lemma CramerMeet(ps1: Vec, pe1: Vec, ps2: Vec, pe2: Vec)
    requires Cross(Sub(pe1, ps1), Sub(pe2, ps2)) != 0.0
    ensures var d := Cross(Sub(pe1, ps1), Sub(pe2, ps2));
            Meet(ps1, pe1, ps2, pe2, Cross(Sub(ps2, ps1), Sub(pe2, ps2)) / d, Cross(Sub(ps2, ps1), Sub(pe1, ps1)) / d)
  {
    var c, r, s := Sub(ps2, ps1), Sub(pe1, ps1), Sub(pe2, ps2);
    var d := Cross(r, s);
    var t, u := Cross(c, s) / d, Cross(c, r) / d;
    assert t * d == Cross(c, s) && u * d == Cross(c, r);
    calc {
      (t * r.x - u * s.x) * d;
      r.x * (t * d) - s.x * (u * d);
      r.x * Cross(c, s) - s.x * Cross(c, r);
      c.x * d;
    }
    Cancel(t * r.x - u * s.x, c.x, d);
    calc {
      (t * r.y - u * s.y) * d;
      r.y * (t * d) - s.y * (u * d);
      r.y * Cross(c, s) - s.y * Cross(c, r);
      c.y * d;
    }
    Cancel(t * r.y - u * s.y, c.y, d);
  }

  lemma Quotient(a: real, d: real, q: real)
    requires d != 0.0 && q * d == a
    ensures q == a / d
  {
  }

  /** Parallel lines with `ps2` off the first line have no common point. */
  lemma ParallelSegmentsApart(ps1: Vec, pe1: Vec, ps2: Vec, pe2: Vec)
    requires Cross(Sub(ps2, ps1), Sub(pe1, ps1)) != 0.0 && Cross(Sub(pe1, ps1), Sub(pe2, ps2)) == 0.0
    ensures !SegmentsMeet(ps1, pe1, ps2, pe2)
  {
    if SegmentsMeet(ps1, pe1, ps2, pe2) {
      var t, u :| 0.0 <= t <= 1.0 && 0.0 <= u <= 1.0 && Meet(ps1, pe1, ps2, pe2, t, u);
      MeetParameters(ps1, pe1, ps2, pe2, t, u);
      assert false;
    }
  }

  /** Away from the collinear and parallel cases the test checks Cramer's parameters against [0, 1]. */
  lemma CrossingTest(ps1: Vec, pe1: Vec, ps2: Vec, pe2: Vec)
    requires Cross(Sub(ps2, ps1), Sub(pe1, ps1)) != 0.0 && Cross(Sub(pe1, ps1), Sub(pe2, ps2)) != 0.0
    ensures var d := Cross(Sub(pe1, ps1), Sub(pe2, ps2));
            var t, u := Cross(Sub(ps2, ps1), Sub(pe2, ps2)) / d, Cross(Sub(ps2, ps1), Sub(pe1, ps1)) / d;
            DoLinesIntersect(ps1, pe1, ps2, pe2) <==> 0.0 <= t <= 1.0 && 0.0 <= u <= 1.0
  {
    var c, r, s := Sub(ps2, ps1), Sub(pe1, ps1), Sub(pe2, ps2);
    var d := Cross(r, s);
    MulReciprocal(Cross(c, s), d);
    MulReciprocal(Cross(c, r), d);
  }

  /** `a * (1 / d)` is `a / d`. */
  lemma MulReciprocal(a: real, d: real)
    requires d != 0.0
    ensures a * (1.0 / d) == a / d
  {
  }

  /** With a non-zero determinant the segments meet exactly when Cramer's parameters lie in [0, 1]. */
  lemma CrossingMeet(ps1: Vec, pe1: Vec, ps2: Vec, pe2: Vec)
    requires Cross(Sub(pe1, ps1), Sub(pe2, ps2)) != 0.0
    ensures var d := Cross(Sub(pe1, ps1), Sub(pe2, ps2));
            var t, u := Cross(Sub(ps2, ps1), Sub(pe2, ps2)) / d, Cross(Sub(ps2, ps1), Sub(pe1, ps1)) / d;
            SegmentsMeet(ps1, pe1, ps2, pe2) <==> 0.0 <= t <= 1.0 && 0.0 <= u <= 1.0
  {
    var c, r, s := Sub(ps2, ps1), Sub(pe1, ps1), Sub(pe2, ps2);
    var d := Cross(r, s);
    CramerMeet(ps1, pe1, ps2, pe2);
    if SegmentsMeet(ps1, pe1, ps2, pe2) {
      var t', u' :| 0.0 <= t' <= 1.0 && 0.0 <= u' <= 1.0 && Meet(ps1, pe1, ps2, pe2, t', u');
      MeetParameters(ps1, pe1, ps2, pe2, t', u');
      Quotient(Cross(c, s), d, t');
      Quotient(Cross(c, r), d, u');
    }
  }

  /** With a non-zero determinant the parameters are Cramer's, so the test is exact. */
  lemma CrossingSegmentsExact(ps1: Vec, pe1: Vec, ps2: Vec, pe2: Vec)
    requires Cross(Sub(ps2, ps1), Sub(pe1, ps1)) != 0.0 && Cross(Sub(pe1, ps1), Sub(pe2, ps2)) != 0.0
    ensures DoLinesIntersect(ps1, pe1, ps2, pe2) <==> SegmentsMeet(ps1, pe1, ps2, pe2)
  {
    CrossingTest(ps1, pe1, ps2, pe2);
    CrossingMeet(ps1, pe1, ps2, pe2);
  }

  /**
   * Away from the collinear case the test is exact: `DoLinesIntersect` holds iff the closed
   * segments share a point (parallel, non-collinear segments share none).
   */
  lemma DoLinesIntersectExact(ps1: Vec, pe1: Vec, ps2: Vec, pe2: Vec)
    requires Cross(Sub(ps2, ps1), Sub(pe1, ps1)) != 0.0
    ensures DoLinesIntersect(ps1, pe1, ps2, pe2) <==> SegmentsMeet(ps1, pe1, ps2, pe2)
  {
    if Cross(Sub(pe1, ps1), Sub(pe2, ps2)) == 0.0 {
      ParallelSegmentsApart(ps1, pe1, ps2, pe2);
    } else {
      CrossingSegmentsExact(ps1, pe1, ps2, pe2);
    }
  }

  lemma UnitQuotient(a: real, b: real)
    requires (0.0 <= a < b) || (b <= a < 0.0)
    ensures 0.0 <= a / b <= 1.0
  {
    var q := a / b;
    assert q * b == a;
  }

  /** `c` is parallel to `r` and `r.x != 0`: `c` is `r` scaled by `c.x / r.x`. */
  lemma ParallelByX(c: Vec, r: Vec)
    requires Cross(c, r) == 0.0 && r.x != 0.0
    ensures c == Scale(r, c.x / r.x)
  {
    var t := c.x / r.x;
    assert t * r.x == c.x;
    assert c.y * r.x == t * r.y * r.x;
    Cancel(c.y, t * r.y, r.x);
  }

  lemma ParallelByY(c: Vec, r: Vec)
    requires Cross(c, r) == 0.0 && r.y != 0.0
    ensures c == Scale(r, c.y / r.y)
  {
    var t := c.y / r.y;
    assert t * r.y == c.y;
    assert c.x * r.y == t * r.x * r.y;
    Cancel(c.x, t * r.x, r.y);
  }

  /** Every reported intersection is real: the two closed segments do share a point. */
  lemma DoLinesIntersectSound(ps1: Vec, pe1: Vec, ps2: Vec, pe2: Vec)
    ensures DoLinesIntersect(ps1, pe1, ps2, pe2) ==> SegmentsMeet(ps1, pe1, ps2, pe2)
  {
    var c, r := Sub(ps2, ps1), Sub(pe1, ps1);
    if Cross(c, r) != 0.0 {
      DoLinesIntersectExact(ps1, pe1, ps2, pe2);
    } else if DoLinesIntersect(ps1, pe1, ps2, pe2) {
      var t: real;
      if (ps2.x - ps1.x < 0.0) != (ps2.x - pe1.x < 0.0) {
        ParallelByX(c, r);
        t := c.x / r.x;
        UnitQuotient(c.x, r.x);
      } else {
        ParallelByY(c, r);
        t := c.y / r.y;
        UnitQuotient(c.y, r.y);
      }
      assert PointAt(ps1, pe1, t) == ps2 == PointAt(ps2, pe2, 0.0);
      assert Meet(ps1, pe1, ps2, pe2, t, 0.0);
    }
  }

  lemma CollinearBranch(ps1: Vec, pe1: Vec, ps2: Vec, pe2: Vec)
    requires Cross(Sub(ps2, ps1), Sub(pe1, ps1)) == 0.0
    ensures DoLinesIntersect(ps1, pe1, ps2, pe2)
        == (((ps2.x - ps1.x < 0.0) != (ps2.x - pe1.x < 0.0)) || ((ps2.y - ps1.y < 0.0) != (ps2.y - pe1.y < 0.0)))
  {
  }

  lemma MulPositive(x: real, y: real)
    requires x > 0.0 && y > 0.0
    ensures x * y > 0.0
  {
  }

  lemma MulNegative(x: real, y: real)
    requires x < 0.0 && y > 0.0
    ensures x * y < 0.0
  {
  }

  /** A point strictly inside `[a, e]` (or `[e, a]`) is above one end and below the other. */
  lemma StrictBetween(a: real, e: real, p: real, t: real)
    requires 0.0 < t < 1.0 && a != e && p == a + (e - a) * t
    ensures (p - a < 0.0) != (p - e < 0.0)
  {
    var b := e - a;
    var bt := b * t;
    assert p - a == bt && p - e == bt - b;
    assert b * (1.0 - t) == b - bt;
    if b > 0.0 {
      MulPositive(b, t);
      MulPositive(b, 1.0 - t);
    } else {
      MulNegative(b, t);
      MulNegative(b, 1.0 - t);
    }
  }

  /**
   * In the collinear case the test looks at `ps2` alone: it reports every `ps2` strictly inside
   * the first segment.
   */
  lemma DoLinesIntersectCollinear(ps1: Vec, pe1: Vec, ps2: Vec, pe2: Vec, t: real)
    requires ps1 != pe1 && 0.0 < t < 1.0 && ps2 == PointAt(ps1, pe1, t)
    ensures Cross(Sub(ps2, ps1), Sub(pe1, ps1)) == 0.0
    ensures DoLinesIntersect(ps1, pe1, ps2, pe2)
  {
    InsidePoint(ps1, pe1, t);
    CollinearBranch(ps1, pe1, ps2, pe2);
  }

  /** A point strictly inside a segment lies on its line and strictly between its ends in x or in y. */
  lemma InsidePoint(ps1: Vec, pe1: Vec, t: real)
    requires ps1 != pe1 && 0.0 < t < 1.0
    ensures var p := PointAt(ps1, pe1, t);
      && Cross(Sub(p, ps1), Sub(pe1, ps1)) == 0.0
      && (((p.x - ps1.x < 0.0) != (p.x - pe1.x < 0.0)) || ((p.y - ps1.y < 0.0) != (p.y - pe1.y < 0.0)))
  {
    var r := Sub(pe1, ps1);
    var p := PointAt(ps1, pe1, t);
    assert Sub(p, ps1) == Scale(r, t);
    assert (r.x * t) * r.y == (r.y * t) * r.x;
    if ps1.x != pe1.x {
      StrictBetween(ps1.x, pe1.x, p.x, t);
    } else {
      StrictBetween(ps1.y, pe1.y, p.y, t);
    }
  }

  /**
   * The collinear branch misses overlaps in which `ps2` lies before the first segment: on a
   * common horizontal line, a second segment from `c` to `d` with `c < a < d` shares the point
   * (a, 0) with the first segment from `a` to `b`, yet the pair is not reported.
   * For instance (4,0)-(14,0) against (2,0)-(6,0).
   */
  lemma CollinearOverlapMissed(a: real, b: real, c: real, d: real)
    requires a < b && c < a < d
    ensures 0.0 < (a - c) / (d - c) < 1.0
    ensures Meet(Vec(a, 0.0), Vec(b, 0.0), Vec(c, 0.0), Vec(d, 0.0), 0.0, (a - c) / (d - c))
    ensures !DoLinesIntersect(Vec(a, 0.0), Vec(b, 0.0), Vec(c, 0.0), Vec(d, 0.0))
  {
    var u := (a - c) / (d - c);
    assert u * (d - c) == a - c;
    UnitQuotient(a - c, d - c);
    assert u != 0.0 && u != 1.0;
    assert PointAt(Vec(c, 0.0), Vec(d, 0.0), u) == Vec(a, 0.0);
    assert Cross(Sub(Vec(c, 0.0), Vec(a, 0.0)), Sub(Vec(b, 0.0), Vec(a, 0.0))) == 0.0;
  }

  /** The diagonals of the square with corners (0,0) and (k,k) are reported. */
  lemma SquareDiagonalsIntersect(k: real)
    requires k > 0.0
    ensures DoLinesIntersect(Vec(0.0, 0.0), Vec(k, k), Vec(0.0, k), Vec(k, 0.0))
  {
    var ps1, pe1, ps2, pe2 := Vec(0.0, 0.0), Vec(k, k), Vec(0.0, k), Vec(k, 0.0);
    assert k * k > 0.0;
    assert Cross(Sub(ps2, ps1), Sub(pe1, ps1)) == -(k * k);
    assert PointAt(ps1, pe1, 0.5) == Vec(k * 0.5, k * 0.5) == PointAt(ps2, pe2, 0.5);
    assert Meet(ps1, pe1, ps2, pe2, 0.5, 0.5);
    DoLinesIntersectExact(ps1, pe1, ps2, pe2);
  }

  // ----- LineIntersectionPoint -----

  /**
   * `LineIntersectionPoint`: the crossing point of the two lines from their `A·x + B·y = C`
   * forms. The flag is false when the determinant is zero; the point is then NaN or infinite
   * (`None`), but it is still produced.
   */
  function LineIntersectionPoint(ps1: Vec, pe1: Vec, ps2: Vec, pe2: Vec): (r: (bool, Option<Vec>))
    ensures r.0 <==> Cross(Sub(pe1, ps1), Sub(pe2, ps2)) != 0.0
    ensures r.1.Some? <==> r.0
  {
    var a1 := pe1.y - ps1.y;
    var b1 := ps1.x - pe1.x;
    var c1 := a1 * ps1.x + b1 * ps1.y;
    var a2 := pe2.y - ps2.y;
    var b2 := ps2.x - pe2.x;
    var c2 := a2 * ps2.x + b2 * ps2.y;
    var delta := a1 * b2 - a2 * b1;
    assert delta == Cross(Sub(pe1, ps1), Sub(pe2, ps2));
    if delta == 0.0 then (false, None)
    else (true, Some(Vec((b2 * c1 - b1 * c2) / delta, (a1 * c2 - a2 * c1) / delta)))
  }

  /** `p` satisfies the line equation `A·x + B·y = C` of the line through `s` and `e`. */
  lemma LineEquation(s: Vec, e: Vec, p: Vec)
    ensures OnLine(s, e, p) <==> (e.y - s.y) * p.x + (s.x - e.x) * p.y == (e.y - s.y) * s.x + (s.x - e.x) * s.y
  {
    calc {
      Cross(Sub(e, s), Sub(p, s));
      (e.x - s.x) * (p.y - s.y) - (e.y - s.y) * (p.x - s.x);
      -(((e.y - s.y) * p.x + (s.x - e.x) * p.y) - ((e.y - s.y) * s.x + (s.x - e.x) * s.y));
    }
  }

  /** Cramer's rule solves `a1·x + b1·y = c1`, `a2·x + b2·y = c2` when the determinant is non-zero. */
  lemma CramerSolves(a1: real, b1: real, c1: real, a2: real, b2: real, c2: real, x: real, y: real)
    requires a1 * b2 - a2 * b1 != 0.0
    requires x == (b2 * c1 - b1 * c2) / (a1 * b2 - a2 * b1) && y == (a1 * c2 - a2 * c1) / (a1 * b2 - a2 * b1)
    ensures a1 * x + b1 * y == c1 && a2 * x + b2 * y == c2
  {
    var delta := a1 * b2 - a2 * b1;
    assert x * delta == b2 * c1 - b1 * c2 && y * delta == a1 * c2 - a2 * c1;
    calc {
      (a1 * x + b1 * y) * delta;
      a1 * (x * delta) + b1 * (y * delta);
      a1 * (b2 * c1 - b1 * c2) + b1 * (a1 * c2 - a2 * c1);
      c1 * delta;
    }
    Cancel(a1 * x + b1 * y, c1, delta);
    calc {
      (a2 * x + b2 * y) * delta;
      a2 * (x * delta) + b2 * (y * delta);
      a2 * (b2 * c1 - b1 * c2) + b2 * (a1 * c2 - a2 * c1);
      c2 * delta;
    }
    Cancel(a2 * x + b2 * y, c2, delta);
  }

  /** A homogeneous system with a non-zero determinant has only the zero solution. */
  lemma HomogeneousZero(a1: real, b1: real, a2: real, b2: real, x: real, y: real)
    requires a1 * b2 - a2 * b1 != 0.0
    requires a1 * x + b1 * y == 0.0 && a2 * x + b2 * y == 0.0
    ensures x == 0.0 && y == 0.0
  {
    assert x * (a1 * b2 - a2 * b1) == b2 * (a1 * x + b1 * y) - b1 * (a2 * x + b2 * y);
    assert y * (a1 * b2 - a2 * b1) == a1 * (a2 * x + b2 * y) - a2 * (a1 * x + b1 * y);
  }

  /** A defined crossing point lies on both lines. */
  lemma IntersectionOnBothLines(ps1: Vec, pe1: Vec, ps2: Vec, pe2: Vec)
    ensures var r := LineIntersectionPoint(ps1, pe1, ps2, pe2);
            r.1.Some? ==> OnLine(ps1, pe1, r.1.value) && OnLine(ps2, pe2, r.1.value)
  {
    var r := LineIntersectionPoint(ps1, pe1, ps2, pe2);
    if r.1.Some? {
      var p := r.1.value;
      CrossingSolves(ps1, pe1, ps2, pe2);
      LineEquation(ps1, pe1, p);
      LineEquation(ps2, pe2, p);
    }
  }

  /** The crossing point satisfies both line equations. */
  lemma CrossingSolves(ps1: Vec, pe1: Vec, ps2: Vec, pe2: Vec)
    requires LineIntersectionPoint(ps1, pe1, ps2, pe2).1.Some?
    ensures var p := LineIntersectionPoint(ps1, pe1, ps2, pe2).1.value;
            && (pe1.y - ps1.y) * p.x + (ps1.x - pe1.x) * p.y == (pe1.y - ps1.y) * ps1.x + (ps1.x - pe1.x) * ps1.y
            && (pe2.y - ps2.y) * p.x + (ps2.x - pe2.x) * p.y == (pe2.y - ps2.y) * ps2.x + (ps2.x - pe2.x) * ps2.y
  {
    var a1, b1 := pe1.y - ps1.y, ps1.x - pe1.x;
    var a2, b2 := pe2.y - ps2.y, ps2.x - pe2.x;
    var p := LineIntersectionPoint(ps1, pe1, ps2, pe2).1.value;
    CramerSolves(a1, b1, a1 * ps1.x + b1 * ps1.y, a2, b2, a2 * ps2.x + b2 * ps2.y, p.x, p.y);
  }

  /** A defined crossing point is the only point the two lines have in common. */
  lemma IntersectionUnique(ps1: Vec, pe1: Vec, ps2: Vec, pe2: Vec, q: Vec)
    requires OnLine(ps1, pe1, q) && OnLine(ps2, pe2, q)
    ensures var r := LineIntersectionPoint(ps1, pe1, ps2, pe2);
            r.1.Some? ==> r.1.value == q
  {
    var r := LineIntersectionPoint(ps1, pe1, ps2, pe2);
    if r.1.Some? {
      var a1, b1 := pe1.y - ps1.y, ps1.x - pe1.x;
      var a2, b2 := pe2.y - ps2.y, ps2.x - pe2.x;
      IntersectionOnBothLines(ps1, pe1, ps2, pe2);
      var p := r.1.value;
      LineEquation(ps1, pe1, p);
      LineEquation(ps2, pe2, p);
      LineEquation(ps1, pe1, q);
      LineEquation(ps2, pe2, q);
      assert a1 * (p.x - q.x) + b1 * (p.y - q.y) == 0.0;
      assert a2 * (p.x - q.x) + b2 * (p.y - q.y) == 0.0;
      HomogeneousZero(a1, b1, a2, b2, p.x - q.x, p.y - q.y);
    }
  }

  /** The diagonals of the square with corners (0,0) and (k,k) cross at its center, (5,5) for k = 10. */
  lemma SquareDiagonalsCrossAtCenter(k: real)
    requires k > 0.0
    ensures LineIntersectionPoint(Vec(0.0, 0.0), Vec(k, k), Vec(0.0, k), Vec(k, 0.0)) == (true, Some(Vec(k / 2.0, k / 2.0)))
  {
    var ps1, pe1, ps2, pe2 := Vec(0.0, 0.0), Vec(k, k), Vec(0.0, k), Vec(k, 0.0);
    var q := Vec(k / 2.0, k / 2.0);
    assert k * k > 0.0;
    assert Cross(Sub(pe1, ps1), Sub(pe2, ps2)) == -2.0 * (k * k);
    assert OnLine(ps1, pe1, q);
    assert Cross(Sub(pe2, ps2), Sub(q, ps2)) == k * (k / 2.0 - k) + k * (k / 2.0);
    assert OnLine(ps2, pe2, q);
    IntersectionUnique(ps1, pe1, ps2, pe2, q);
  }

  // ----- LineIntersection.PolygonCollision -----

  /**
   * The segment pair (a0,a1), (b0,b1) is tested and reported: neither segment starts at the
   * origin (an empty `PointF` is "no previous point"), the end points differ, the start points
   * differ, and `DoLinesIntersect` holds.
   */
  predicate Reported(a0: Vec, a1: Vec, b0: Vec, b1: Vec)
  {
    !IsEmpty(a0) && !IsEmpty(b0) && a1 != b1 && a0 != b0 && DoLinesIntersect(a0, a1, b0, b1)
  }

  /** The point appended for a reported pair; the arguments are passed end point first. */
  function CrossingPoint(a0: Vec, a1: Vec, b0: Vec, b1: Vec): Option<Vec>
  {
    LineIntersectionPoint(a1, a0, b1, b0).1
  }

  /** The points found by the inner `foreach` over the first `m` vertices of B against segment a0-a1. */
  function InnerHits(a0: Vec, a1: Vec, B: seq<Vec>, m: nat): seq<Option<Vec>>
    requires m <= |B|
  {
    if m < 2 then []
    else
      InnerHits(a0, a1, B, m - 1)
      + (if Reported(a0, a1, B[m - 2], B[m - 1]) then [CrossingPoint(a0, a1, B[m - 2], B[m - 1])] else [])
  }

  /** The points found by the outer `foreach` over the first `m` vertices of A. */
  function OuterHits(A: seq<Vec>, B: seq<Vec>, m: nat): seq<Option<Vec>>
    requires m <= |A|
  {
    if m < 2 then [] else OuterHits(A, B, m - 1) + InnerHits(A[m - 2], A[m - 1], B, |B|)
  }

  function Hits(A: seq<Vec>, B: seq<Vec>): seq<Option<Vec>>
  {
    OuterHits(A, B, |A|)
  }

  /** `LineIntersection.PolygonCollision`: every consecutive segment of A against every consecutive segment of B. */
  method PolygonCollision(ptsA: seq<Vec>, ptsB: seq<Vec>) returns (result: PolygonCollisionResult)
    ensures result.lineIntersectingPoints == Some(Hits(ptsA, ptsB))
    ensures result.isIntersecting == result.onPath == (|Hits(ptsA, ptsB)| > 0)
    ensures !result.willIntersect && result.minimumTranslationVector == Some(Zero)
    ensures result.collidor.None? && result.collidee.None? && result.rayCastingResult == Inside
  {
    var points: seq<Option<Vec>> := [];
    var intersecting := false;
    var previousA := Zero;
    var i := 0;
    while i < |ptsA|
      invariant 0 <= i <= |ptsA|
      invariant previousA == if i == 0 then Zero else ptsA[i - 1]
      invariant points == OuterHits(ptsA, ptsB, i)
      invariant intersecting == (|points| > 0)
    {
      var ptsa := ptsA[i];
      if !IsEmpty(previousA) {
        var previousB := Zero;
        var j := 0;
        while j < |ptsB|
          invariant 0 <= j <= |ptsB|
          invariant previousB == if j == 0 then Zero else ptsB[j - 1]
          invariant points == OuterHits(ptsA, ptsB, i) + InnerHits(previousA, ptsa, ptsB, j)
          invariant intersecting == (|points| > 0)
        {
          var ptsb := ptsB[j];
          if !IsEmpty(previousB) {
            if ptsa != ptsb && previousA != previousB {
              var blurp := DoLinesIntersect(previousA, ptsa, previousB, ptsb);
              if blurp {
                intersecting := true;
                var (_, intersection) := LineIntersectionPoint(ptsa, previousA, ptsb, previousB);
                points := points + [intersection];
              }
            }
          }
          previousB := ptsb;
          j := j + 1;
        }
      } else {
        NoHitsFromOrigin(previousA, ptsa, ptsB, |ptsB|);
      }
      previousA := ptsa;
      i := i + 1;
    }
    result := Default.(isIntersecting := intersecting, onPath := intersecting, lineIntersectingPoints := Some(points));
  }

  lemma {:induction false} NoHitsFromOrigin(a0: Vec, a1: Vec, B: seq<Vec>, m: nat)
    requires m <= |B| && IsEmpty(a0)
    ensures InnerHits(a0, a1, B, m) == []
  {
    if m >= 2 {
      NoHitsFromOrigin(a0, a1, B, m - 1);
    }
  }

  /** Pair (i, j) names segment A[i-1]-A[i] against B[j-1]-B[j], reported with point `x`. */
  predicate HitAt(A: seq<Vec>, B: seq<Vec>, i: int, j: int, x: Option<Vec>)
  {
    1 <= i < |A| && 1 <= j < |B| && Reported(A[i - 1], A[i], B[j - 1], B[j]) && x == CrossingPoint(A[i - 1], A[i], B[j - 1], B[j])
  }

  lemma {:induction false} InnerHitsMembers(A: seq<Vec>, B: seq<Vec>, i: int, m: nat, x: Option<Vec>)
    requires 1 <= i < |A| && m <= |B|
    ensures x in InnerHits(A[i - 1], A[i], B, m) <==> exists j :: j < m && HitAt(A, B, i, j, x)
  {
    if m >= 2 {
      InnerHitsMembers(A, B, i, m - 1, x);
      if HitAt(A, B, i, m - 1, x) {
        assert x in InnerHits(A[i - 1], A[i], B, m);
      }
    }
  }

  lemma {:induction false} OuterHitsMembers(A: seq<Vec>, B: seq<Vec>, m: nat, x: Option<Vec>)
    requires m <= |A|
    ensures x in OuterHits(A, B, m) <==> exists i, j :: i < m && HitAt(A, B, i, j, x)
  {
    if m >= 2 {
      OuterHitsMembers(A, B, m - 1, x);
      InnerHitsMembers(A, B, m - 1, |B|, x);
      var earlier := OuterHits(A, B, m - 1);
      var last := InnerHits(A[m - 2], A[m - 1], B, |B|);
      assert OuterHits(A, B, m) == earlier + last;
      if x in last {
        var j :| j < |B| && HitAt(A, B, m - 1, j, x);
        assert m - 1 < m && HitAt(A, B, m - 1, j, x);
      }
      if exists i, j :: i < m && HitAt(A, B, i, j, x) {
        var i, j :| i < m && HitAt(A, B, i, j, x);
        if i < m - 1 {
          assert x in earlier;
        } else {
          assert j < |B| && HitAt(A, B, m - 1, j, x);
          assert x in last;
        }
      }
    }
  }

  /**
   * A point is reported iff it comes from a consecutive pair of A against a consecutive pair of
   * B: no closing last-to-first edge is tested, no segment starts at the origin, and pairs with
   * equal end points or equal start points are skipped.
   */
  lemma HitsMembers(A: seq<Vec>, B: seq<Vec>, x: Option<Vec>)
    ensures x in Hits(A, B) <==> exists i, j :: HitAt(A, B, i, j, x)
  {
    OuterHitsMembers(A, B, |A|, x);
  }

  /** Each point reported comes from two segments that do meet, and a defined point lies on both their lines. */
  lemma HitsAreCrossings(A: seq<Vec>, B: seq<Vec>, i: int, j: int, x: Option<Vec>)
    requires HitAt(A, B, i, j, x)
    ensures SegmentsMeet(A[i - 1], A[i], B[j - 1], B[j])
    ensures x.Some? ==> OnLine(A[i - 1], A[i], x.value) && OnLine(B[j - 1], B[j], x.value)
  {
    DoLinesIntersectSound(A[i - 1], A[i], B[j - 1], B[j]);
    IntersectionOnBothLines(A[i], A[i - 1], B[j], B[j - 1]);
    if x.Some? {
      OnLineReversed(A[i - 1], A[i], x.value);
      OnLineReversed(B[j - 1], B[j], x.value);
    }
  }

  lemma OnLineReversed(s: Vec, e: Vec, p: Vec)
    ensures OnLine(e, s, p) <==> OnLine(s, e, p)
  {
    var a, b := p.x - s.x, p.y - s.y;
    var u, w := e.x - s.x, e.y - s.y;
    assert Cross(Sub(e, s), Sub(p, s)) == u * b - w * a;
    assert Cross(Sub(s, e), Sub(p, e)) == (-u) * (b - w) - (-w) * (a - u);
    assert (-u) * (b - w) - (-w) * (a - u) == -(u * b - w * a);
  }

  lemma {:induction false} InnerHitsCount(a0: Vec, a1: Vec, B: seq<Vec>, m: nat)
    requires 1 <= m <= |B|
    ensures |InnerHits(a0, a1, B, m)| <= m - 1
  {
    if m >= 2 {
      InnerHitsCount(a0, a1, B, m - 1);
    }
  }

  lemma {:induction false} OuterHitsCount(A: seq<Vec>, B: seq<Vec>, m: nat)
    requires 1 <= m <= |A| && 1 <= |B|
    ensures |OuterHits(A, B, m)| <= (m - 1) * (|B| - 1)
  {
    if m >= 2 {
      OuterHitsCount(A, B, m - 1);
      InnerHitsCount(A[m - 2], A[m - 1], B, |B|);
      assert (m - 2) * (|B| - 1) + (|B| - 1) == (m - 1) * (|B| - 1);
    }
  }

  lemma {:induction false} OuterHitsShort(A: seq<Vec>, B: seq<Vec>, m: nat)
    requires m <= |A| && |B| <= 1
    ensures OuterHits(A, B, m) == []
  {
    if m >= 2 {
      OuterHitsShort(A, B, m - 1);
    }
  }

  /** At most one point per pair of consecutive segments, and none when either side has no segment. */
  lemma HitsCount(A: seq<Vec>, B: seq<Vec>)
    ensures |A| >= 1 && |B| >= 1 ==> |Hits(A, B)| <= (|A| - 1) * (|B| - 1)
    ensures |A| <= 1 || |B| <= 1 ==> Hits(A, B) == []
  {
    if |A| >= 1 && |B| >= 1 {
      OuterHitsCount(A, B, |A|);
    }
    if |B| <= 1 {
      OuterHitsShort(A, B, |A|);
    }
  }

  /** A diagonal that starts at the origin is never tested, whatever it crosses. */
  lemma OriginStartsNoSegment()
    ensures Hits([Vec(0.0, 0.0), Vec(10.0, 10.0)], [Vec(0.0, 10.0), Vec(10.0, 0.0)]) == []
  {
    var A, B := [Vec(0.0, 0.0), Vec(10.0, 10.0)], [Vec(0.0, 10.0), Vec(10.0, 0.0)];
    NoHitsFromOrigin(A[0], A[1], B, 2);
    assert OuterHits(A, B, 2) == OuterHits(A, B, 1) + InnerHits(A[0], A[1], B, |B|);
  }

  // ----- RayCasting and IsPointInPolygon -----

  /**
   * The edge from `b` to `a` crosses the horizontal ray from `p` to the right. The division is
   * only reached when the edge straddles `p.y`, so its denominator is never zero.
   */
  predicate EdgeCrosses(a: Vec, b: Vec, p: Vec)
  {
    ((a.y <= p.y && p.y < b.y) || (b.y <= p.y && p.y < a.y))
    && p.x < Intercept(a, b, p.y)
  }

  /** The X coordinate at which the line through `a` and `b` reaches height `py`. */
  function Intercept(a: Vec, b: Vec, py: real): real
    requires a.y != b.y
  {
    (b.x - a.x) * (py - a.y) / (b.y - a.y) + a.x
  }

  /** Edge i of the polygon runs from the previous vertex (cyclically) to vertex i. */
  predicate CrossesAt(poly: seq<Vec>, p: Vec, i: nat)
    requires i < |poly|
  {
    EdgeCrosses(poly[i], poly[if i == 0 then |poly| - 1 else i - 1], p)
  }

  /** The number of crossing edges among the first `m`. */
  function CrossingCount(poly: seq<Vec>, p: Vec, m: nat): nat
    requires m <= |poly|
  {
    if m == 0 then 0 else CrossingCount(poly, p, m - 1) + (if CrossesAt(poly, p, m - 1) then 1 else 0)
  }

  function Crossings(poly: seq<Vec>, p: Vec): nat
  {
    CrossingCount(poly, p, |poly|)
  }

  /** `IsPointInPolygon`: the crossing count, and its parity as the inside flag. */
  method IsPointInPolygon(poly: seq<Vec>, point: Vec) returns (c: bool, intersections: nat)
    ensures intersections == Crossings(poly, point)
    ensures c <==> intersections % 2 == 1
  {
    intersections := 0;
    c := false;
    var i := 0;
    var j := |poly| - 1;
    while i < |poly|
      invariant 0 <= i <= |poly|
      invariant j == if i == 0 then |poly| - 1 else i - 1
      invariant intersections == CrossingCount(poly, point, i)
      invariant c <==> intersections % 2 == 1
    {
      if EdgeCrosses(poly[i], poly[j], point) {
        c := !c;
        intersections := intersections + 1;
      }
      j := i;
      i := i + 1;
    }
  }

  lemma {:induction false} NoCrossingsPrefix(poly: seq<Vec>, p: Vec, m: nat)
    requires m <= |poly|
    requires forall k :: 0 <= k < m ==> !CrossesAt(poly, p, k)
    ensures CrossingCount(poly, p, m) == 0
  {
    if m > 0 {
      NoCrossingsPrefix(poly, p, m - 1);
    }
  }

  /** A point at or above every vertex, or strictly below every vertex, crosses no edge. */
  lemma OutsideVerticalRange(poly: seq<Vec>, p: Vec)
    requires (forall k :: 0 <= k < |poly| ==> poly[k].y <= p.y) || (forall k :: 0 <= k < |poly| ==> p.y < poly[k].y)
    ensures Crossings(poly, p) == 0
  {
    NoCrossingsPrefix(poly, p, |poly|);
  }

  lemma MulDiv(a: real, b: real, c: real)
    requires c != 0.0
    ensures a * b / c == a * (b / c)
  {
    var q := b / c;
    assert q * c == b;
    assert (a * q) * c == a * b;
    Quotient(a * b, c, a * q);
  }

  lemma MulUnit(k: real, t: real)
    requires 0.0 <= t <= 1.0
    ensures k >= 0.0 ==> 0.0 <= k * t <= k
    ensures k <= 0.0 ==> k <= k * t <= 0.0
  {
    assert k - k * t == k * (1.0 - t);
  }

  /** The ray meets a straddling edge between the X coordinates of its ends. */
  lemma InterceptBetween(a: Vec, b: Vec, py: real)
    requires (a.y <= py < b.y) || (b.y <= py < a.y)
    ensures (a.x <= Intercept(a, b, py) <= b.x) || (b.x <= Intercept(a, b, py) <= a.x)
  {
    var t := (py - a.y) / (b.y - a.y);
    UnitQuotient(py - a.y, b.y - a.y);
    MulDiv(b.x - a.x, py - a.y, b.y - a.y);
    MulUnit(b.x - a.x, t);
  }

  lemma EdgeRightOf(a: Vec, b: Vec, p: Vec)
    requires a.x <= p.x && b.x <= p.x
    ensures !EdgeCrosses(a, b, p)
  {
    if (a.y <= p.y && p.y < b.y) || (b.y <= p.y && p.y < a.y) {
      InterceptBetween(a, b, p.y);
    }
  }

  /** A point at or to the right of every vertex crosses no edge. */
  lemma RightOfAllVertices(poly: seq<Vec>, p: Vec)
    requires forall k :: 0 <= k < |poly| ==> poly[k].x <= p.x
    ensures Crossings(poly, p) == 0
  {
    forall i | 0 <= i < |poly| ensures !CrossesAt(poly, p, i) {
      EdgeRightOf(poly[i], poly[if i == 0 then |poly| - 1 else i - 1], p);
    }
    NoCrossingsPrefix(poly, p, |poly|);
  }

  lemma CrossesTranslate(poly: seq<Vec>, p: Vec, v: Vec, i: nat)
    requires i < |poly|
    ensures CrossesAt(Translate(poly, v), Add(p, v), i) == CrossesAt(poly, p, i)
  {
    var j := if i == 0 then |poly| - 1 else i - 1;
    EdgeCrossesTranslate(poly[i], poly[j], p, v);
  }

  lemma EdgeCrossesTranslate(a: Vec, b: Vec, p: Vec, v: Vec)
    ensures EdgeCrosses(Add(a, v), Add(b, v), Add(p, v)) == EdgeCrosses(a, b, p)
  {
    var a', b', p' := Add(a, v), Add(b, v), Add(p, v);
    assert b'.x - a'.x == b.x - a.x && p'.y - a'.y == p.y - a.y && b'.y - a'.y == b.y - a.y;

  }

  lemma {:induction false} CrossingCountTranslate(poly: seq<Vec>, p: Vec, v: Vec, m: nat)
    requires m <= |poly|
    ensures CrossingCount(Translate(poly, v), Add(p, v), m) == CrossingCount(poly, p, m)
  {
    if m > 0 {
      CrossingCountTranslate(poly, p, v, m - 1);
      CrossesTranslate(poly, p, v, m - 1);
    }
  }

  /** Moving the polygon and the point together leaves the crossing count alone. */
  lemma CrossingsTranslate(poly: seq<Vec>, p: Vec, v: Vec)
    ensures Crossings(Translate(poly, v), Add(p, v)) == Crossings(poly, p)
  {
    CrossingCountTranslate(poly, p, v, |poly|);
  }

  /** Some vertex among the first `m` of A has a crossing count against B of the given parity. */
  function HasParity(A: seq<Vec>, B: seq<Vec>, parity: nat, m: nat): bool
    requires m <= |A|
  {
    m > 0 && (HasParity(A, B, parity, m - 1) || Crossings(B, A[m - 1]) % 2 == parity)
  }

  lemma {:induction false} HasParityMeaning(A: seq<Vec>, B: seq<Vec>, parity: nat, m: nat)
    requires m <= |A|
    ensures HasParity(A, B, parity, m) <==> exists k :: 0 <= k < m && Crossings(B, A[k]) % 2 == parity
  {
    if m > 0 {
      HasParityMeaning(A, B, parity, m - 1);
    }
  }

  /** The value `RayCasting` returns for outer vertices A against polygon B. */
  function RayClass(A: seq<Vec>, B: seq<Vec>): BoundCrossing
  {
    var hasEven := HasParity(A, B, 0, |A|);
    var hasOdd := HasParity(A, B, 1, |A|);
    if hasEven && !hasOdd then Outside
    else if !hasEven && hasOdd then Inside
    else MixedCrossing
  }

  /**
   * Outside iff A has a vertex and every vertex has an even count against B; inside iff A has
   * a vertex and every count is odd; mixed otherwise, which includes an empty A.
   */
  lemma RayClassMeaning(A: seq<Vec>, B: seq<Vec>)
    ensures RayClass(A, B) == Outside <==> |A| > 0 && forall k :: 0 <= k < |A| ==> Crossings(B, A[k]) % 2 == 0
    ensures RayClass(A, B) == Inside <==> |A| > 0 && forall k :: 0 <= k < |A| ==> Crossings(B, A[k]) % 2 == 1
    ensures RayClass(A, B) == MixedCrossing <==>
              |A| == 0 || ((exists k :: 0 <= k < |A| && Crossings(B, A[k]) % 2 == 0) && (exists k :: 0 <= k < |A| && Crossings(B, A[k]) % 2 == 1))
  {
    HasParityMeaning(A, B, 0, |A|);
    HasParityMeaning(A, B, 1, |A|);
    if |A| > 0 {
      assert Crossings(B, A[0]) % 2 == 0 || Crossings(B, A[0]) % 2 == 1;
    }
  }

  /** `RayCasting(ptsA, ptsB, out maxCrossings)`: classifies A's vertices against B and reports the largest count. */
  method RayCastingWithCount(ptsA: seq<Vec>, ptsB: seq<Vec>) returns (classification: BoundCrossing, maxCrossings: nat)
    ensures classification == RayClass(ptsA, ptsB)
    ensures forall k :: 0 <= k < |ptsA| ==> Crossings(ptsB, ptsA[k]) <= maxCrossings
    ensures maxCrossings == 0 || exists k :: 0 <= k < |ptsA| && Crossings(ptsB, ptsA[k]) == maxCrossings
  {
    maxCrossings := 0;
    var hasOddIntersects, hasEvenIntersects := false, false;
    var i := 0;
    while i < |ptsA|
      invariant 0 <= i <= |ptsA|
      invariant hasEvenIntersects == HasParity(ptsA, ptsB, 0, i)
      invariant hasOddIntersects == HasParity(ptsA, ptsB, 1, i)
      invariant forall k :: 0 <= k < i ==> Crossings(ptsB, ptsA[k]) <= maxCrossings
      invariant maxCrossings == 0 || exists k :: 0 <= k < i && Crossings(ptsB, ptsA[k]) == maxCrossings
    {
      var intersect, intersections := IsPointInPolygon(ptsB, ptsA[i]);
      if intersections % 2 == 0 {
        hasEvenIntersects := true;
      }
      if intersections % 2 == 1 {
        hasOddIntersects := true;
      }
      if intersections > maxCrossings {
        maxCrossings := intersections;
      }
      i := i + 1;
    }
    if hasEvenIntersects && !hasOddIntersects {
      classification := Outside;
    } else if !hasEvenIntersects && hasOddIntersects {
      classification := Inside;
    } else {
      classification := MixedCrossing;
    }
  }

  /** `RayCasting(ptsA, ptsB)`: the overload that discards the count. */
  method RayCasting(ptsA: seq<Vec>, ptsB: seq<Vec>) returns (classification: BoundCrossing)
    ensures classification == RayClass(ptsA, ptsB)
  {
    var maxCrossings;
    classification, maxCrossings := RayCastingWithCount(ptsA, ptsB);
  }
}
