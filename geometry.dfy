/**
 * The `Vector` struct of Source/SvgCollision.cs (also standing in for `PointF`,
 * which has the same two coordinates), with `float` modelled as `real`.
 */
module Geometry {
  import opened Wrappers

  datatype Vec = Vec(x: real, y: real)

  const Zero := Vec(0.0, 0.0)

  /** `PointF.IsEmpty`: both coordinates are zero. */
  predicate IsEmpty(p: Vec) { p.x == 0.0 && p.y == 0.0 }

  function Add(a: Vec, b: Vec): Vec { Vec(a.x + b.x, a.y + b.y) }
  function Sub(a: Vec, b: Vec): Vec { Vec(a.x - b.x, a.y - b.y) }
  function Neg(a: Vec): Vec { Vec(-a.x, -a.y) }
  function Scale(a: Vec, k: real): Vec { Vec(a.x * k, a.y * k) }
  function Dot(a: Vec, b: Vec): real { a.x * b.x + a.y * b.y }

  /** The z-component of the 2D cross product, as written out in `DoLinesIntersect`. */
  function Cross(a: Vec, b: Vec): real { a.x * b.y - a.y * b.x }

  /** The axis perpendicular to an edge, `new Vector(-edge.Y, edge.X)`. */
  function Perp(e: Vec): Vec { Vec(-e.y, e.x) }

  /** `Vector.Equals` and `operator ==`: coordinate-wise equality, which is value equality. */
  function Equals(a: Vec, b: Vec): (r: bool)
    ensures r <==> a == b
  {
    a.x == b.x && a.y == b.y
  }

  /**
   * `Vector.Normalize`: both coordinates divided by the magnitude, written as a product with
   * `recip(v)`, an abstract stand-in for `1 / Magnitude` (the square root is not computed). The
   * zero vector has magnitude 0, and 0 / 0 is NaN (`None`).
   */
  function Normalize(v: Vec, recip: Vec -> real): Option<Vec>
  {
    if v == Zero then None else Some(Scale(v, recip(v)))
  }

  /** `recip` behaves as one over a magnitude: positive on every non-zero vector. */
  ghost predicate IsReciprocalMagnitude(recip: Vec -> real)
  {
    forall v :: v != Zero ==> recip(v) > 0.0
  }

  /** `Math.Abs` on a `float`. */
  function Abs(x: real): (r: real)
    ensures r >= 0.0 && (r == x || r == -x)
  {
    if x < 0.0 then -x else x
  }

  /** The algebra of the vector operators that the collision code relies on. */
  lemma VectorLaws(a: Vec, b: Vec)
    ensures Add(Sub(a, b), b) == a && Sub(a, a) == Zero && Neg(Neg(a)) == a
    ensures Dot(Perp(a), a) == 0.0 && Cross(a, b) == -Cross(b, a)
  {
  }

  /** The dot product is symmetric. */
  lemma DotCommutes(a: Vec, b: Vec)
    ensures Dot(a, b) == Dot(b, a)
  {
  }

  /** The dot product is odd under negating its second argument. */
  lemma DotNeg(d: Vec, a: Vec)
    ensures Dot(d, Neg(a)) == -Dot(d, a)
  {
  }

  /** The dot product is additive in its second argument. */
  lemma DotAdd(a: Vec, p: Vec, v: Vec)
    ensures Dot(a, Add(p, v)) == Dot(a, p) + Dot(a, v)
  {
  }

  /** Scaling the first argument scales the dot product. */
  lemma DotScaled(axis: Vec, p: Vec, c: real)
    ensures Dot(Scale(axis, c), p) == c * Dot(axis, p)
  {
  }

  /** Every vertex moved by `v`, the effect of `Polygon.Offset`. */
  function Translate(ps: seq<Vec>, v: Vec): (r: seq<Vec>)
    ensures |r| == |ps| && forall i :: 0 <= i < |ps| ==> r[i] == Add(ps[i], v)
  {
    seq(|ps|, i requires 0 <= i < |ps| => Add(ps[i], v))
  }

  /** The wrapping edge list of `Polygon.BuildEdges`: `points[i+1] - points[i]`, the last one closing to `points[0]`. */
  function EdgesOf(ps: seq<Vec>): (r: seq<Vec>)
    ensures |r| == |ps|
  {
    seq(|ps|, i requires 0 <= i < |ps| => Sub(Next(ps, i), ps[i]))
  }

  /** The vertex that follows vertex `i` cyclically. */
  function Next(ps: seq<Vec>, i: nat): Vec
    requires i < |ps|
  {
    if i + 1 >= |ps| then ps[0] else ps[i + 1]
  }

  /** Translating a polygon does not change its edges. */
  lemma EdgesTranslate(ps: seq<Vec>, v: Vec)
    ensures EdgesOf(Translate(ps, v)) == EdgesOf(ps)
  {
    var t := Translate(ps, v);
    forall i | 0 <= i < |ps| ensures EdgesOf(t)[i] == EdgesOf(ps)[i] {
      assert EdgesOf(t)[i] == Sub(Next(t, i), t[i]);
    }
  }

  /** Translating by `v` and back by `-v` restores the vertices. */
  lemma TranslateInverse(ps: seq<Vec>, v: Vec)
    ensures Translate(Translate(ps, v), Neg(v)) == ps
  {
  }

  /** The coordinate sums accumulated by `Polygon.Center`, over the prefix of the vertex list. */
  function Sum(ps: seq<Vec>): Vec
  {
    if ps == [] then Zero else Add(Sum(ps[..|ps| - 1]), ps[|ps| - 1])
  }

  /** The arithmetic mean of the vertices; undefined (NaN) on an empty list. */
  function Mean(ps: seq<Vec>): (r: Option<Vec>)
    ensures r.Some? <==> |ps| > 0
  {
    if |ps| == 0 then None else Some(Shrink(Sum(ps), |ps| as real))
  }

  /** Both coordinates divided by `n`. */
  function Shrink(s: Vec, n: real): Vec
    requires n != 0.0
  {
    Vec(s.x / n, s.y / n)
  }

  lemma {:induction false} SumTranslate(ps: seq<Vec>, v: Vec)
    ensures Sum(Translate(ps, v)) == Add(Sum(ps), Scale(v, |ps| as real))
  {
    if ps != [] {
      var n := |ps|;
      var t := Translate(ps, v);
      var init := ps[..n - 1];
      assert t[..n - 1] == Translate(init, v);
      SumTranslate(init, v);
      assert Sum(t) == Add(Add(Sum(init), Scale(v, |init| as real)), Add(ps[n - 1], v));
      SumStep(Sum(init), ps[n - 1], v, |init| as real);
    }
  }

  lemma SumStep(s: Vec, p: Vec, v: Vec, k: real)
    ensures Add(Add(s, Scale(v, k)), Add(p, v)) == Add(Add(s, p), Scale(v, k + 1.0))
  {
  }

  lemma MeanShift(s: Vec, v: Vec, n: real)
    requires n > 0.0
    ensures Shrink(Add(s, Scale(v, n)), n) == Add(Shrink(s, n), v)
  {
    assert (s.x / n + v.x) * n == s.x + v.x * n;
    assert (s.y / n + v.y) * n == s.y + v.y * n;
  }

  /** The center of a translated polygon is the translated center. */
  lemma MeanTranslate(ps: seq<Vec>, v: Vec)
    requires |ps| > 0
    ensures Mean(Translate(ps, v)) == Some(Add(Mean(ps).value, v))
  {
    SumTranslate(ps, v);
    MeanShift(Sum(ps), v, |ps| as real);
  }
}
