/**
 * `SeparatingAxisTheorem` of Source/SvgCollision.cs: the separating-axis test for the
 * current overlap of two polygons and for their overlap while polygon A moves by a velocity.
 */
module SeparatingAxis {
  import opened Wrappers
  import opened Geometry
  import opened Polygons
  import opened CollisionResults

  /** The signed distance between `[minA, maxA]` and `[minB, maxB]`; positive exactly when they are disjoint. */
  function IntervalDistance(minA: real, maxA: real, minB: real, maxB: real): (d: real)
    ensures minA <= maxA && minB <= maxB ==> (d > 0.0 <==> maxA < minB || maxB < minA)
  {
    if minA < minB then minB - maxA else minA - maxB
  }

  // ----- projections onto an axis -----

  /** The least projection of the vertices onto `axis`, taken left to right as `ProjectPolygon` does. */
  function Lo(ps: seq<Vec>, axis: Vec): real
    requires |ps| > 0
  {
    if |ps| == 1 then Dot(axis, ps[0])
    else
      var m := Lo(ps[..|ps| - 1], axis);
      var d := Dot(axis, ps[|ps| - 1]);
      if d < m then d else m
  }

  /** The greatest projection of the vertices onto `axis`. */
  function Hi(ps: seq<Vec>, axis: Vec): real
    requires |ps| > 0
  {
    if |ps| == 1 then Dot(axis, ps[0])
    else
      var m := Hi(ps[..|ps| - 1], axis);
      var d := Dot(axis, ps[|ps| - 1]);
      if d > m then d else m
  }

  /** `Lo` and `Hi` bound every projection and are both attained. */
  lemma {:induction false} ProjectionBounds(ps: seq<Vec>, axis: Vec)
    requires |ps| > 0
    ensures Lo(ps, axis) <= Hi(ps, axis)
    ensures forall i :: 0 <= i < |ps| ==> Lo(ps, axis) <= Dot(axis, ps[i]) <= Hi(ps, axis)
    ensures exists i :: 0 <= i < |ps| && Dot(axis, ps[i]) == Lo(ps, axis)
    ensures exists i :: 0 <= i < |ps| && Dot(axis, ps[i]) == Hi(ps, axis)
  {
    var n := |ps|;
    if n > 1 {
      var init := ps[..n - 1];
      ProjectionBounds(init, axis);
      var i :| 0 <= i < |init| && Dot(axis, init[i]) == Lo(init, axis);
      var j :| 0 <= j < |init| && Dot(axis, init[j]) == Hi(init, axis);
      assert init[i] == ps[i] && init[j] == ps[j];
      var d := Dot(axis, ps[n - 1]);
      var iLo := if d < Lo(init, axis) then n - 1 else i;
      var iHi := if d > Hi(init, axis) then n - 1 else j;
      assert Dot(axis, ps[iLo]) == Lo(ps, axis);
      assert Dot(axis, ps[iHi]) == Hi(ps, axis);
      forall k | 0 <= k < n ensures Lo(ps, axis) <= Dot(axis, ps[k]) <= Hi(ps, axis) {
        if k < n - 1 {
          assert ps[k] == init[k];
        }
      }
    }
  }

  /** Every vertex of `P` projects strictly below every vertex of `Q`. */
  ghost predicate Below(P: seq<Vec>, Q: seq<Vec>, axis: Vec)
  {
    forall i, j :: 0 <= i < |P| && 0 <= j < |Q| ==> Dot(axis, P[i]) < Dot(axis, Q[j])
  }

  /** `axis` separates the vertex sets: one projects entirely below the other. */
  ghost predicate SeparatedOn(P: seq<Vec>, Q: seq<Vec>, axis: Vec)
  {
    Below(P, Q, axis) || Below(Q, P, axis)
  }

  lemma BelowBounds(P: seq<Vec>, Q: seq<Vec>, axis: Vec)
    requires |P| > 0 && |Q| > 0
    ensures Below(P, Q, axis) <==> Hi(P, axis) < Lo(Q, axis)
  {
    ProjectionBounds(P, axis);
    ProjectionBounds(Q, axis);
    if Below(P, Q, axis) {
      var i :| 0 <= i < |P| && Dot(axis, P[i]) == Hi(P, axis);
      var j :| 0 <= j < |Q| && Dot(axis, Q[j]) == Lo(Q, axis);
    }
  }

  /** The gap of the two projected intervals is positive exactly when the axis separates the polygons. */
  lemma GapSeparates(P: seq<Vec>, Q: seq<Vec>, axis: Vec)
    requires |P| > 0 && |Q| > 0
    ensures IntervalDistance(Lo(P, axis), Hi(P, axis), Lo(Q, axis), Hi(Q, axis)) > 0.0 <==> SeparatedOn(P, Q, axis)
  {
    ProjectionBounds(P, axis);
    ProjectionBounds(Q, axis);
    BelowBounds(P, Q, axis);
    BelowBounds(Q, P, axis);
  }

  // ----- the interval swept by polygon A -----

  /** The vertices of A at the start and at the end of its move by `velocity`. */
  function Swept(A: seq<Vec>, velocity: Vec): seq<Vec>
  {
    A + Translate(A, velocity)
  }

  /** The lower end of A's projection after `minA += velocityProjection` for a negative projection. */
  function SweptLo(A: seq<Vec>, axis: Vec, velocity: Vec): real
    requires |A| > 0
  {
    var vp := Dot(axis, velocity);
    if vp < 0.0 then Lo(A, axis) + vp else Lo(A, axis)
  }

  /** The upper end of A's projection after `maxA += velocityProjection` for a non-negative projection. */
  function SweptHi(A: seq<Vec>, axis: Vec, velocity: Vec): real
    requires |A| > 0
  {
    var vp := Dot(axis, velocity);
    if vp < 0.0 then Hi(A, axis) else Hi(A, axis) + vp
  }

  /** A projection that is attained and bounds all the others from below is `Lo`. */
  lemma IsLo(ps: seq<Vec>, axis: Vec, m: real, w: nat)
    requires w < |ps| && Dot(axis, ps[w]) == m
    requires forall k :: 0 <= k < |ps| ==> m <= Dot(axis, ps[k])
    ensures Lo(ps, axis) == m
  {
    ProjectionBounds(ps, axis);
    var i :| 0 <= i < |ps| && Dot(axis, ps[i]) == Lo(ps, axis);
  }

  /** A projection that is attained and bounds all the others from above is `Hi`. */
  lemma IsHi(ps: seq<Vec>, axis: Vec, m: real, w: nat)
    requires w < |ps| && Dot(axis, ps[w]) == m
    requires forall k :: 0 <= k < |ps| ==> Dot(axis, ps[k]) <= m
    ensures Hi(ps, axis) == m
  {
    ProjectionBounds(ps, axis);
    var i :| 0 <= i < |ps| && Dot(axis, ps[i]) == Hi(ps, axis);
  }

  /** The end positions project to the start positions shifted by the velocity projection. */
  lemma SweptProjections(A: seq<Vec>, axis: Vec, velocity: Vec)
    ensures var S := Swept(A, velocity);
            && |S| == 2 * |A|
            && (forall k :: 0 <= k < |A| ==> Dot(axis, S[k]) == Dot(axis, A[k]))
            && (forall k :: 0 <= k < |A| ==> Dot(axis, S[|A| + k]) == Dot(axis, A[k]) + Dot(axis, velocity))
  {
    var S := Swept(A, velocity);
    forall k | 0 <= k < |A| ensures Dot(axis, S[|A| + k]) == Dot(axis, A[k]) + Dot(axis, velocity) {
      assert S[|A| + k] == Add(A[k], velocity);
      DotAdd(axis, A[k], velocity);
    }
  }

  /** The lower end of the extended interval is the least projection of the start and end positions of A. */
  lemma SweptLoBound(A: seq<Vec>, axis: Vec, velocity: Vec)
    requires |A| > 0
    ensures Lo(Swept(A, velocity), axis) == SweptLo(A, axis, velocity)
  {
    var S, n, vp := Swept(A, velocity), |A|, Dot(axis, velocity);
    var m := SweptLo(A, axis, velocity);
    ProjectionBounds(A, axis);
    SweptProjections(A, axis, velocity);
    forall k | 0 <= k < |S| ensures m <= Dot(axis, S[k]) {
      if k >= n {
        assert Dot(axis, S[n + (k - n)]) == Dot(axis, A[k - n]) + vp;
      }
    }
    var i :| 0 <= i < n && Dot(axis, A[i]) == Lo(A, axis);
    IsLo(S, axis, m, if vp < 0.0 then n + i else i);
  }

  /** The upper end of the extended interval is the greatest projection of the start and end positions of A. */
  lemma SweptHiBound(A: seq<Vec>, axis: Vec, velocity: Vec)
    requires |A| > 0
    ensures Hi(Swept(A, velocity), axis) == SweptHi(A, axis, velocity)
  {
    var S, n, vp := Swept(A, velocity), |A|, Dot(axis, velocity);
    var m := SweptHi(A, axis, velocity);
    ProjectionBounds(A, axis);
    SweptProjections(A, axis, velocity);
    forall k | 0 <= k < |S| ensures Dot(axis, S[k]) <= m {
      if k >= n {
        assert Dot(axis, S[n + (k - n)]) == Dot(axis, A[k - n]) + vp;
      }
    }
    var j :| 0 <= j < n && Dot(axis, A[j]) == Hi(A, axis);
    IsHi(S, axis, m, if vp < 0.0 then j else n + j);
  }

  /** The extended interval is exactly the projection of the start and end positions of A. */
  lemma SweptBounds(A: seq<Vec>, axis: Vec, velocity: Vec)
    requires |A| > 0
    ensures Lo(Swept(A, velocity), axis) == SweptLo(A, axis, velocity)
    ensures Hi(Swept(A, velocity), axis) == SweptHi(A, axis, velocity)
  {
    SweptLoBound(A, axis, velocity);
    SweptHiBound(A, axis, velocity);
  }

  /** The swept gap is positive exactly when the axis separates B from every position of A along the move. */
  lemma SweptGapSeparates(A: seq<Vec>, B: seq<Vec>, axis: Vec, velocity: Vec)
    requires |A| > 0 && |B| > 0
    ensures IntervalDistance(SweptLo(A, axis, velocity), SweptHi(A, axis, velocity), Lo(B, axis), Hi(B, axis)) > 0.0
        <==> SeparatedOn(Swept(A, velocity), B, axis)
  {
    SweptBounds(A, axis, velocity);
    GapSeparates(Swept(A, velocity), B, axis);
  }

  // ----- one edge of the axis loop -----

  /** Edge `k` of the combined loop over the edges of A followed by the edges of B. */
  function EdgeAt(eA: seq<Vec>, eB: seq<Vec>, k: nat): Vec
    requires k < |eA| + |eB|
  {
    if k < |eA| then eA[k] else eB[k - |eA|]
  }

  /** The normalised perpendicular of edge `k`; `None` when it is NaN (a zero-length edge). */
  function AxisAt(eA: seq<Vec>, eB: seq<Vec>, recip: Vec -> real, k: nat): Option<Vec>
    requires k < |eA| + |eB|
  {
    Normalize(Perp(EdgeAt(eA, eB, k)), recip)
  }

  /** The candidate translation axis, turned to point along `toA` (from the center of B towards the center of A). */
  function Orient(toA: Vec, axis: Vec): Vec
  {
    if Dot(toA, axis) < 0.0 then Neg(axis) else axis
  }

  /** The vector from the center of B to the center of A (`polygonA.Center - polygonB.Center`). */
  function CenterOffset(A: seq<Vec>, B: seq<Vec>): Vec
  {
    if |A| > 0 && |B| > 0 then Sub(Mean(A).value, Mean(B).value) else Zero
  }

  lemma OrientFacesA(toA: Vec, axis: Vec)
    ensures Dot(toA, Orient(toA, axis)) >= 0.0
    ensures Orient(toA, axis) == axis || Orient(toA, axis) == Neg(axis)
  {
    DotNeg(toA, axis);
  }

  /** The swept interval distance on a defined axis. */
  function SweptGap(A: seq<Vec>, B: seq<Vec>, velocity: Vec, axis: Vec): real
    requires |A| > 0 && |B| > 0
  {
    IntervalDistance(SweptLo(A, axis, velocity), SweptHi(A, axis, velocity), Lo(B, axis), Hi(B, axis))
  }

  /**
   * What the loop body computes from one edge with a defined axis: the interval distance of
   * the static projections, the one after A's projection is extended by the velocity, and the
   * axis turned towards A's center.
   */
  datatype Probe = Probe(staticGap: real, sweptGap: real, oriented: Vec)

  /** `Math.Abs` of the swept interval distance, the quantity the loop minimises. */
  function Depth(p: Probe): real
  {
    Abs(p.sweptGap)
  }

  /** The body's quantities for one edge; `None` when the axis is NaN, which makes every comparison false. */
  function ProbeOf(A: seq<Vec>, B: seq<Vec>, velocity: Vec, recip: Vec -> real, edge: Vec): Option<Probe>
    requires |A| > 0 && |B| > 0
  {
    match Normalize(Perp(edge), recip)
    case None => None
    case Some(axis) =>
      Some(Probe(IntervalDistance(Lo(A, axis), Hi(A, axis), Lo(B, axis), Hi(B, axis)),
                 SweptGap(A, B, velocity, axis),
                 Orient(CenterOffset(A, B), axis)))
  }

  /** The probes of the first `i` edges, A's first. */
  function ProbesTo(A: seq<Vec>, eA: seq<Vec>, B: seq<Vec>, eB: seq<Vec>, velocity: Vec, recip: Vec -> real, i: nat): (ps: seq<Option<Probe>>)
    requires |A| > 0 && |B| > 0 && i <= |eA| + |eB|
    ensures |ps| == i
  {
    if i == 0 then [] else ProbesTo(A, eA, B, eB, velocity, recip, i - 1) + [ProbeOf(A, B, velocity, recip, EdgeAt(eA, eB, i - 1))]
  }

  /** The probes of all the edges. */
  function Probes(A: seq<Vec>, eA: seq<Vec>, B: seq<Vec>, eB: seq<Vec>, velocity: Vec, recip: Vec -> real): (ps: seq<Option<Probe>>)
    requires |A| > 0 && |B| > 0
  {
    ProbesTo(A, eA, B, eB, velocity, recip, |eA| + |eB|)
  }

  /** Probe `k` is the one of edge `k`. */
  lemma {:induction false} ProbesToAt(A: seq<Vec>, eA: seq<Vec>, B: seq<Vec>, eB: seq<Vec>, velocity: Vec, recip: Vec -> real, i: nat, k: nat)
    requires |A| > 0 && |B| > 0 && k < i <= |eA| + |eB|
    ensures ProbesTo(A, eA, B, eB, velocity, recip, i)[k] == ProbeOf(A, B, velocity, recip, EdgeAt(eA, eB, k))
    decreases i
  {
    if k < i - 1 {
      ProbesToAt(A, eA, B, eB, velocity, recip, i - 1, k);
    }
  }

  lemma ProbesAt(A: seq<Vec>, eA: seq<Vec>, B: seq<Vec>, eB: seq<Vec>, velocity: Vec, recip: Vec -> real, k: nat)
    requires |A| > 0 && |B| > 0 && k < |eA| + |eB|
    ensures |Probes(A, eA, B, eB, velocity, recip)| == |eA| + |eB|
    ensures Probes(A, eA, B, eB, velocity, recip)[k] == ProbeOf(A, B, velocity, recip, EdgeAt(eA, eB, k))
  {
    ProbesToAt(A, eA, B, eB, velocity, recip, |eA| + |eB|, k);
  }

  /** A probe is defined exactly when the axis is, and then its gaps are positive exactly when that axis separates. */
  lemma ProbeMeaning(A: seq<Vec>, B: seq<Vec>, velocity: Vec, recip: Vec -> real, edge: Vec)
    requires |A| > 0 && |B| > 0
    ensures var p := ProbeOf(A, B, velocity, recip, edge);
            var axis := Normalize(Perp(edge), recip);
            && (p.Some? <==> axis.Some?)
            && (p.Some? ==>
                  && (p.value.staticGap > 0.0 <==> SeparatedOn(A, B, axis.value))
                  && (p.value.sweptGap > 0.0 <==> SeparatedOn(Swept(A, velocity), B, axis.value))
                  && Depth(p.value) == Abs(SweptGap(A, B, velocity, axis.value))
                  && p.value.oriented == Orient(CenterOffset(A, B), axis.value))
  {
    var axis := Normalize(Perp(edge), recip);
    if axis.Some? {
      GapSeparates(A, B, axis.value);
      SweptGapSeparates(A, B, axis.value, velocity);
    }
  }

  // ----- the axis loop -----

  /** The loop variables `IsIntersecting`, `WillIntersect`, `minIntervalDistance` (`None` is +infinity) and `translationAxis`. */
  datatype SatState = SatState(isIntersecting: bool, willIntersect: bool, minInterval: Option<real>, translationAxis: Vec)

  const Start := SatState(true, true, None, Zero)

  /** One pass of the loop body, given its probe. */
  function Step(p: Option<Probe>, st: SatState): SatState
  {
    match p
    case None => st
    case Some(pr) =>
      var isI := st.isIntersecting && !(pr.staticGap > 0.0);
      var willI := st.willIntersect && !(pr.sweptGap > 0.0);
      if !isI && !willI then SatState(isI, willI, st.minInterval, st.translationAxis)
      else if st.minInterval.None? || Depth(pr) < st.minInterval.value then SatState(isI, willI, Some(Depth(pr)), pr.oriented)
      else SatState(isI, willI, st.minInterval, st.translationAxis)
  }

  /** The loop from edge `idx` on, leaving it early once both flags are false. */
  function Run(ps: seq<Option<Probe>>, idx: nat, st: SatState): SatState
    requires idx <= |ps|
    decreases |ps| - idx
  {
    if idx == |ps| then st
    else
      var next := Step(ps[idx], st);
      if !next.isIntersecting && !next.willIntersect then next else Run(ps, idx + 1, next)
  }

  /** The result record built after the loop: the translation vector is set only while `WillIntersect` holds. */
  function Finish(st: SatState): PolygonCollisionResult
  {
    var mtv :=
      if !st.willIntersect then Some(Zero)
      else if st.minInterval.None? then None  // a zero axis times +infinity
      else Some(Scale(st.translationAxis, st.minInterval.value));
    Default.(isIntersecting := st.isIntersecting, willIntersect := st.willIntersect, minimumTranslationVector := mtv)
  }

  /**
   * The instance `PolygonCollision(Polygon, Polygon, Vector)` as a function of the vertex and edge
   * lists. `ProjectPolygon` on the first edge reads `Points[0]`, so an empty polygon faults as soon
   * as there is an edge at all.
   */
  function SatCollision(A: seq<Vec>, eA: seq<Vec>, B: seq<Vec>, eB: seq<Vec>, velocity: Vec, recip: Vec -> real): Result<PolygonCollisionResult>
  {
    if |eA| + |eB| == 0 then Ok(Finish(Start))
    else if |A| == 0 || |B| == 0 then Throws
    else Ok(Finish(Run(Probes(A, eA, B, eB, velocity, recip), 0, Start)))
  }

  // ----- what the loop computes -----

  /** No probe from `lo` on has a positive static gap. */
  ghost predicate StaticClear(ps: seq<Option<Probe>>, lo: nat)
  {
    forall k :: lo <= k < |ps| && ps[k].Some? ==> !(ps[k].value.staticGap > 0.0)
  }

  /** No probe from `lo` on has a positive swept gap. */
  ghost predicate SweptClear(ps: seq<Option<Probe>>, lo: nat)
  {
    forall k :: lo <= k < |ps| && ps[k].Some? ==> !(ps[k].value.sweptGap > 0.0)
  }

  /** The flags leaving the loop: a flag is still set exactly when no remaining probe cleared it. */
  lemma {:induction false} RunFlags(ps: seq<Option<Probe>>, idx: nat, st: SatState)
    requires idx <= |ps|
    ensures Run(ps, idx, st).isIntersecting == (st.isIntersecting && StaticClear(ps, idx))
    ensures Run(ps, idx, st).willIntersect == (st.willIntersect && SweptClear(ps, idx))
    decreases |ps| - idx
  {
    if idx < |ps| {
      var next := Step(ps[idx], st);
      if next.isIntersecting || next.willIntersect {
        RunFlags(ps, idx + 1, next);
      }
    }
  }

  /** Probe `k` is defined and has the least depth among the defined probes before `i`, strictly less than any before `k`. */
  ghost predicate FirstMinimal(ps: seq<Option<Probe>>, i: nat, k: nat)
    requires i <= |ps|
  {
    && k < i
    && ps[k].Some?
    && (forall j :: 0 <= j < i && ps[j].Some? ==> Depth(ps[k].value) <= Depth(ps[j].value))
    && (forall j :: 0 <= j < k && ps[j].Some? ==> Depth(ps[k].value) < Depth(ps[j].value))
  }

  /**
   * The probe whose axis the loop holds in `translationAxis` after the edges before `i`: a defined
   * probe replaces the held one only when its depth is strictly smaller.
   */
  function Best(ps: seq<Option<Probe>>, i: nat): (b: Option<nat>)
    requires i <= |ps|
    ensures b.Some? ==> b.value < i && ps[b.value].Some?
  {
    if i == 0 then None
    else
      var b := Best(ps, i - 1);
      if ps[i - 1].None? then b
      else if b.None? || Depth(ps[i - 1].value) < Depth(ps[b.value].value) then Some(i - 1)
      else b
  }

  /** `minIntervalDistance` and `translationAxis` after the edges before `i`. */
  predicate Tracked(ps: seq<Option<Probe>>, i: nat, minInterval: Option<real>, translationAxis: Vec)
    requires i <= |ps|
  {
    match Best(ps, i)
    case None => minInterval.None?
    case Some(k) => minInterval == Some(Depth(ps[k].value)) && translationAxis == ps[k].value.oriented
  }

  /** The held probe is the first of least depth, and there is none exactly when no probe was defined. */
  lemma {:induction false} BestMinimal(ps: seq<Option<Probe>>, i: nat)
    requires i <= |ps|
    ensures Best(ps, i).None? <==> forall k :: 0 <= k < i ==> ps[k].None?
    ensures Best(ps, i).Some? ==> FirstMinimal(ps, i, Best(ps, i).value)
  {
    if i > 0 {
      BestMinimal(ps, i - 1);
      var b := Best(ps, i - 1);
      if ps[i - 1].None? {
        if b.None? {
          forall k | 0 <= k < i ensures ps[k].None? {
            if k < i - 1 {
              assert ps[k].None?;
            }
          }
        } else {
          var m := Depth(ps[b.value].value);
          forall j | 0 <= j < i && ps[j].Some? ensures m <= Depth(ps[j].value) {
            assert j < i - 1;
          }
        }
      } else {
        var g := Depth(ps[i - 1].value);
        if b.None? || g < Depth(ps[b.value].value) {
          forall j | 0 <= j < i - 1 && ps[j].Some? ensures g < Depth(ps[j].value) {
            assert b.Some?;
          }
        } else {
          var m := Depth(ps[b.value].value);
          forall j | 0 <= j < i && ps[j].Some? ensures m <= Depth(ps[j].value) {
            if j < i - 1 {
              assert m <= Depth(ps[j].value);
            }
          }
        }
      }
    }
  }

  /** While `WillIntersect` survives, the loop tracks the first probe of least depth. */
  lemma {:induction false} RunTracks(ps: seq<Option<Probe>>, idx: nat, st: SatState)
    requires idx <= |ps|
    requires Tracked(ps, idx, st.minInterval, st.translationAxis)
    ensures var f := Run(ps, idx, st);
            f.willIntersect ==> Tracked(ps, |ps|, f.minInterval, f.translationAxis)
    decreases |ps| - idx
  {
    if idx < |ps| {
      var next := Step(ps[idx], st);
      if next.isIntersecting || next.willIntersect {
        var b := Best(ps, idx);
        if ps[idx].Some? && b.Some? {
          assert st.minInterval.value == Depth(ps[b.value].value);
        }
        assert Tracked(ps, idx + 1, next.minInterval, next.translationAxis);
        RunTracks(ps, idx + 1, next);
      }
    }
  }

  // ----- what PolygonCollision promises -----

  /** The static entry point's result: the vertex arrays turned into polygons with their wrapping edges. */
  function SatPolygonCollision(ptsA: seq<Vec>, ptsB: seq<Vec>, velocity: Vec, recip: Vec -> real): Result<PolygonCollisionResult>
  {
    SatCollision(ptsA, EdgesOf(ptsA), ptsB, EdgesOf(ptsB), velocity, recip)
  }

  /** No defined axis among edges `lo..hi-1` separates `P` from `Q`. */
  ghost predicate NoSeparation(P: seq<Vec>, Q: seq<Vec>, eA: seq<Vec>, eB: seq<Vec>, recip: Vec -> real, lo: nat, hi: nat)
  {
    forall k :: lo <= k < hi && k < |eA| + |eB| && AxisAt(eA, eB, recip, k).Some? ==> !SeparatedOn(P, Q, AxisAt(eA, eB, recip, k).value)
  }

  lemma ProbesClear(A: seq<Vec>, eA: seq<Vec>, B: seq<Vec>, eB: seq<Vec>, velocity: Vec, recip: Vec -> real)
    requires |A| > 0 && |B| > 0
    ensures StaticClear(Probes(A, eA, B, eB, velocity, recip), 0) == NoSeparation(A, B, eA, eB, recip, 0, |eA| + |eB|)
    ensures SweptClear(Probes(A, eA, B, eB, velocity, recip), 0) == NoSeparation(Swept(A, velocity), B, eA, eB, recip, 0, |eA| + |eB|)
  {
    var ps := Probes(A, eA, B, eB, velocity, recip);
    forall k | 0 <= k < |ps|
      ensures (ps[k].Some? && ps[k].value.staticGap > 0.0)
           == (AxisAt(eA, eB, recip, k).Some? && SeparatedOn(A, B, AxisAt(eA, eB, recip, k).value))
      ensures (ps[k].Some? && ps[k].value.sweptGap > 0.0)
           == (AxisAt(eA, eB, recip, k).Some? && SeparatedOn(Swept(A, velocity), B, AxisAt(eA, eB, recip, k).value))
    {
      ProbesAt(A, eA, B, eB, velocity, recip, k);
      ProbeMeaning(A, B, velocity, recip, EdgeAt(eA, eB, k));
    }
  }

  /** The test faults exactly when some axis is examined while one of the polygons has no vertex. */
  lemma SatFaults(A: seq<Vec>, eA: seq<Vec>, B: seq<Vec>, eB: seq<Vec>, velocity: Vec, recip: Vec -> real)
    ensures SatCollision(A, eA, B, eB, velocity, recip).Throws? <==> |eA| + |eB| > 0 && (|A| == 0 || |B| == 0)
  {
  }

  /** With no edges at all (two empty polygons) no axis runs: both flags stay set and the vector is NaN. */
  lemma SatNoAxes(A: seq<Vec>, eA: seq<Vec>, B: seq<Vec>, eB: seq<Vec>, velocity: Vec, recip: Vec -> real)
    requires |eA| + |eB| == 0
    ensures SatCollision(A, eA, B, eB, velocity, recip)
         == Ok(Default.(isIntersecting := true, willIntersect := true, minimumTranslationVector := None))
  {
  }

  /**
   * `IsIntersecting` survives exactly when no defined edge normal separates the polygons, and
   * `WillIntersect` exactly when none separates B from A's start and end positions. The other
   * fields keep their defaults.
   */
  lemma SatFlags(A: seq<Vec>, eA: seq<Vec>, B: seq<Vec>, eB: seq<Vec>, velocity: Vec, recip: Vec -> real)
    requires |A| > 0 && |B| > 0
    ensures var r := SatCollision(A, eA, B, eB, velocity, recip);
            && r.Ok?
            && r.value.isIntersecting == NoSeparation(A, B, eA, eB, recip, 0, |eA| + |eB|)
            && r.value.willIntersect == NoSeparation(Swept(A, velocity), B, eA, eB, recip, 0, |eA| + |eB|)
            && !r.value.onPath && r.value.lineIntersectingPoints.None? && r.value.rayCastingResult == Inside
  {
    if |eA| + |eB| > 0 {
      RunFlags(Probes(A, eA, B, eB, velocity, recip), 0, Start);
      ProbesClear(A, eA, B, eB, velocity, recip);
    }
  }

  /** The translation vector read off the probes; `SatTranslation` is this for the probes of two polygons. */
  lemma RunTranslation(ps: seq<Option<Probe>>)
    ensures var r := Finish(Run(ps, 0, Start));
            && (!r.willIntersect ==> r.minimumTranslationVector == Some(Zero))
            && (r.willIntersect ==>
                  && (r.minimumTranslationVector.None? <==> forall k :: 0 <= k < |ps| ==> ps[k].None?)
                  && (r.minimumTranslationVector.Some? ==>
                        exists k: nat :: FirstMinimal(ps, |ps|, k)
                          && r.minimumTranslationVector.value == Scale(ps[k].value.oriented, Depth(ps[k].value))))
  {
    RunTracks(ps, 0, Start);
    BestMinimal(ps, |ps|);
  }

  /** When every defined probe's axis has a non-negative dot product with `d`, so has the translation vector. */
  lemma RunFaces(ps: seq<Option<Probe>>, d: Vec)
    requires forall k :: 0 <= k < |ps| && ps[k].Some? ==> Dot(d, ps[k].value.oriented) >= 0.0
    ensures var r := Finish(Run(ps, 0, Start));
            r.minimumTranslationVector.Some? ==> Dot(d, r.minimumTranslationVector.value) >= 0.0
  {
    RunTranslation(ps);
    var r := Finish(Run(ps, 0, Start));
    if r.willIntersect && r.minimumTranslationVector.Some? {
      var k: nat :| FirstMinimal(ps, |ps|, k)
                    && r.minimumTranslationVector.value == Scale(ps[k].value.oriented, Depth(ps[k].value));
      DotScale(d, ps[k].value.oriented, Depth(ps[k].value));
    }
  }

  /**
   * The minimum translation vector: the default zero vector unless `WillIntersect` holds; then NaN when
   * no axis was defined, and otherwise the oriented axis of the first probe of least depth times
   * that depth. `ProbeMeaning` reads the probe back as the edge's axis and swept gap.
   */
  lemma SatTranslation(A: seq<Vec>, eA: seq<Vec>, B: seq<Vec>, eB: seq<Vec>, velocity: Vec, recip: Vec -> real)
    requires |A| > 0 && |B| > 0
    ensures var r := SatCollision(A, eA, B, eB, velocity, recip);
            var ps := Probes(A, eA, B, eB, velocity, recip);
            && r.Ok?
            && (!r.value.willIntersect ==> r.value.minimumTranslationVector == Some(Zero))
            && (r.value.willIntersect ==>
                  && (r.value.minimumTranslationVector.None? <==> forall k :: 0 <= k < |ps| ==> ps[k].None?)
                  && (r.value.minimumTranslationVector.Some? ==>
                        exists k: nat :: FirstMinimal(ps, |ps|, k)
                          && r.value.minimumTranslationVector.value == Scale(ps[k].value.oriented, Depth(ps[k].value))))
  {
    if |eA| + |eB| > 0 {
      RunTranslation(Probes(A, eA, B, eB, velocity, recip));
    }
  }

  /** Every defined probe's axis is turned towards A's center. */
  lemma ProbesFaceA(A: seq<Vec>, eA: seq<Vec>, B: seq<Vec>, eB: seq<Vec>, velocity: Vec, recip: Vec -> real)
    requires |A| > 0 && |B| > 0
    ensures var ps := Probes(A, eA, B, eB, velocity, recip);
            forall k :: 0 <= k < |ps| && ps[k].Some? ==> Dot(CenterOffset(A, B), ps[k].value.oriented) >= 0.0
  {
    var ps := Probes(A, eA, B, eB, velocity, recip);
    forall k | 0 <= k < |ps| && ps[k].Some?
      ensures Dot(CenterOffset(A, B), ps[k].value.oriented) >= 0.0
    {
      ProbesAt(A, eA, B, eB, velocity, recip, k);
      ProbeMeaning(A, B, velocity, recip, EdgeAt(eA, eB, k));
      OrientFacesA(CenterOffset(A, B), Normalize(Perp(EdgeAt(eA, eB, k)), recip).value);
    }
  }

  /** The translation vector never points from A's center towards B's. */
  lemma SatTranslationFacesA(A: seq<Vec>, eA: seq<Vec>, B: seq<Vec>, eB: seq<Vec>, velocity: Vec, recip: Vec -> real)
    requires |A| > 0 && |B| > 0
    ensures var r := SatCollision(A, eA, B, eB, velocity, recip);
            r.Ok? && r.value.minimumTranslationVector.Some? ==>
              Dot(Sub(Mean(A).value, Mean(B).value), r.value.minimumTranslationVector.value) >= 0.0
  {
    if |eA| + |eB| > 0 {
      ProbesFaceA(A, eA, B, eB, velocity, recip);
      RunFaces(Probes(A, eA, B, eB, velocity, recip), CenterOffset(A, B));
    }
  }

  lemma DotScale(d: Vec, o: Vec, m: real)
    requires m >= 0.0 && Dot(d, o) >= 0.0
    ensures Dot(d, Scale(o, m)) >= 0.0
  {
    assert Dot(d, Scale(o, m)) == m * Dot(d, o);
  }

  lemma SweptSeparationStatic(A: seq<Vec>, B: seq<Vec>, velocity: Vec, axis: Vec)
    ensures SeparatedOn(Swept(A, velocity), B, axis) ==> SeparatedOn(A, B, axis)
  {
    var S := Swept(A, velocity);
    assert forall i :: 0 <= i < |A| ==> S[i] == A[i];
  }

  /** Overlapping now implies overlapping along the move: the swept interval contains the static one. */
  lemma IntersectingImpliesWillIntersect(A: seq<Vec>, eA: seq<Vec>, B: seq<Vec>, eB: seq<Vec>, velocity: Vec, recip: Vec -> real)
    ensures var r := SatCollision(A, eA, B, eB, velocity, recip);
            r.Ok? && r.value.isIntersecting ==> r.value.willIntersect
  {
    if |A| > 0 && |B| > 0 {
      SatFlags(A, eA, B, eB, velocity, recip);
      forall k | 0 <= k < |eA| + |eB| && AxisAt(eA, eB, recip, k).Some?
        ensures SeparatedOn(Swept(A, velocity), B, AxisAt(eA, eB, recip, k).value) ==> SeparatedOn(A, B, AxisAt(eA, eB, recip, k).value)
      {
        SweptSeparationStatic(A, B, velocity, AxisAt(eA, eB, recip, k).value);
      }
    } else {
      SatFaults(A, eA, B, eB, velocity, recip);
    }
  }

  lemma SweptZero(A: seq<Vec>, B: seq<Vec>, axis: Vec)
    ensures SeparatedOn(Swept(A, Zero), B, axis) <==> SeparatedOn(A, B, axis)
  {
    var S := Swept(A, Zero);
    assert Translate(A, Zero) == A;
    assert S == A + A;
    assert forall i :: 0 <= i < |A| ==> S[i] == A[i] && S[i + |A|] == A[i];
    if Below(A, B, axis) {
      forall i, j | 0 <= i < |S| && 0 <= j < |B| ensures Dot(axis, S[i]) < Dot(axis, B[j]) {
        assert S[i] == A[if i < |A| then i else i - |A|];
      }
    }
    if Below(B, A, axis) {
      forall i, j | 0 <= i < |B| && 0 <= j < |S| ensures Dot(axis, B[i]) < Dot(axis, S[j]) {
        assert S[j] == A[if j < |A| then j else j - |A|];
      }
    }
  }

  /** With zero velocity `maxA += 0` leaves the interval alone, so both flags agree. */
  lemma ZeroVelocityFlagsAgree(A: seq<Vec>, eA: seq<Vec>, B: seq<Vec>, eB: seq<Vec>, recip: Vec -> real)
    ensures var r := SatCollision(A, eA, B, eB, Zero, recip);
            r.Ok? ==> r.value.isIntersecting == r.value.willIntersect
  {
    if |A| > 0 && |B| > 0 {
      SatFlags(A, eA, B, eB, Zero, recip);
      forall k | 0 <= k < |eA| + |eB| && AxisAt(eA, eB, recip, k).Some?
        ensures SeparatedOn(Swept(A, Zero), B, AxisAt(eA, eB, recip, k).value) <==> SeparatedOn(A, B, AxisAt(eA, eB, recip, k).value)
      {
        SweptZero(A, B, AxisAt(eA, eB, recip, k).value);
      }
    } else {
      SatFaults(A, eA, B, eB, Zero, recip);
    }
  }

  lemma MulLess(c: real, x: real, y: real)
    requires c != 0.0
    ensures c > 0.0 ==> (c * x < c * y <==> x < y)
    ensures c < 0.0 ==> (c * x < c * y <==> y < x)
  {
    assert c * y - c * x == c * (y - x);
  }

  /** Scaling the axis by `c` scales both projections by `c`, which keeps or flips their order. */
  lemma ScaledOrder(axis: Vec, p: Vec, q: Vec, c: real)
    requires c != 0.0
    ensures c > 0.0 ==> (Dot(Scale(axis, c), p) < Dot(Scale(axis, c), q) <==> Dot(axis, p) < Dot(axis, q))
    ensures c < 0.0 ==> (Dot(Scale(axis, c), p) < Dot(Scale(axis, c), q) <==> Dot(axis, q) < Dot(axis, p))
  {
    DotScaled(axis, p, c);
    DotScaled(axis, q, c);
    MulLess(c, Dot(axis, p), Dot(axis, q));
  }

  lemma BelowScaledUp(P: seq<Vec>, Q: seq<Vec>, axis: Vec, c: real)
    requires c > 0.0
    ensures Below(P, Q, Scale(axis, c)) <==> Below(P, Q, axis)
  {
    forall i, j | 0 <= i < |P| && 0 <= j < |Q|
      ensures Dot(Scale(axis, c), P[i]) < Dot(Scale(axis, c), Q[j]) <==> Dot(axis, P[i]) < Dot(axis, Q[j])
    {
      ScaledOrder(axis, P[i], Q[j], c);
    }
  }

  lemma BelowScaledDown(P: seq<Vec>, Q: seq<Vec>, axis: Vec, c: real)
    requires c < 0.0
    ensures Below(P, Q, Scale(axis, c)) <==> Below(Q, P, axis)
  {
    forall i, j | 0 <= i < |P| && 0 <= j < |Q|
      ensures Dot(Scale(axis, c), P[i]) < Dot(Scale(axis, c), Q[j]) <==> Dot(axis, Q[j]) < Dot(axis, P[i])
    {
      ScaledOrder(axis, P[i], Q[j], c);
    }
  }

  /** Rescaling an axis by a non-zero factor does not change whether it separates. */
  lemma ScaledAxisSeparates(P: seq<Vec>, Q: seq<Vec>, axis: Vec, c: real)
    requires c != 0.0
    ensures SeparatedOn(P, Q, Scale(axis, c)) <==> SeparatedOn(P, Q, axis)
  {
    if c > 0.0 {
      BelowScaledUp(P, Q, axis, c);
      BelowScaledUp(Q, P, axis, c);
    } else {
      BelowScaledDown(P, Q, axis, c);
      BelowScaledDown(Q, P, axis, c);
    }
  }

  lemma NormalizedSeparates(P: seq<Vec>, Q: seq<Vec>, v: Vec, recip: Vec -> real)
    requires v != Zero && recip(v) != 0.0
    ensures SeparatedOn(P, Q, Normalize(v, recip).value) <==> SeparatedOn(P, Q, v)
  {
    ScaledAxisSeparates(P, Q, v, recip(v));
  }

  /**
   * The flags do not depend on the normalisation: any two positive scalings give the same
   * `IsIntersecting` and `WillIntersect`.
   */
  lemma FlagsIgnoreScale(A: seq<Vec>, eA: seq<Vec>, B: seq<Vec>, eB: seq<Vec>, velocity: Vec,
                             recip1: Vec -> real, recip2: Vec -> real)
    requires IsReciprocalMagnitude(recip1) && IsReciprocalMagnitude(recip2)
    ensures var r1 := SatCollision(A, eA, B, eB, velocity, recip1);
            var r2 := SatCollision(A, eA, B, eB, velocity, recip2);
            && r1.Throws? == r2.Throws?
            && (r1.Ok? ==> r1.value.isIntersecting == r2.value.isIntersecting && r1.value.willIntersect == r2.value.willIntersect)
  {
    SatFaults(A, eA, B, eB, velocity, recip1);
    SatFaults(A, eA, B, eB, velocity, recip2);
    if |A| > 0 && |B| > 0 {
      SatFlags(A, eA, B, eB, velocity, recip1);
      SatFlags(A, eA, B, eB, velocity, recip2);
      NoSeparationIgnoresScale(A, B, eA, eB, recip1, recip2);
      NoSeparationIgnoresScale(Swept(A, velocity), B, eA, eB, recip1, recip2);
    }
  }

  lemma NoSeparationIgnoresScale(P: seq<Vec>, Q: seq<Vec>, eA: seq<Vec>, eB: seq<Vec>, recip1: Vec -> real, recip2: Vec -> real)
    requires IsReciprocalMagnitude(recip1) && IsReciprocalMagnitude(recip2)
    ensures NoSeparation(P, Q, eA, eB, recip1, 0, |eA| + |eB|) == NoSeparation(P, Q, eA, eB, recip2, 0, |eA| + |eB|)
  {
    forall k | 0 <= k < |eA| + |eB|
      ensures (AxisAt(eA, eB, recip1, k).Some? && SeparatedOn(P, Q, AxisAt(eA, eB, recip1, k).value))
          == (AxisAt(eA, eB, recip2, k).Some? && SeparatedOn(P, Q, AxisAt(eA, eB, recip2, k).value))
    {
      var v := Perp(EdgeAt(eA, eB, k));
      if AxisAt(eA, eB, recip1, k).Some? {
        NormalizedSeparates(P, Q, v, recip1);
        NormalizedSeparates(P, Q, v, recip2);
      }
    }
  }

  // ----- the imperative code -----

  lemma ProjectionStep(ps: seq<Vec>, axis: Vec, i: nat)
    requires 0 < i < |ps|
    ensures var d := Dot(axis, ps[i]);
            && Lo(ps[..i + 1], axis) == (if d < Lo(ps[..i], axis) then d else Lo(ps[..i], axis))
            && Hi(ps[..i + 1], axis) == (if d > Hi(ps[..i], axis) then d else Hi(ps[..i], axis))
            && Lo(ps[..i], axis) <= Hi(ps[..i], axis)
  {
    assert ps[..i + 1][..i] == ps[..i];
    ProjectionBounds(ps[..i], axis);
  }

  /** `ProjectPolygon`: the least and greatest projection of the vertices onto the axis. */
  method ProjectPolygon(axis: Vec, polygon: Polygon) returns (r: Result<(real, real)>)
    ensures r.Throws? <==> |polygon.points| == 0
    ensures r.Ok? ==> r.value == (Lo(polygon.points, axis), Hi(polygon.points, axis))
  {
    var pts := polygon.points;
    if |pts| == 0 {
      return Throws;  // `polygon.Points[0]` is out of range
    }
    var d := Dot(axis, pts[0]);
    var min, max := d, d;
    var i := 0;
    while i < |pts|
      invariant 0 <= i <= |pts|
      invariant min == Lo(pts[..if i == 0 then 1 else i], axis)
      invariant max == Hi(pts[..if i == 0 then 1 else i], axis)
    {
      d := Dot(pts[i], axis);
      DotCommutes(pts[i], axis);
      if i > 0 {
        ProjectionStep(pts, axis, i);
      }
      if d < min {
        min := d;
      } else {
        if d > max {
          max := d;
        }
      }
      i := i + 1;
    }
    assert pts[..i] == pts;
    r := Ok((min, max));
  }

  /**
   * The projections of one loop pass: both polygons projected onto `onto`, then the static
   * interval distance and the one after A's interval is extended by the velocity projection.
   */
  method AxisGaps(onto: Vec, polygonA: Polygon, polygonB: Polygon, velocity: Vec)
    returns (r: Result<(real, real)>)
    ensures r.Throws? <==> |polygonA.points| == 0 || |polygonB.points| == 0
    ensures r.Ok? ==> r.value == (IntervalDistance(Lo(polygonA.points, onto), Hi(polygonA.points, onto),
                                                   Lo(polygonB.points, onto), Hi(polygonB.points, onto)),
                                  SweptGap(polygonA.points, polygonB.points, velocity, onto))
  {
    var projA := ProjectPolygon(onto, polygonA);
    if projA.Throws? {
      return Throws;
    }
    var projB := ProjectPolygon(onto, polygonB);
    if projB.Throws? {
      return Throws;
    }
    var minA, maxA := projA.value.0, projA.value.1;
    var minB, maxB := projB.value.0, projB.value.1;
    var staticGap := IntervalDistance(minA, maxA, minB, maxB);
    var velocityProjection := Dot(onto, velocity);
    if velocityProjection < 0.0 {
      minA := minA + velocityProjection;
    } else {
      maxA := maxA + velocityProjection;
    }
    r := Ok((staticGap, IntervalDistance(minA, maxA, minB, maxB)));
  }

  /**
   * The quantities one pass of the loop computes from `edge`: the normalised perpendicular, both
   * interval distances, and the axis turned towards A's center (the source turns it only when it
   * becomes the new translation axis; computing it up front changes nothing, as it is pure).
   */
  method ProbeEdge(polygonA: Polygon, polygonB: Polygon, edge: Vec, velocity: Vec, recip: Vec -> real)
    returns (p: Result<Option<Probe>>)
    ensures p.Throws? <==> |polygonA.points| == 0 || |polygonB.points| == 0
    ensures p.Ok? ==> p.value == ProbeOf(polygonA.points, polygonB.points, velocity, recip, edge)
  {
    var axis := Normalize(Perp(edge), recip);
    // The projections are taken before the axis is looked at: a NaN axis still faults on an empty polygon.
    var onto := if axis.Some? then axis.value else Perp(edge);
    var gaps := AxisGaps(onto, polygonA, polygonB, velocity);
    if gaps.Throws? {
      return Throws;
    }
    if axis.None? {
      return Ok(None);
    }
    var translationAxis := axis.value;
    var centerA := polygonA.Center();
    var centerB := polygonB.Center();
    var d := Sub(centerA.value, centerB.value);
    if Dot(d, translationAxis) < 0.0 {
      translationAxis := Neg(translationAxis);
    }
    p := Ok(Some(Probe(gaps.value.0, gaps.value.1, translationAxis)));
  }

  /** Edge `edgeIndex` of the loop over A's edges then B's, and its probe. */
  method ProbeOfEdge(polygonA: Polygon, polygonB: Polygon, edgeIndex: nat, velocity: Vec, recip: Vec -> real)
    returns (p: Result<Option<Probe>>)
    requires edgeIndex < |polygonA.edges| + |polygonB.edges|
    ensures p.Throws? <==> |polygonA.points| == 0 || |polygonB.points| == 0
    ensures p.Ok? ==> p.value == Probes(polygonA.points, polygonA.edges, polygonB.points, polygonB.edges, velocity, recip)[edgeIndex]
  {
    var edgeCountA := |polygonA.edges|;
    var edge := if edgeIndex < edgeCountA then polygonA.edges[edgeIndex] else polygonB.edges[edgeIndex - edgeCountA];
    p := ProbeEdge(polygonA, polygonB, edge, velocity, recip);
    if p.Ok? {
      ProbesAt(polygonA.points, polygonA.edges, polygonB.points, polygonB.edges, velocity, recip, edgeIndex);
    }
  }

  /** The instance `PolygonCollision(Polygon, Polygon, Vector)`. */
  method CollidePolygons(polygonA: Polygon, polygonB: Polygon, velocity: Vec, recip: Vec -> real)
    returns (r: Result<PolygonCollisionResult>)
    ensures r == SatCollision(polygonA.points, polygonA.edges, polygonB.points, polygonB.edges, velocity, recip)
  {
    ghost var A, eA, B, eB := polygonA.points, polygonA.edges, polygonB.points, polygonB.edges;
    ghost var ps := if |A| > 0 && |B| > 0 then Probes(A, eA, B, eB, velocity, recip) else [];
    var edgeCountA := |polygonA.edges|;
    var edgeCountB := |polygonB.edges|;
    var isIntersecting, willIntersect := true, true;
    var minIntervalDistance: Option<real> := None;
    var translationAxis := Zero;
    var edgeIndex := 0;
    while edgeIndex < edgeCountA + edgeCountB
      invariant 0 <= edgeIndex <= edgeCountA + edgeCountB
      invariant edgeIndex == 0 ==> SatState(isIntersecting, willIntersect, minIntervalDistance, translationAxis) == Start
      invariant edgeIndex > 0 ==> |A| > 0 && |B| > 0 && |ps| == edgeCountA + edgeCountB
      invariant edgeIndex > 0 ==>
                  Run(ps, edgeIndex, SatState(isIntersecting, willIntersect, minIntervalDistance, translationAxis))
                  == Run(ps, 0, Start)
    {
      ghost var cur := SatState(isIntersecting, willIntersect, minIntervalDistance, translationAxis);
      var probe := ProbeOfEdge(polygonA, polygonB, edgeIndex, velocity, recip);
      if probe.Throws? {
        return Throws;
      }
      if probe.value.Some? {
        if probe.value.value.staticGap > 0.0 {
          isIntersecting := false;
        }
        if probe.value.value.sweptGap > 0.0 {
          willIntersect := false;
        }
      }
      if !isIntersecting && !willIntersect {
        assert Run(ps, 0, Start) == SatState(isIntersecting, willIntersect, minIntervalDistance, translationAxis);
        break;
      }
      if probe.value.Some? {
        var intervalDistance := Abs(probe.value.value.sweptGap);
        if minIntervalDistance.None? || intervalDistance < minIntervalDistance.value {
          minIntervalDistance := Some(intervalDistance);
          translationAxis := probe.value.value.oriented;
        }
      }
      assert Step(ps[edgeIndex], cur) == SatState(isIntersecting, willIntersect, minIntervalDistance, translationAxis);
      edgeIndex := edgeIndex + 1;
    }
    ghost var final := SatState(isIntersecting, willIntersect, minIntervalDistance, translationAxis);
    assert SatCollision(A, eA, B, eB, velocity, recip) == Ok(Finish(final));
    var mtv := Some(Zero);
    if willIntersect {
      mtv := if minIntervalDistance.None? then None else Some(Scale(translationAxis, minIntervalDistance.value));
    }
    r := Ok(Default.(isIntersecting := isIntersecting, willIntersect := willIntersect, minimumTranslationVector := mtv));
  }

  /** The static `PolygonCollision(PointF[], PointF[], Vector)`: copies the vertices into polygons, builds their edges and runs the test. */
  method PolygonCollision(ptsA: seq<Vec>, ptsB: seq<Vec>, velocity: Vec, recip: Vec -> real)
    returns (r: Result<PolygonCollisionResult>)
    ensures r == SatPolygonCollision(ptsA, ptsB, velocity, recip)
  {
    var polygonA := new Polygon();
    var polygonB := new Polygon();
    var i := 0;
    while i < |ptsA|
      invariant 0 <= i <= |ptsA| && polygonA.points == ptsA[..i] && polygonB.points == []
    {
      polygonA.points := polygonA.points + [ptsA[i]];
      i := i + 1;
    }
    i := 0;
    while i < |ptsB|
      invariant 0 <= i <= |ptsB| && polygonB.points == ptsB[..i] && polygonA.points == ptsA
    {
      polygonB.points := polygonB.points + [ptsB[i]];
      i := i + 1;
    }
    assert polygonA.points == ptsA && polygonB.points == ptsB;
    polygonA.BuildEdges();
    polygonB.BuildEdges();
    r := CollidePolygons(polygonA, polygonB, velocity, recip);
  }
}
