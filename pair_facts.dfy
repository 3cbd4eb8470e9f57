/**
 * What the body of the inner `foreach` of `iterate` does with one pair of elements, mode by
 * mode: which pairs are skipped, which stop the loop, and what the record it adds holds.
 */
module PairFacts {
  import opened Wrappers
  import opened Geometry
  import opened CollisionResults
  import opened Scene
  import opened Collision
  import opened WalkFacts
  import Sat = SeparatingAxis
  import Lines = LineIntersection

  /** Both areas reach the threshold, or no threshold is set. */
  predicate LargeEnough(nodes: seq<Node>, cfg: Config, outer: nat, inner: nat)
    requires outer < |nodes| && inner < |nodes|
  {
    cfg.minimumArea != 0.0 ==> nodes[outer].outerArea >= cfg.minimumArea && nodes[inner].outerArea >= cfg.minimumArea
  }

  /** The `break` happens exactly for a candidate pair with an area below a set threshold. */
  lemma StopsExactly(nodes: seq<Node>, cfg: Config, outer: nat, inner: nat)
    requires ParentsBelow(nodes) && outer < |nodes| && inner < |nodes|
    ensures PairOutcomeOf(nodes, cfg, outer, inner).StopInner? <==> Candidates(nodes, outer, inner) && !LargeEnough(nodes, cfg, outer, inner)
  {
  }

  /**
   * A pair is recorded only when both are visual, distinct, the inner one is not above the
   * outer one, the areas pass, a flag is set, and the record names the two elements.
   */
  lemma RecordedPair(nodes: seq<Node>, cfg: Config, outer: nat, inner: nat)
    requires ParentsBelow(nodes) && outer < |nodes| && inner < |nodes|
    requires PairOutcomeOf(nodes, cfg, outer, inner).Record?
    ensures var r := PairOutcomeOf(nodes, cfg, outer, inner).result;
            && nodes[outer].isVisual && nodes[inner].isVisual && outer != inner && !IsAncestor(nodes, inner, outer)
            && LargeEnough(nodes, cfg, outer, inner)
            && (r.isIntersecting || r.willIntersect)
            && r.collidor == Some(NameOf(nodes[outer])) && r.collidee == Some(NameOf(nodes[inner]))
  {
  }

  /**
   * Line mode: a candidate pair that passes the areas is recorded exactly when some edges
   * cross; the record is the partial result of the line test.
   */
  lemma LineMode(nodes: seq<Node>, cfg: Config, outer: nat, inner: nat)
    requires ParentsBelow(nodes) && outer < |nodes| && inner < |nodes| && cfg.checkType == LineCollision
    requires Candidates(nodes, outer, inner) && LargeEnough(nodes, cfg, outer, inner)
    ensures var hits := Lines.Hits(nodes[outer].pathPoints, nodes[inner].pathPoints);
            var o := PairOutcomeOf(nodes, cfg, outer, inner);
            && (o.Record? <==> |hits| > 0)
            && (o.Record? ==>
                  && o.result.isIntersecting && o.result.onPath && !o.result.willIntersect
                  && o.result.lineIntersectingPoints == Some(hits)
                  && o.result.minimumTranslationVector == Some(Zero) && o.result.rayCastingResult == Inside)
  {
  }

  /**
   * Separating-axis mode, two polygons with vertices: recorded exactly when no edge normal
   * separates them now or none separates the swept first one from the second, with the two
   * flags saying which.
   */
  lemma SatMode(nodes: seq<Node>, cfg: Config, outer: nat, inner: nat)
    requires ParentsBelow(nodes) && outer < |nodes| && inner < |nodes| && cfg.checkType == SeparatingAxisTheorem
    requires Candidates(nodes, outer, inner) && LargeEnough(nodes, cfg, outer, inner)
    requires |nodes[outer].pathPoints| > 0 && |nodes[inner].pathPoints| > 0
    ensures var A, B := nodes[outer].pathPoints, nodes[inner].pathPoints;
            var now := Sat.NoSeparation(A, B, EdgesOf(A), EdgesOf(B), cfg.recip, 0, |A| + |B|);
            var later := Sat.NoSeparation(Sat.Swept(A, cfg.velocity), B, EdgesOf(A), EdgesOf(B), cfg.recip, 0, |A| + |B|);
            var o := PairOutcomeOf(nodes, cfg, outer, inner);
            && (o.Record? <==> now || later)
            && (o.Record? ==>
                  && o.result.isIntersecting == now && o.result.willIntersect == later
                  && !o.result.onPath && o.result.lineIntersectingPoints.None?)
  {
    var A, B := nodes[outer].pathPoints, nodes[inner].pathPoints;
    Sat.SatFlags(A, EdgesOf(A), B, EdgesOf(B), cfg.velocity, cfg.recip);
  }

  /**
   * The `catch`: when the separating-axis test faults (exactly one polygon without vertices),
   * the pair is dropped in both modes that run it.
   */
  lemma FaultDropsPair(nodes: seq<Node>, cfg: Config, outer: nat, inner: nat)
    requires ParentsBelow(nodes) && outer < |nodes| && inner < |nodes| && cfg.checkType != LineCollision
    requires (|nodes[outer].pathPoints| == 0) != (|nodes[inner].pathPoints| == 0)
    ensures !PairOutcomeOf(nodes, cfg, outer, inner).Record?
  {
    var A, B := nodes[outer].pathPoints, nodes[inner].pathPoints;
    Sat.SatFaults(A, EdgesOf(A), B, EdgesOf(B), cfg.velocity, cfg.recip);
  }

  /**
   * Mixed mode records the same pairs as separating-axis mode, with the same flags and
   * translation vector; when the polygons overlap now it adds the ray-casting class and the
   * line test's crossings.
   */
  lemma MixedMode(nodes: seq<Node>, cfg: Config, outer: nat, inner: nat)
    requires ParentsBelow(nodes) && outer < |nodes| && inner < |nodes| && cfg.checkType == Mixed
    ensures var o := PairOutcomeOf(nodes, cfg, outer, inner);
            var s := PairOutcomeOf(nodes, cfg.(checkType := SeparatingAxisTheorem), outer, inner);
            && (o.Record? <==> s.Record?)
            && (o.Record? ==>
                  var A, B := nodes[outer].pathPoints, nodes[inner].pathPoints;
                  var hits := Lines.Hits(A, B);
                  && o.result.isIntersecting == s.result.isIntersecting
                  && o.result.willIntersect == s.result.willIntersect
                  && o.result.minimumTranslationVector == s.result.minimumTranslationVector
                  && o.result.collidor == s.result.collidor && o.result.collidee == s.result.collidee
                  && (o.result.isIntersecting ==>
                        o.result.rayCastingResult == Lines.RayClass(A, B)
                        && o.result.onPath == (|hits| > 0) && o.result.lineIntersectingPoints == Some(hits))
                  && (!o.result.isIntersecting ==> o.result == s.result))
  {
  }

  /** Without a threshold the inner loop never stops early. */
  lemma NoThresholdNoStop(nodes: seq<Node>, cfg: Config, outer: nat, inner: nat)
    requires ParentsBelow(nodes) && outer < |nodes| && inner < |nodes| && cfg.minimumArea == 0.0
    ensures !Outcomes(nodes, cfg)(outer, inner).StopInner?
  {
    StopsExactly(nodes, cfg, outer, inner);
  }

  // ----- the list checkForCollision returns -----

  /**
   * Entry `i` of the list comes from a recorded pair of elements at or below the collection,
   * so `RecordedPair` and the mode lemmas describe it.
   */
  lemma ListEntry(nodes: seq<Node>, cfg: Config, elCol: seq<nat>, i: nat)
    requires WellFormed(nodes) && InArena(nodes, elCol)
    requires i < |Walk(nodes, Outcomes(nodes, cfg), elCol, elCol)|
    ensures var f := Walk(nodes, Outcomes(nodes, cfg), elCol, elCol)[i];
            && f.outer < |nodes| && f.inner < |nodes|
            && PairOutcomeOf(nodes, cfg, f.outer, f.inner) == Record(f.result)
            && ResultsOf(Walk(nodes, Outcomes(nodes, cfg), elCol, elCol))[i] == f.result
            && Under(nodes, elCol, f.outer) && Under(nodes, elCol, f.inner)
  {
    var W := Walk(nodes, Outcomes(nodes, cfg), elCol, elCol);
    WalkFound(nodes, Outcomes(nodes, cfg), elCol, elCol, W[i]);
  }

  /**
   * Without a threshold, on a collection of elements without children, the list holds the
   * recorded ordered pairs of the collection, row by row.
   */
  lemma FlatCollection(nodes: seq<Node>, cfg: Config, elCol: seq<nat>)
    requires WellFormed(nodes) && InArena(nodes, elCol) && Childless(nodes, elCol) && cfg.minimumArea == 0.0
    ensures Walk(nodes, Outcomes(nodes, cfg), elCol, elCol) == Rows(Outcomes(nodes, cfg), elCol, elCol)
  {
    forall outer, inner | outer in elCol && inner in elCol
      ensures !Outcomes(nodes, cfg)(outer, inner).StopInner?
    {
      NoThresholdNoStop(nodes, cfg, outer, inner);
    }
    FlatWalk(nodes, Outcomes(nodes, cfg), elCol, elCol);
  }
}
