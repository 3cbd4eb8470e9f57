/**
 * `SvgCollision.checkForCollision` and its recursive walker `iterate`: every visual element
 * of one collection is tested against every visual element of another, by the mode the
 * caller picks, and the pairs that intersect now or after the move are collected.
 */
module Collision {
  import opened Wrappers
  import opened Geometry
  import opened CollisionResults
  import opened Scene
  import Sat = SeparatingAxis
  import Lines = LineIntersection

  /** The settings `checkForCollision` stores in its static fields for the duration of one walk. */
  datatype Config = Config(checkType: CheckType, minimumArea: real, velocity: Vec, recip: Vec -> real)

  /** `element.ID ?? "-"`. */
  function NameOf(n: Node): string
  {
    if n.id.Some? then n.id.value else "-"
  }

  /** The record `LineIntersection.PolygonCollision` returns. */
  function LineResult(A: seq<Vec>, B: seq<Vec>): PolygonCollisionResult
  {
    var hits := Lines.Hits(A, B);
    Default.(isIntersecting := |hits| > 0, onPath := |hits| > 0, lineIntersectingPoints := Some(hits))
  }

  /** The `switch` on the mode; `Throws` when the separating-axis test faults. */
  function TestPair(cfg: Config, A: seq<Vec>, B: seq<Vec>): Result<PolygonCollisionResult>
  {
    match cfg.checkType
    case LineCollision => Ok(LineResult(A, B))
    case SeparatingAxisTheorem => Sat.SatPolygonCollision(A, B, cfg.velocity, cfg.recip)
    case Mixed =>
      match Sat.SatPolygonCollision(A, B, cfg.velocity, cfg.recip)
      case Throws => Throws
      case Ok(r) =>
        if r.isIntersecting then
          var t := LineResult(A, B);
          Ok(r.(rayCastingResult := Lines.RayClass(A, B), onPath := t.onPath, lineIntersectingPoints := t.lineIntersectingPoints))
        else Ok(r)
  }

  /** What the body of the inner `foreach` does with one pair. */
  datatype PairOutcome = Skip | StopInner | Record(result: PolygonCollisionResult)

  /** The pair passes the element test: both visual, distinct, and `inner` not above `outer`. */
  predicate Candidates(nodes: seq<Node>, outer: nat, inner: nat)
    requires ParentsBelow(nodes) && outer < |nodes| && inner < |nodes|
  {
    nodes[inner].isVisual && nodes[outer].isVisual && outer != inner && !IsAncestor(nodes, inner, outer)
  }

  /**
   * One pair: skipped when it is no candidate; `break` when an area threshold is set and
   * either area is below it; otherwise tested, a fault leaving the default record, which is
   * then dropped because neither flag is set.
   */
  function PairOutcomeOf(nodes: seq<Node>, cfg: Config, outer: nat, inner: nat): PairOutcome
    requires ParentsBelow(nodes) && outer < |nodes| && inner < |nodes|
  {
    var o, i := nodes[outer], nodes[inner];
    if !Candidates(nodes, outer, inner) then Skip
    else if cfg.minimumArea != 0.0 && (o.outerArea < cfg.minimumArea || i.outerArea < cfg.minimumArea) then StopInner
    else
      var r := match TestPair(cfg, o.pathPoints, i.pathPoints) case Ok(r) => r case Throws => Default;
      if r.isIntersecting || r.willIntersect then Record(r.(collidor := Some(NameOf(o)), collidee := Some(NameOf(i))))
      else Skip
  }

  /** A recorded pair: the two elements and the record added to the list. */
  datatype Found = Found(outer: nat, inner: nat, result: PolygonCollisionResult)

  /** The list of records a sequence of findings adds. */
  function ResultsOf(fs: seq<Found>): (rs: seq<PolygonCollisionResult>)
    ensures |rs| == |fs| && forall i :: 0 <= i < |fs| ==> rs[i] == fs[i].result
  {
    if fs == [] then [] else [fs[0].result] + ResultsOf(fs[1..])
  }

  lemma {:induction false} ResultsOfConcat(a: seq<Found>, b: seq<Found>)
    ensures ResultsOf(a + b) == ResultsOf(a) + ResultsOf(b)
  {
    assert |ResultsOf(a + b)| == |ResultsOf(a) + ResultsOf(b)|;
    forall i | 0 <= i < |a + b|
      ensures ResultsOf(a + b)[i] == (ResultsOf(a) + ResultsOf(b))[i]
    {
      if i < |a| {
        assert (a + b)[i] == a[i];
      } else {
        assert (a + b)[i] == b[i - |a|];
      }
    }
  }

  // ----- termination measure -----

  /** The least index in a collection, or the arena size for an empty one. */
  function Floor(nodes: seq<Node>, c: seq<nat>): (f: nat)
    requires InArena(nodes, c)
    ensures f <= |nodes| && (forall x :: x in c ==> f <= x) && (c != [] ==> f in c)
  {
    if c == [] then |nodes|
    else
      assert forall x :: x in c <==> x == c[0] || x in c[1..];
      assert c[0] in c;
      var rest := Floor(nodes, c[1..]);
      if c[0] <= rest then c[0] else rest
  }

  /** Descending to the children of any member of a collection lowers the rank. */
  function Rank(nodes: seq<Node>, c: seq<nat>): nat
    requires InArena(nodes, c)
  {
    |nodes| - Floor(nodes, c)
  }

  lemma ChildrenRankBelow(nodes: seq<Node>, c: seq<nat>, x: nat)
    requires WellFormed(nodes) && InArena(nodes, c) && x in c
    ensures InArena(nodes, nodes[x].children)
    ensures Rank(nodes, nodes[x].children) < Rank(nodes, c)
  {
    assert ChildrenLinked(nodes, x);
  }

  // ----- iterate -----

  /** Appending the results of `sub` and then of `found` appends the results of `sub + found`. */
  lemma Extend(before: seq<PolygonCollisionResult>, sub: seq<Found>, found: seq<Found>)
    ensures before + ResultsOf(sub) + ResultsOf(found) == before + ResultsOf(sub + found)
  {
    ResultsOfConcat(sub, found);
  }

  lemma AppendAssoc<T>(a: seq<T>, b: seq<T>, c: seq<T>)
    ensures a + (b + c) == (a + b) + c
  {
  }

  /**
   * The test of one pair as `iterate` applies it; `Skip` outside the arena, where the walk
   * never looks.
   */
  function Outcomes(nodes: seq<Node>, cfg: Config): (nat, nat) -> PairOutcome
  {
    (outer: nat, inner: nat) =>
      if ParentsBelow(nodes) && outer < |nodes| && inner < |nodes| then PairOutcomeOf(nodes, cfg, outer, inner) else Skip
  }

  /** `pair` is the test of `cfg` on the arena. */
  ghost predicate Agrees(nodes: seq<Node>, cfg: Config, pair: (nat, nat) -> PairOutcome)
  {
    ParentsBelow(nodes) ==>
      forall outer: nat, inner: nat {:trigger PairOutcomeOf(nodes, cfg, outer, inner)} ::
        outer < |nodes| && inner < |nodes| ==> pair(outer, inner) == PairOutcomeOf(nodes, cfg, outer, inner)
  }

  lemma OutcomesAgree(nodes: seq<Node>, cfg: Config)
    ensures Agrees(nodes, cfg, Outcomes(nodes, cfg))
  {
  }

  /**
   * `iterate(c1, c2)`: the findings, in the order they are appended, for any test `pair`
   * of one pair of elements.
   */
  function Walk(nodes: seq<Node>, pair: (nat, nat) -> PairOutcome, c1: seq<nat>, c2: seq<nat>): seq<Found>
    requires WellFormed(nodes) && InArena(nodes, c1) && InArena(nodes, c2)
    decreases Rank(nodes, c1), 2, 0, 0, 0
  {
    WalkFrom(nodes, pair, c1, 0, c2)
  }

  /** The outer `foreach` from member `k` of `c1` on. */
  function WalkFrom(nodes: seq<Node>, pair: (nat, nat) -> PairOutcome, c1: seq<nat>, k: nat, c2: seq<nat>): seq<Found>
    requires WellFormed(nodes) && InArena(nodes, c1) && InArena(nodes, c2) && k <= |c1|
    decreases Rank(nodes, c1), 1, |c1| - k, 1, 0
  {
    if k == |c1| then [] else OuterPart(nodes, pair, c1, k, c2) + WalkFrom(nodes, pair, c1, k + 1, c2)
  }

  /** One pass of the outer `foreach`: the walk below `outer` against all of `c2`, then the inner `foreach`. */
  function OuterPart(nodes: seq<Node>, pair: (nat, nat) -> PairOutcome, c1: seq<nat>, k: nat, c2: seq<nat>): seq<Found>
    requires WellFormed(nodes) && InArena(nodes, c1) && InArena(nodes, c2) && k < |c1|
    decreases Rank(nodes, c1), 1, |c1| - k, 0, 0
  {
    var outer := c1[k];
    ChildrenRankBelow(nodes, c1, outer);
    var kids := nodes[outer].children;
    (if |kids| != 0 then Walk(nodes, pair, kids, c2) else []) + InnerWalk(nodes, pair, c1, k, c2, 0)
  }

  /** The inner `foreach` for outer member `k`, from member `j` of `c2` on; a `break` ends it. */
  function InnerWalk(nodes: seq<Node>, pair: (nat, nat) -> PairOutcome, c1: seq<nat>, k: nat, c2: seq<nat>, j: nat): seq<Found>
    requires WellFormed(nodes) && InArena(nodes, c1) && InArena(nodes, c2) && k < |c1| && j <= |c2|
    decreases Rank(nodes, c1), 0, |c1| - k, |c2| - j, 1
  {
    if j == |c2| then []
    else if pair(c1[k], c2[j]).StopInner? then InnerPart(nodes, pair, c1, k, c2, j)
    else InnerPart(nodes, pair, c1, k, c2, j) + InnerWalk(nodes, pair, c1, k, c2, j + 1)
  }

  /** What the test of the pair `outer`, `inner` adds to the walk. */
  function FoundOf(outer: nat, inner: nat, outcome: PairOutcome): (fs: seq<Found>)
    ensures outcome.Record? ==> fs == [Found(outer, inner, outcome.result)]
    ensures !outcome.Record? ==> fs == []
  {
    match outcome case Record(r) => [Found(outer, inner, r)] case _ => []
  }

  /** One pass of the inner `foreach`: the walk below both elements, then the pair itself. */
  function InnerPart(nodes: seq<Node>, pair: (nat, nat) -> PairOutcome, c1: seq<nat>, k: nat, c2: seq<nat>, j: nat): seq<Found>
    requires WellFormed(nodes) && InArena(nodes, c1) && InArena(nodes, c2) && k < |c1| && j < |c2|
    decreases Rank(nodes, c1), 0, |c1| - k, |c2| - j, 0
  {
    var outer, inner := c1[k], c2[j];
    ChildrenRankBelow(nodes, c1, outer);
    ChildrenRankBelow(nodes, c2, inner);
    (if |nodes[inner].children| != 0 then Walk(nodes, pair, nodes[outer].children, nodes[inner].children) else [])
    + FoundOf(outer, inner, pair(outer, inner))
  }

  /** One pass of the inner `foreach` is the walk below both elements followed by the pair's own result. */
  lemma InnerPartSplit(nodes: seq<Node>, pair: (nat, nat) -> PairOutcome, c1: seq<nat>, k: nat, c2: seq<nat>, j: nat, sub: seq<Found>)
    requires WellFormed(nodes) && InArena(nodes, c1) && InArena(nodes, c2) && k < |c1| && j < |c2|
    requires c1[k] < |nodes| && c2[j] < |nodes| && InArena(nodes, nodes[c1[k]].children) && InArena(nodes, nodes[c2[j]].children)
    requires sub == if |nodes[c2[j]].children| != 0 then Walk(nodes, pair, nodes[c1[k]].children, nodes[c2[j]].children) else []
    ensures InnerPart(nodes, pair, c1, k, c2, j) == sub + FoundOf(c1[k], c2[j], pair(c1[k], c2[j]))
  {
  }

  /** The per-call context: the settings and the list `_collisionResultList` the walk appends to. */
  class CollisionWalk {
    const nodes: seq<Node>
    const cfg: Config
    /** The pair test of `cfg`, as the walk specification sees it. */
    ghost const pair: (nat, nat) -> PairOutcome
    var results: seq<PolygonCollisionResult>

    constructor (nodes: seq<Node>, cfg: Config)
      ensures this.nodes == nodes && this.cfg == cfg && pair == Outcomes(nodes, cfg) && results == []
    {
      this.nodes := nodes;
      this.cfg := cfg;
      pair := Outcomes(nodes, cfg);
      results := [];
    }

    /** One pair, as the body of the inner loop runs it. */
    method TestElements(outer: nat, inner: nat) returns (outcome: PairOutcome)
      requires ParentsBelow(nodes) && outer < |nodes| && inner < |nodes|
      ensures outcome == PairOutcomeOf(nodes, cfg, outer, inner)
    {
      var outerElement, innerElement := nodes[outer], nodes[inner];
      if !(innerElement.isVisual && outerElement.isVisual && outer != inner) {
        return Skip;
      }
      var p := IsParent(nodes, inner, outer);
      if p {
        return Skip;
      }
      var r := Default;
      if cfg.minimumArea != 0.0 {
        if outerElement.outerArea < cfg.minimumArea {
          return StopInner;
        }
        if innerElement.outerArea < cfg.minimumArea {
          return StopInner;
        }
      }
      var ptsA, ptsB := outerElement.pathPoints, innerElement.pathPoints;
      match cfg.checkType {
        case LineCollision =>
          r := Lines.PolygonCollision(ptsA, ptsB);
        case SeparatingAxisTheorem =>
          var s := Sat.PolygonCollision(ptsA, ptsB, cfg.velocity, cfg.recip);
          if s.Ok? {
            r := s.value;
          }
        case Mixed =>
          var s := Sat.PolygonCollision(ptsA, ptsB, cfg.velocity, cfg.recip);
          if s.Ok? {
            r := s.value;
            if r.isIntersecting {
              var t := Lines.PolygonCollision(ptsA, ptsB);
              var ray := Lines.RayCasting(ptsA, ptsB);
              r := r.(rayCastingResult := ray, onPath := t.onPath, lineIntersectingPoints := t.lineIntersectingPoints);
            }
          }
      }
      if r.isIntersecting || r.willIntersect {
        r := r.(collidor := Some(NameOf(outerElement)), collidee := Some(NameOf(innerElement)));
        return Record(r);
      }
      return Skip;
    }

    /** `iterate(elementCollection1, elementCollection2)`. */
    method Iterate(c1: seq<nat>, c2: seq<nat>)
      requires WellFormed(nodes) && Agrees(nodes, cfg, pair) && InArena(nodes, c1) && InArena(nodes, c2)
      modifies this
      ensures results == old(results) + ResultsOf(Walk(nodes, pair, c1, c2))
      decreases Rank(nodes, c1), 3
    {
      ghost var target := old(results) + ResultsOf(Walk(nodes, pair, c1, c2));
      var k := 0;
      while k < |c1|
        invariant 0 <= k <= |c1|
        invariant results + ResultsOf(WalkFrom(nodes, pair, c1, k, c2)) == target
      {
        ghost var before := results;
        ghost var here, later := OuterPart(nodes, pair, c1, k, c2), WalkFrom(nodes, pair, c1, k + 1, c2);
        assert WalkFrom(nodes, pair, c1, k, c2) == here + later;
        ResultsOfConcat(here, later);
        AppendAssoc(before, ResultsOf(here), ResultsOf(later));
        OuterElement(c1, k, c2);
        k := k + 1;
      }
    }

    /** The body of the outer `foreach` for `c1[k]`. */
    method OuterElement(c1: seq<nat>, k: nat, c2: seq<nat>)
      requires WellFormed(nodes) && Agrees(nodes, cfg, pair) && InArena(nodes, c1) && InArena(nodes, c2) && k < |c1|
      modifies this
      ensures results == old(results) + ResultsOf(OuterPart(nodes, pair, c1, k, c2))
      decreases Rank(nodes, c1), 2
    {
      var outer := c1[k];
      ChildrenRankBelow(nodes, c1, outer);
      var kids := nodes[outer].children;
      ghost var part := if |kids| != 0 then Walk(nodes, pair, kids, c2) else [];
      if |kids| != 0 {
        Iterate(kids, c2);
      } else {
        assert old(results) + ResultsOf(part) == old(results);
      }
      ghost var mid, rest := results, InnerWalk(nodes, pair, c1, k, c2, 0);
      assert mid == old(results) + ResultsOf(part);
      assert OuterPart(nodes, pair, c1, k, c2) == part + rest;
      ResultsOfConcat(part, rest);
      AppendAssoc(old(results), ResultsOf(part), ResultsOf(rest));
      InnerLoop(c1, k, c2);
    }

    /** The inner `foreach` for `c1[k]`. */
    method InnerLoop(c1: seq<nat>, k: nat, c2: seq<nat>)
      requires WellFormed(nodes) && Agrees(nodes, cfg, pair) && InArena(nodes, c1) && InArena(nodes, c2) && k < |c1|
      modifies this
      ensures results == old(results) + ResultsOf(InnerWalk(nodes, pair, c1, k, c2, 0))
      decreases Rank(nodes, c1), 1
    {
      ghost var target := old(results) + ResultsOf(InnerWalk(nodes, pair, c1, k, c2, 0));
      var j := 0;
      while j < |c2|
        invariant 0 <= j <= |c2|
        invariant results + ResultsOf(InnerWalk(nodes, pair, c1, k, c2, j)) == target
      {
        ghost var before := results;
        ghost var here, later := InnerPart(nodes, pair, c1, k, c2, j), InnerWalk(nodes, pair, c1, k, c2, j + 1);
        var stop := InnerElement(c1, k, c2, j);
        if stop {
          assert InnerWalk(nodes, pair, c1, k, c2, j) == here;
          assert results + [] == results;
          break;
        }
        assert InnerWalk(nodes, pair, c1, k, c2, j) == here + later;
        ResultsOfConcat(here, later);
        AppendAssoc(before, ResultsOf(here), ResultsOf(later));
        j := j + 1;
      }
    }

    /** The body of the inner `foreach` for the pair `c1[k]`, `c2[j]`; `stop` is its `break`. */
    method InnerElement(c1: seq<nat>, k: nat, c2: seq<nat>, j: nat) returns (stop: bool)
      requires WellFormed(nodes) && Agrees(nodes, cfg, pair) && InArena(nodes, c1) && InArena(nodes, c2) && k < |c1| && j < |c2|
      modifies this
      ensures stop == pair(c1[k], c2[j]).StopInner?
      ensures results == old(results) + ResultsOf(InnerPart(nodes, pair, c1, k, c2, j))
      decreases Rank(nodes, c1), 0
    {
      var outer, inner := c1[k], c2[j];
      ChildrenRankBelow(nodes, c1, outer);
      ChildrenRankBelow(nodes, c2, inner);
      ghost var sub := if |nodes[inner].children| != 0 then Walk(nodes, pair, nodes[outer].children, nodes[inner].children) else [];
      if |nodes[inner].children| != 0 {
        Iterate(nodes[outer].children, nodes[inner].children);
      } else {
        assert old(results) + ResultsOf(sub) == old(results);
      }
      ghost var mid := results;
      var outcome := TestElements(outer, inner);
      assert outcome == pair(outer, inner);
      stop := outcome.StopInner?;
      ghost var found := FoundOf(outer, inner, outcome);
      InnerPartSplit(nodes, pair, c1, k, c2, j, sub);
      if outcome.Record? {
        results := results + [outcome.result];
      }
      assert results == mid + ResultsOf(found) by {
        if outcome.Record? {
          assert ResultsOf(found) == [outcome.result];
        } else {
          assert mid + ResultsOf(found) == mid;
        }
      }
      Extend(old(results), sub, found);
    }
  }

  /** `checkForCollision(elCol, colCheckType, minimumArea, velocity)`: a fresh list, then `iterate(elCol, elCol)`. */
  method CheckForCollision(nodes: seq<Node>, elCol: seq<nat>, colCheckType: CheckType, minimumArea: real, velocity: Vec, recip: Vec -> real)
    returns (list: seq<PolygonCollisionResult>)
    requires WellFormed(nodes) && InArena(nodes, elCol)
    ensures list == ResultsOf(Walk(nodes, Outcomes(nodes, Config(colCheckType, minimumArea, velocity, recip)), elCol, elCol))
  {
    var walk := new CollisionWalk(nodes, Config(colCheckType, minimumArea, velocity, recip));
    OutcomesAgree(nodes, walk.cfg);
    walk.Iterate(elCol, elCol);
    list := walk.results;
  }
}
