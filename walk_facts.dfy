/**
 * What the walk of `iterate` finds, for any pair test: every finding is a pair the test
 * records, its outer element lies at or below the first collection and its inner element at
 * or below the second, the outer one at least as deep as the inner one; a `break` ends the
 * row of its outer element; without children on the outer side the walk is a plain double
 * loop.
 */
module WalkFacts {
  import opened Wrappers
  import opened Scene
  import opened Collision

  /** `x` is a member of `c` or lies below one. */
  ghost predicate Under(nodes: seq<Node>, c: seq<nat>, x: nat)
    requires ParentsBelow(nodes) && x < |nodes|
  {
    exists m :: m in c && (m == x || IsAncestor(nodes, m, x))
  }

  /** The node `d` parent links above `x`, if the chain is that long. */
  function Up(nodes: seq<Node>, x: nat, d: nat): (r: Option<nat>)
    requires ParentsBelow(nodes) && x < |nodes|
    ensures r.Some? ==> r.value <= x
    decreases d
  {
    if d == 0 then Some(x)
    else match nodes[x].parent
      case None => None
      case Some(p) => Up(nodes, p, d - 1)
  }

  /** `x` lies exactly `d` levels below a member of `c`. */
  ghost predicate At(nodes: seq<Node>, c: seq<nat>, x: nat, d: nat)
    requires ParentsBelow(nodes) && x < |nodes|
  {
    Up(nodes, x, d).Some? && Up(nodes, x, d).value in c
  }

  /** `x` lies below `c1` at least as deep as `y` lies below `c2`. */
  ghost predicate OuterDeeper(nodes: seq<Node>, c1: seq<nat>, c2: seq<nat>, x: nat, y: nat)
    requires ParentsBelow(nodes) && x < |nodes| && y < |nodes|
  {
    exists d1: nat, d2: nat :: d2 <= d1 && At(nodes, c1, x, d1) && At(nodes, c2, y, d2)
  }

  /**
   * A finding of the walk over `c1` and `c2` that the test `pair` accounts for; its outer
   * element is at least as deep below `c1` as its inner element is below `c2`.
   */
  ghost predicate Sound(nodes: seq<Node>, pair: (nat, nat) -> PairOutcome, c1: seq<nat>, c2: seq<nat>, f: Found)
    requires ParentsBelow(nodes)
  {
    f.outer < |nodes| && f.inner < |nodes| && pair(f.outer, f.inner) == Record(f.result)
    && Under(nodes, c1, f.outer) && Under(nodes, c2, f.inner)
    && OuterDeeper(nodes, c1, c2, f.outer, f.inner)
  }

  /** One more step up from `x` is one step up from the node `d` levels above it. */
  lemma {:induction false} UpSucc(nodes: seq<Node>, x: nat, d: nat)
    requires ParentsBelow(nodes) && x < |nodes|
    ensures Up(nodes, x, d + 1) == match Up(nodes, x, d) case None => None case Some(y) => nodes[y].parent
    decreases d
  {
    if d > 0 && nodes[x].parent.Some? {
      UpSucc(nodes, nodes[x].parent.value, d - 1);
    }
  }

  /** Lying `d` levels below a child of `p` is lying `d + 1` levels below `p`. */
  lemma ChildAt(nodes: seq<Node>, c: seq<nat>, p: nat, x: nat, d: nat)
    requires WellFormed(nodes) && p in c && p < |nodes| && x < |nodes| && At(nodes, nodes[p].children, x, d)
    ensures At(nodes, c, x, d + 1)
  {
    assert ChildrenLinked(nodes, p);
    UpSucc(nodes, x, d);
  }

  /** A finding below the children of `o` and below `c2` is one level deeper below `c1`. */
  lemma DeeperBelowOuter(nodes: seq<Node>, c1: seq<nat>, c2: seq<nat>, o: nat, x: nat, y: nat)
    requires WellFormed(nodes) && o in c1 && o < |nodes| && x < |nodes| && y < |nodes|
    requires OuterDeeper(nodes, nodes[o].children, c2, x, y)
    ensures OuterDeeper(nodes, c1, c2, x, y)
  {
    var d1: nat, d2: nat :| d2 <= d1 && At(nodes, nodes[o].children, x, d1) && At(nodes, c2, y, d2);
    ChildAt(nodes, c1, o, x, d1);
    assert At(nodes, c1, x, d1 + 1) && At(nodes, c2, y, d2);
  }

  /** A finding below the children of `o` and of `i` is one level deeper on both sides. */
  lemma DeeperBelowBoth(nodes: seq<Node>, c1: seq<nat>, c2: seq<nat>, o: nat, i: nat, x: nat, y: nat)
    requires WellFormed(nodes) && o in c1 && i in c2 && o < |nodes| && i < |nodes| && x < |nodes| && y < |nodes|
    requires OuterDeeper(nodes, nodes[o].children, nodes[i].children, x, y)
    ensures OuterDeeper(nodes, c1, c2, x, y)
  {
    var d1: nat, d2: nat :| d2 <= d1 && At(nodes, nodes[o].children, x, d1) && At(nodes, nodes[i].children, y, d2);
    ChildAt(nodes, c1, o, x, d1);
    ChildAt(nodes, c2, i, y, d2);
    assert At(nodes, c1, x, d1 + 1) && At(nodes, c2, y, d2 + 1);
  }

  /** Lying below a child of `p` is lying strictly below `p`. */
  lemma ChildrenUnder(nodes: seq<Node>, c: seq<nat>, p: nat, x: nat)
    requires WellFormed(nodes) && p in c && p < |nodes| && x < |nodes| && Under(nodes, nodes[p].children, x)
    ensures Under(nodes, c, x) && IsAncestor(nodes, p, x) && p < x
  {
    var m :| m in nodes[p].children && (m == x || IsAncestor(nodes, m, x));
    assert ChildrenLinked(nodes, p);
    ParentIsAncestor(nodes, p, m);
    if m != x {
      AncestorTransitive(nodes, p, m, x);
    }
    AncestorBelow(nodes, p, x);
  }

  lemma {:induction false} WalkFound(nodes: seq<Node>, pair: (nat, nat) -> PairOutcome, c1: seq<nat>, c2: seq<nat>, f: Found)
    requires WellFormed(nodes) && InArena(nodes, c1) && InArena(nodes, c2)
    requires f in Walk(nodes, pair, c1, c2)
    ensures Sound(nodes, pair, c1, c2, f)
    decreases Rank(nodes, c1), 2, 0, 0, 0
  {
    WalkFromFound(nodes, pair, c1, 0, c2, f);
  }

  lemma {:induction false} WalkFromFound(nodes: seq<Node>, pair: (nat, nat) -> PairOutcome, c1: seq<nat>, k: nat, c2: seq<nat>, f: Found)
    requires WellFormed(nodes) && InArena(nodes, c1) && InArena(nodes, c2) && k <= |c1|
    requires f in WalkFrom(nodes, pair, c1, k, c2)
    ensures Sound(nodes, pair, c1, c2, f)
    decreases Rank(nodes, c1), 1, |c1| - k, 1, 0
  {
    if f in OuterPart(nodes, pair, c1, k, c2) {
      OuterPartFound(nodes, pair, c1, k, c2, f);
    } else {
      WalkFromFound(nodes, pair, c1, k + 1, c2, f);
    }
  }

  lemma {:induction false} OuterPartFound(nodes: seq<Node>, pair: (nat, nat) -> PairOutcome, c1: seq<nat>, k: nat, c2: seq<nat>, f: Found)
    requires WellFormed(nodes) && InArena(nodes, c1) && InArena(nodes, c2) && k < |c1|
    requires f in OuterPart(nodes, pair, c1, k, c2)
    ensures Sound(nodes, pair, c1, c2, f)
    decreases Rank(nodes, c1), 1, |c1| - k, 0, 0
  {
    var outer := c1[k];
    ChildrenRankBelow(nodes, c1, outer);
    var kids := nodes[outer].children;
    if |kids| != 0 && f in Walk(nodes, pair, kids, c2) {
      WalkFound(nodes, pair, kids, c2, f);
      ChildrenUnder(nodes, c1, outer, f.outer);
      DeeperBelowOuter(nodes, c1, c2, outer, f.outer, f.inner);
    } else {
      InnerWalkFound(nodes, pair, c1, k, c2, 0, f);
    }
  }

  lemma {:induction false} InnerWalkFound(nodes: seq<Node>, pair: (nat, nat) -> PairOutcome, c1: seq<nat>, k: nat, c2: seq<nat>, j: nat, f: Found)
    requires WellFormed(nodes) && InArena(nodes, c1) && InArena(nodes, c2) && k < |c1| && j <= |c2|
    requires f in InnerWalk(nodes, pair, c1, k, c2, j)
    ensures Sound(nodes, pair, c1, c2, f)
    decreases Rank(nodes, c1), 0, |c1| - k, |c2| - j, 1
  {
    if f in InnerPart(nodes, pair, c1, k, c2, j) {
      InnerPartFound(nodes, pair, c1, k, c2, j, f);
    } else {
      InnerWalkFound(nodes, pair, c1, k, c2, j + 1, f);
    }
  }

  lemma {:induction false} InnerPartFound(nodes: seq<Node>, pair: (nat, nat) -> PairOutcome, c1: seq<nat>, k: nat, c2: seq<nat>, j: nat, f: Found)
    requires WellFormed(nodes) && InArena(nodes, c1) && InArena(nodes, c2) && k < |c1| && j < |c2|
    requires f in InnerPart(nodes, pair, c1, k, c2, j)
    ensures Sound(nodes, pair, c1, c2, f)
    ensures f.outer == c1[k] ==> f.inner == c2[j] && pair(c1[k], c2[j]).Record?
    decreases Rank(nodes, c1), 0, |c1| - k, |c2| - j, 0
  {
    var outer, inner := c1[k], c2[j];
    ChildrenRankBelow(nodes, c1, outer);
    ChildrenRankBelow(nodes, c2, inner);
    var kids := nodes[outer].children;
    if |nodes[inner].children| != 0 && f in Walk(nodes, pair, kids, nodes[inner].children) {
      WalkFound(nodes, pair, kids, nodes[inner].children, f);
      ChildrenUnder(nodes, c1, outer, f.outer);
      ChildrenUnder(nodes, c2, inner, f.inner);
      DeeperBelowBoth(nodes, c1, c2, outer, inner, f.outer, f.inner);
    } else {
      assert f == Found(outer, inner, pair(outer, inner).result);
      assert outer in c1 && inner in c2;
      assert At(nodes, c1, outer, 0) && At(nodes, c2, inner, 0);
    }
  }

  /**
   * The `break`: once the pair `c1[k]`, `c2[j]` stops the inner loop, the rest of that
   * loop records nothing more with `c1[k]` as the outer element.
   */
  lemma StopEndsRow(nodes: seq<Node>, pair: (nat, nat) -> PairOutcome, c1: seq<nat>, k: nat, c2: seq<nat>, j: nat, f: Found)
    requires WellFormed(nodes) && InArena(nodes, c1) && InArena(nodes, c2) && k < |c1| && j < |c2|
    requires pair(c1[k], c2[j]).StopInner? && f in InnerWalk(nodes, pair, c1, k, c2, j)
    ensures f.outer != c1[k]
  {
    InnerPartFound(nodes, pair, c1, k, c2, j, f);
  }

  // ----- a flat collection -----

  /** The findings of a plain double loop over `c1` and `c2`, row by row. */
  function Rows(pair: (nat, nat) -> PairOutcome, c1: seq<nat>, c2: seq<nat>): seq<Found>
  {
    if c1 == [] then [] else Row(pair, c1[0], c2) + Rows(pair, c1[1..], c2)
  }

  /** The findings of `outer` against each member of `c2` in turn. */
  function Row(pair: (nat, nat) -> PairOutcome, outer: nat, c2: seq<nat>): seq<Found>
  {
    if c2 == [] then []
    else (match pair(outer, c2[0]) case Record(r) => [Found(outer, c2[0], r)] case _ => []) + Row(pair, outer, c2[1..])
  }

  /** No member of `c` has children. */
  predicate Childless(nodes: seq<Node>, c: seq<nat>)
    requires InArena(nodes, c)
  {
    forall x :: x in c ==> nodes[x].children == []
  }

  /** No pair of `c1` and `c2` stops the inner loop. */
  ghost predicate NeverStops(pair: (nat, nat) -> PairOutcome, c1: seq<nat>, c2: seq<nat>)
  {
    forall outer, inner :: outer in c1 && inner in c2 ==> !pair(outer, inner).StopInner?
  }

  /**
   * When no outer element has children and the test never stops, the walk is the plain double
   * loop: every ordered pair once, in order (the descent into inner children pairs them with
   * the outer element's children, of which there are none).
   */
  lemma {:induction false} FlatWalk(nodes: seq<Node>, pair: (nat, nat) -> PairOutcome, c1: seq<nat>, c2: seq<nat>)
    requires WellFormed(nodes) && InArena(nodes, c1) && InArena(nodes, c2)
    requires Childless(nodes, c1) && NeverStops(pair, c1, c2)
    ensures Walk(nodes, pair, c1, c2) == Rows(pair, c1, c2)
  {
    FlatWalkFrom(nodes, pair, c1, 0, c2);
    assert c1[0..] == c1;
  }

  lemma {:induction false} FlatWalkFrom(nodes: seq<Node>, pair: (nat, nat) -> PairOutcome, c1: seq<nat>, k: nat, c2: seq<nat>)
    requires WellFormed(nodes) && InArena(nodes, c1) && InArena(nodes, c2) && k <= |c1|
    requires Childless(nodes, c1) && NeverStops(pair, c1, c2)
    ensures WalkFrom(nodes, pair, c1, k, c2) == Rows(pair, c1[k..], c2)
    decreases |c1| - k
  {
    if k < |c1| {
      assert c1[k] in c1;
      FlatOuterPart(nodes, pair, c1, k, c2);
      FlatWalkFrom(nodes, pair, c1, k + 1, c2);
      assert c1[k..][1..] == c1[k + 1..];
    }
  }

  /** A childless outer element: its pass is the inner loop alone, which is its row. */
  lemma FlatOuterPart(nodes: seq<Node>, pair: (nat, nat) -> PairOutcome, c1: seq<nat>, k: nat, c2: seq<nat>)
    requires WellFormed(nodes) && InArena(nodes, c1) && InArena(nodes, c2) && k < |c1|
    requires Childless(nodes, c1) && NeverStops(pair, c1, c2)
    ensures OuterPart(nodes, pair, c1, k, c2) == Row(pair, c1[k], c2)
  {
    assert c1[k] in c1;
    FlatInnerWalk(nodes, pair, c1, k, c2, 0);
    assert c2[0..] == c2;
    assert OuterPart(nodes, pair, c1, k, c2) == [] + InnerWalk(nodes, pair, c1, k, c2, 0);
  }

  lemma {:induction false} FlatInnerWalk(nodes: seq<Node>, pair: (nat, nat) -> PairOutcome, c1: seq<nat>, k: nat, c2: seq<nat>, j: nat)
    requires WellFormed(nodes) && InArena(nodes, c1) && InArena(nodes, c2) && k < |c1| && j <= |c2|
    requires Childless(nodes, c1) && NeverStops(pair, c1, c2)
    ensures InnerWalk(nodes, pair, c1, k, c2, j) == Row(pair, c1[k], c2[j..])
    decreases |c2| - j
  {
    if j < |c2| {
      assert c1[k] in c1 && c2[j] in c2;
      FlatInnerPart(nodes, pair, c1, k, c2, j);
      FlatInnerWalk(nodes, pair, c1, k, c2, j + 1);
      RowFront(pair, c1[k], c2[j..]);
      assert c2[j..][1..] == c2[j + 1..];
    }
  }

  /** A childless outer element: one pass of the inner loop gives the pair's own finding. */
  lemma FlatInnerPart(nodes: seq<Node>, pair: (nat, nat) -> PairOutcome, c1: seq<nat>, k: nat, c2: seq<nat>, j: nat)
    requires WellFormed(nodes) && InArena(nodes, c1) && InArena(nodes, c2) && k < |c1| && j < |c2|
    requires Childless(nodes, c1)
    ensures InnerPart(nodes, pair, c1, k, c2, j) == Row(pair, c1[k], [c2[j]])
  {
    assert c1[k] in c1 && c2[j] in c2;
    ChildrenRankBelow(nodes, c2, c2[j]);
    assert Walk(nodes, pair, [], nodes[c2[j]].children) == [];
    assert [c2[j]][1..] == [];
  }

  /** A row splits off its first pair. */
  lemma RowFront(pair: (nat, nat) -> PairOutcome, outer: nat, c2: seq<nat>)
    requires |c2| > 0
    ensures Row(pair, outer, c2) == Row(pair, outer, [c2[0]]) + Row(pair, outer, c2[1..])
  {
    assert [c2[0]][1..] == [];
  }

  // ----- the uneven descent -----

  /**
   * Two top-level groups (0, 1): the first holds the leaf `a` (2), the second a group (3)
   * holding the leaf `b` (4).
   */
  const Uneven: seq<Node> := [
    Node(None, None, [2], true, false, [], 0.0, map[]),
    Node(None, None, [3], true, false, [], 0.0, map[]),
    Node(None, Some(0), [], true, false, [], 0.0, map[]),
    Node(None, Some(1), [4], true, false, [], 0.0, map[]),
    Node(None, Some(3), [], true, false, [], 0.0, map[])
  ]

  lemma UnevenWellFormed()
    ensures WellFormed(Uneven) && InArena(Uneven, [0, 1])
  {
    forall i | 0 <= i < |Uneven| && Uneven[i].parent.Some?
      ensures Uneven[i].parent.value < i
    {
      assert i == 2 || i == 3 || i == 4;
    }
    forall i | 0 <= i < |Uneven|
      ensures ChildrenLinked(Uneven, i)
    {
      assert Uneven[i].children == if i == 0 then [2] else if i == 1 then [3] else if i == 3 then [4] else [];
    }
  }

  /** `a` lies one level below the two groups and `b` two levels. */
  lemma UnevenDepths(d1: nat, d2: nat)
    requires ParentsBelow(Uneven) && At(Uneven, [0, 1], 2, d1) && At(Uneven, [0, 1], 4, d2)
    ensures d1 == 1 && d2 == 2
  {
    assert d1 > 0 && Up(Uneven, 2, d1) == Up(Uneven, 0, d1 - 1);
    assert d2 > 1 && Up(Uneven, 4, d2) == Up(Uneven, 1, d2 - 2);
  }

  /**
   * Descending on the outer side alone never pairs a shallow outer element with a deeper
   * inner one: whatever the test, `iterate` on the two groups never tests `a` against `b`.
   */
  lemma UnevenDescent(pair: (nat, nat) -> PairOutcome, f: Found)
    requires WellFormed(Uneven) && f in Walk(Uneven, pair, [0, 1], [0, 1])
    ensures !(f.outer == 2 && f.inner == 4)
  {
    UnevenWellFormed();
    UnevenNotDeeper();
    NeverShallow(Uneven, pair, [0, 1], [0, 1], f, 2, 4);
  }

  /** `a` is not as deep below the groups as `b`. */
  lemma UnevenNotDeeper()
    requires ParentsBelow(Uneven)
    ensures !OuterDeeper(Uneven, [0, 1], [0, 1], 2, 4)
  {
    forall d1: nat, d2: nat | d2 <= d1 && At(Uneven, [0, 1], 2, d1) && At(Uneven, [0, 1], 4, d2)
      ensures false
    {
      UnevenDepths(d1, d2);
    }
  }

  /** A pair whose outer element lies less deep than its inner one is never recorded. */
  lemma NeverShallow(nodes: seq<Node>, pair: (nat, nat) -> PairOutcome, c1: seq<nat>, c2: seq<nat>, f: Found, x: nat, y: nat)
    requires WellFormed(nodes) && InArena(nodes, c1) && InArena(nodes, c2) && f in Walk(nodes, pair, c1, c2)
    requires x < |nodes| && y < |nodes| && !OuterDeeper(nodes, c1, c2, x, y)
    ensures !(f.outer == x && f.inner == y)
  {
    WalkFound(nodes, pair, c1, c2, f);
  }
}
