/**
 * The element tree the collision walker and the extension helpers run over. Elements live
 * in an arena: the index of a node is its reference identity, so `outer != inner` in
 * `iterate` is index inequality.
 */
module Scene {
  import opened Wrappers
  import opened Geometry

  /**
   * One `SvgElement`. For a visual element, `pathPoints` is the flattened `Path.PathPoints`
   * and `outerArea` is `PathOuterArea.Value`; both come from the graphics library.
   * `customAttributes` maps a name to a possibly `null` value.
   */
  datatype Node = Node(
    id: Option<string>,
    parent: Option<nat>,
    children: seq<nat>,
    isVisual: bool,
    isDocument: bool,
    pathPoints: seq<Vec>,
    outerArea: real,
    customAttributes: map<string, Option<string>>)

  /** Every parent link points to an earlier node. */
  predicate ParentsBelow(nodes: seq<Node>)
  {
    forall i :: 0 <= i < |nodes| && nodes[i].parent.Some? ==> nodes[i].parent.value < i
  }

  /** A node's children come after it, lie in the arena and link back to it. */
  predicate ChildrenLinked(nodes: seq<Node>, i: nat)
    requires i < |nodes|
  {
    forall c :: c in nodes[i].children ==> i < c < |nodes| && nodes[c].parent == Some(i)
  }

  /** A tree in the arena: parents before children, child lists consistent with parent links. */
  predicate WellFormed(nodes: seq<Node>)
  {
    ParentsBelow(nodes) && forall i :: 0 <= i < |nodes| ==> ChildrenLinked(nodes, i)
  }

  /** All members of a collection are nodes of the arena. */
  predicate InArena(nodes: seq<Node>, c: seq<nat>)
  {
    forall x :: x in c ==> x < |nodes|
  }

  // ----- isParent -----

  /** `p` lies on the parent chain of `c`, strictly above it. */
  function IsAncestor(nodes: seq<Node>, p: nat, c: nat): bool
    requires ParentsBelow(nodes) && c < |nodes|
    decreases c
  {
    match nodes[c].parent
    case None => false
    case Some(q) => q == p || IsAncestor(nodes, p, q)
  }

  /** `isParent(parent, child)`: walks `child.Parent` upwards until `null` or `parent`. */
  method IsParent(nodes: seq<Node>, parent: nat, child: nat) returns (b: bool)
    requires ParentsBelow(nodes) && child < |nodes|
    ensures b == IsAncestor(nodes, parent, child)
  {
    var testIfParent: Option<nat> := nodes[child].parent;
    while true
      invariant testIfParent.Some? ==> testIfParent.value < |nodes|
      invariant IsAncestor(nodes, parent, child) == (testIfParent.Some? && (testIfParent.value == parent || IsAncestor(nodes, parent, testIfParent.value)))
      decreases if testIfParent.Some? then testIfParent.value + 1 else 0
    {
      if testIfParent.None? {
        return false;
      }
      if parent == testIfParent.value {
        return true;
      }
      testIfParent := nodes[testIfParent.value].parent;
    }
  }

  /** An ancestor has a smaller index; in particular no node is its own ancestor. */
  lemma {:induction false} AncestorBelow(nodes: seq<Node>, p: nat, c: nat)
    requires ParentsBelow(nodes) && c < |nodes|
    ensures IsAncestor(nodes, p, c) ==> p < c
    decreases c
  {
    if nodes[c].parent.Some? {
      AncestorBelow(nodes, p, nodes[c].parent.value);
    }
  }

  /** The ancestor relation is transitive. */
  lemma {:induction false} AncestorTransitive(nodes: seq<Node>, a: nat, b: nat, c: nat)
    requires ParentsBelow(nodes) && b < |nodes| && c < |nodes|
    requires IsAncestor(nodes, a, b) && IsAncestor(nodes, b, c)
    ensures IsAncestor(nodes, a, c)
    decreases c
  {
    var q := nodes[c].parent.value;
    if q != b {
      AncestorTransitive(nodes, a, b, q);
    }
  }

  /** A child's parent is its ancestor, and so is every ancestor of that parent. */
  lemma ParentIsAncestor(nodes: seq<Node>, p: nat, c: nat)
    requires ParentsBelow(nodes) && c < |nodes| && nodes[c].parent == Some(p)
    ensures IsAncestor(nodes, p, c)
    ensures forall a :: IsAncestor(nodes, a, p) ==> IsAncestor(nodes, a, c)
  {
  }

  // ----- ApplyRecursive -----

  /**
   * The elements `ApplyRecursive(elem, action)` applies `action` to, in order: `elem`
   * itself, then each child's own visit in turn, except that the children of a document
   * are not visited.
   */
  function VisitOrder(nodes: seq<Node>, e: nat): seq<nat>
    requires WellFormed(nodes) && e < |nodes|
    decreases |nodes| - e, 1, 0
  {
    [e] + if nodes[e].isDocument then [] else VisitChildren(nodes, e, 0)
  }

  /** The visits of children `k..` of `e`, concatenated. */
  function VisitChildren(nodes: seq<Node>, e: nat, k: nat): seq<nat>
    requires WellFormed(nodes) && e < |nodes| && k <= |nodes[e].children|
    decreases |nodes| - e, 0, |nodes[e].children| - k
  {
    if k == |nodes[e].children| then []
    else
      assert ChildrenLinked(nodes, e) && nodes[e].children[k] in nodes[e].children;
      VisitOrder(nodes, nodes[e].children[k]) + VisitChildren(nodes, e, k + 1)
  }

  /** The action is applied to `elem` first. */
  lemma VisitStartsAtElement(nodes: seq<Node>, e: nat)
    requires WellFormed(nodes) && e < |nodes|
    ensures |VisitOrder(nodes, e)| > 0 && VisitOrder(nodes, e)[0] == e
  {
  }

  /** On a document only the document itself is visited. */
  lemma VisitStopsAtDocument(nodes: seq<Node>, e: nat)
    requires WellFormed(nodes) && e < |nodes| && nodes[e].isDocument
    ensures VisitOrder(nodes, e) == [e]
  {
  }

  /** The parent of `V[i]` is visited before it, and that parent is not a document. */
  ghost predicate Preceded(nodes: seq<Node>, V: seq<nat>, i: nat)
    requires ParentsBelow(nodes) && i < |V|
  {
    V[i] < |nodes| && nodes[V[i]].parent.Some? &&
    nodes[V[i]].parent.value in V[..i] &&
    !nodes[nodes[V[i]].parent.value].isDocument
  }

  /** `Preceded` survives putting visits before or after. */
  lemma PrecededConcat(nodes: seq<Node>, P: seq<nat>, V: seq<nat>, W: seq<nat>, i: nat)
    requires ParentsBelow(nodes) && i < |V| && Preceded(nodes, V, i)
    ensures (P + V + W)[i + |P|] == V[i] && Preceded(nodes, P + V + W, i + |P|)
  {
    assert (P + V + W)[..i + |P|] == P + V[..i];
  }

  /** Every element visited from `e` is `e` or a descendant of it. */
  lemma {:induction false} VisitWithin(nodes: seq<Node>, e: nat)
    requires WellFormed(nodes) && e < |nodes|
    ensures forall x :: x in VisitOrder(nodes, e) ==> x < |nodes| && (x == e || IsAncestor(nodes, e, x))
    decreases |nodes| - e, 1, 0
  {
    if !nodes[e].isDocument {
      VisitChildrenWithin(nodes, e, 0);
    }
  }

  /** `VisitWithin` for the children's part of a visit. */
  lemma {:induction false} VisitChildrenWithin(nodes: seq<Node>, e: nat, k: nat)
    requires WellFormed(nodes) && e < |nodes| && k <= |nodes[e].children|
    ensures forall x :: x in VisitChildren(nodes, e, k) ==> x < |nodes| && IsAncestor(nodes, e, x)
    decreases |nodes| - e, 0, |nodes[e].children| - k
  {
    if k < |nodes[e].children| {
      var c := nodes[e].children[k];
      assert ChildrenLinked(nodes, e) && c in nodes[e].children;
      VisitWithin(nodes, c);
      VisitChildrenWithin(nodes, e, k + 1);
      ParentIsAncestor(nodes, e, c);
      forall x | x in VisitOrder(nodes, c) && x != c
        ensures IsAncestor(nodes, e, x)
      {
        AncestorTransitive(nodes, e, c, x);
      }
    }
  }

  /** For each visited element other than `e`, its parent is visited earlier and is not a document. */
  lemma {:induction false} VisitParentsFirst(nodes: seq<Node>, e: nat)
    requires WellFormed(nodes) && e < |nodes|
    ensures forall i :: 0 < i < |VisitOrder(nodes, e)| ==> Preceded(nodes, VisitOrder(nodes, e), i)
    decreases |nodes| - e, 1, 0
  {
    if !nodes[e].isDocument {
      var W := VisitChildren(nodes, e, 0);
      VisitChildrenParentsFirst(nodes, e, 0);
      var V := VisitOrder(nodes, e);
      assert V == [e] + W + [];
      forall i | 0 < i < |V|
        ensures Preceded(nodes, V, i)
      {
        assert ChildOrPreceded(nodes, e, W, i - 1);
        if W[i - 1] < |nodes| && nodes[W[i - 1]].parent == Some(e) {
          assert V[0] == e && V[..i][0] == e;
        } else {
          PrecededConcat(nodes, [e], W, [], i - 1);
        }
      }
    }
  }

  /** `V[i]` is a child of `e`, or `Preceded` holds for it. */
  ghost predicate ChildOrPreceded(nodes: seq<Node>, e: nat, V: seq<nat>, i: nat)
    requires ParentsBelow(nodes) && i < |V|
  {
    (V[i] < |nodes| && nodes[V[i]].parent == Some(e)) || Preceded(nodes, V, i)
  }

  /** `VisitParentsFirst` for the children's part of a visit: a parent other than `e` itself is visited earlier. */
  lemma {:induction false} VisitChildrenParentsFirst(nodes: seq<Node>, e: nat, k: nat)
    requires WellFormed(nodes) && e < |nodes| && k <= |nodes[e].children|
    ensures forall i :: 0 <= i < |VisitChildren(nodes, e, k)| ==> ChildOrPreceded(nodes, e, VisitChildren(nodes, e, k), i)
    decreases |nodes| - e, 0, |nodes[e].children| - k
  {
    if k < |nodes[e].children| {
      var c := nodes[e].children[k];
      assert ChildrenLinked(nodes, e) && c in nodes[e].children;
      VisitParentsFirst(nodes, c);
      VisitChildrenParentsFirst(nodes, e, k + 1);
      VisitStartsAtElement(nodes, c);
      JoinVisits(nodes, e, c, VisitOrder(nodes, c), VisitChildren(nodes, e, k + 1));
    }
  }

  /** The visit of child `c` of `e` followed by more children's visits keeps `ChildOrPreceded`. */
  lemma JoinVisits(nodes: seq<Node>, e: nat, c: nat, V: seq<nat>, W: seq<nat>)
    requires ParentsBelow(nodes) && c < |nodes| && nodes[c].parent == Some(e) && |V| > 0 && V[0] == c
    requires forall i :: 0 < i < |V| ==> Preceded(nodes, V, i)
    requires forall i :: 0 <= i < |W| ==> ChildOrPreceded(nodes, e, W, i)
    ensures forall i :: 0 <= i < |V + W| ==> ChildOrPreceded(nodes, e, V + W, i)
  {
    forall i | 0 <= i < |V + W|
      ensures ChildOrPreceded(nodes, e, V + W, i)
    {
      if i == 0 {
        assert (V + W)[0] == c;
      } else if i < |V| {
        PrecededConcat(nodes, [], V, W, i);
        assert [] + V + W == V + W;
      } else {
        assert ChildOrPreceded(nodes, e, W, i - |V|);
        if !(W[i - |V|] < |nodes| && nodes[W[i - |V|]].parent == Some(e)) {
          PrecededConcat(nodes, V, W, [], i - |V|);
          assert V + W + [] == V + W;
        } else {
          assert (V + W)[i] == W[i - |V|];
        }
      }
    }
  }

  /** Every child of a visited element that is not a document is visited as well. */
  lemma {:induction false} VisitComplete(nodes: seq<Node>, e: nat, x: nat, c: nat)
    requires WellFormed(nodes) && e < |nodes|
    requires x in VisitOrder(nodes, e) && x < |nodes| && !nodes[x].isDocument && c in nodes[x].children
    ensures c in VisitOrder(nodes, e)
    decreases |nodes| - e, 1, 0
  {
    if x == e {
      var k :| 0 <= k < |nodes[e].children| && nodes[e].children[k] == c;
      VisitChildrenHas(nodes, e, 0, k);
    } else {
      assert x in VisitChildren(nodes, e, 0);
      VisitChildrenComplete(nodes, e, 0, x, c);
    }
  }

  /** The visit of child `k` is part of the children's part from any earlier index. */
  lemma {:induction false} VisitChildrenHas(nodes: seq<Node>, e: nat, from: nat, k: nat)
    requires WellFormed(nodes) && e < |nodes| && from <= k < |nodes[e].children|
    ensures nodes[e].children[k] in VisitChildren(nodes, e, from)
    decreases k - from
  {
    var c := nodes[e].children[from];
    assert ChildrenLinked(nodes, e) && c in nodes[e].children;
    var V, W := VisitOrder(nodes, c), VisitChildren(nodes, e, from + 1);
    assert VisitChildren(nodes, e, from) == V + W;
    if from < k {
      VisitChildrenHas(nodes, e, from + 1, k);
      assert nodes[e].children[k] in W;
    } else {
      assert V[0] == c;
    }
  }

  /** `VisitComplete` for the children's part of a visit. */
  lemma {:induction false} VisitChildrenComplete(nodes: seq<Node>, e: nat, k: nat, x: nat, c: nat)
    requires WellFormed(nodes) && e < |nodes| && k <= |nodes[e].children|
    requires x in VisitChildren(nodes, e, k) && x < |nodes| && !nodes[x].isDocument && c in nodes[x].children
    ensures c in VisitChildren(nodes, e, k)
    decreases |nodes| - e, 0, |nodes[e].children| - k
  {
    var ch := nodes[e].children[k];
    assert ChildrenLinked(nodes, e) && ch in nodes[e].children;
    if x in VisitOrder(nodes, ch) {
      VisitComplete(nodes, ch, x, c);
    } else {
      VisitChildrenComplete(nodes, e, k + 1, x, c);
    }
  }

  /** The element at position `i` of `V` is followed directly by the rest of its own visit. */
  ghost predicate ContiguousAt(nodes: seq<Node>, V: seq<nat>, i: nat)
    requires WellFormed(nodes) && i < |V|
  {
    V[i] < |nodes| && i + |VisitOrder(nodes, V[i])| <= |V| && V[i..i + |VisitOrder(nodes, V[i])|] == VisitOrder(nodes, V[i])
  }

  /**
   * Every element of `V` is followed directly by the rest of its own visit: the visit of an
   * element's subtree is one contiguous block that starts at the element. A breadth-first
   * order does not have this.
   */
  ghost predicate SubtreesContiguous(nodes: seq<Node>, V: seq<nat>)
    requires WellFormed(nodes)
  {
    forall i :: 0 <= i < |V| ==> ContiguousAt(nodes, V, i)
  }

  /** A block at position `j` of `B` is still a block at position `|A| + j` of `A + B`. */
  lemma ContiguousShift(nodes: seq<Node>, A: seq<nat>, B: seq<nat>, j: nat)
    requires WellFormed(nodes) && j < |B| && ContiguousAt(nodes, B, j)
    ensures ContiguousAt(nodes, A + B, |A| + j)
  {
    var C := VisitOrder(nodes, B[j]);
    var i := |A| + j;
    assert (A + B)[i] == B[j];
    assert (A + B)[i..i + |C|] == B[j..j + |C|];
  }

  /** A block at position `i` of `A` is still a block at the same position of `A + B`. */
  lemma ContiguousExtend(nodes: seq<Node>, A: seq<nat>, B: seq<nat>, i: nat)
    requires WellFormed(nodes) && i < |A| && ContiguousAt(nodes, A, i)
    ensures ContiguousAt(nodes, A + B, i)
  {
    var C := VisitOrder(nodes, A[i]);
    assert (A + B)[i] == A[i];
    assert (A + B)[i..i + |C|] == A[i..i + |C|];
  }

  /** Putting two sequences with contiguous subtrees side by side keeps them contiguous. */
  lemma ContiguousConcat(nodes: seq<Node>, A: seq<nat>, B: seq<nat>)
    requires WellFormed(nodes) && SubtreesContiguous(nodes, A) && SubtreesContiguous(nodes, B)
    ensures SubtreesContiguous(nodes, A + B)
  {
    forall i | 0 <= i < |A + B|
      ensures ContiguousAt(nodes, A + B, i)
    {
      if i < |A| {
        ContiguousExtend(nodes, A, B, i);
      } else {
        ContiguousShift(nodes, A, B, i - |A|);
      }
    }
  }

  /** A visit that is `e` followed by blocks with contiguous subtrees has contiguous subtrees. */
  lemma ContiguousCons(nodes: seq<Node>, e: nat, W: seq<nat>)
    requires WellFormed(nodes) && e < |nodes| && VisitOrder(nodes, e) == [e] + W
    requires SubtreesContiguous(nodes, W)
    ensures SubtreesContiguous(nodes, [e] + W)
  {
    forall i | 0 <= i < |[e] + W|
      ensures ContiguousAt(nodes, [e] + W, i)
    {
      if i == 0 {
        assert ([e] + W)[0..|[e] + W|] == [e] + W;
      } else {
        ContiguousShift(nodes, [e], W, i - 1);
      }
    }
  }

  /**
   * The visit is in pre-order: each visited element's own visit follows it as one block, so
   * a subtree is finished before the next sibling is entered.
   */
  lemma {:induction false} VisitPreOrder(nodes: seq<Node>, e: nat)
    requires WellFormed(nodes) && e < |nodes|
    ensures SubtreesContiguous(nodes, VisitOrder(nodes, e))
    decreases |nodes| - e, 1, 0
  {
    var W := if nodes[e].isDocument then [] else VisitChildren(nodes, e, 0);
    if !nodes[e].isDocument {
      VisitChildrenPreOrder(nodes, e, 0);
    }
    ContiguousCons(nodes, e, W);
  }

  /** `VisitPreOrder` for the children's part of a visit. */
  lemma {:induction false} VisitChildrenPreOrder(nodes: seq<Node>, e: nat, k: nat)
    requires WellFormed(nodes) && e < |nodes| && k <= |nodes[e].children|
    ensures SubtreesContiguous(nodes, VisitChildren(nodes, e, k))
    decreases |nodes| - e, 0, |nodes[e].children| - k
  {
    if k < |nodes[e].children| {
      var c := nodes[e].children[k];
      assert ChildrenLinked(nodes, e) && c in nodes[e].children;
      VisitPreOrder(nodes, c);
      VisitChildrenPreOrder(nodes, e, k + 1);
      ContiguousConcat(nodes, VisitOrder(nodes, c), VisitChildren(nodes, e, k + 1));
    }
  }

  /** Where the visit of child `k` of `e` starts: after `e` and the visits of the children before it. */
  function ChildStart(nodes: seq<Node>, e: nat, k: nat): int
    requires WellFormed(nodes) && e < |nodes| && k <= |nodes[e].children|
  {
    |VisitOrder(nodes, e)| - |VisitChildren(nodes, e, k)|
  }

  /** The visits of children `k..` are a suffix of the visits of all children. */
  lemma {:induction false} VisitChildrenSuffix(nodes: seq<Node>, e: nat, k: nat)
    requires WellFormed(nodes) && e < |nodes| && k <= |nodes[e].children|
    ensures |VisitChildren(nodes, e, k)| <= |VisitChildren(nodes, e, 0)|
    ensures VisitChildren(nodes, e, 0)[|VisitChildren(nodes, e, 0)| - |VisitChildren(nodes, e, k)|..] == VisitChildren(nodes, e, k)
  {
    if k > 0 {
      VisitChildrenSuffix(nodes, e, k - 1);
      var c := nodes[e].children[k - 1];
      assert ChildrenLinked(nodes, e) && c in nodes[e].children;
      var all, prev, here := VisitChildren(nodes, e, 0), VisitChildren(nodes, e, k - 1), VisitChildren(nodes, e, k);
      assert prev == VisitOrder(nodes, c) + here;
      assert all[|all| - |here|..] == prev[|prev| - |here|..];
    }
  }

  /**
   * The children of a visited non-document are entered in sibling order: child 0's visit
   * starts right after `e`, child `k`'s visit starts at `ChildStart(k)`, and child `k + 1`'s
   * starts right after child `k`'s visit ends.
   */
  lemma VisitSiblingOrder(nodes: seq<Node>, e: nat, k: nat)
    requires WellFormed(nodes) && e < |nodes| && !nodes[e].isDocument && k < |nodes[e].children|
    ensures ChildStart(nodes, e, 0) == 1
    ensures var c, V, p := nodes[e].children[k], VisitOrder(nodes, e), ChildStart(nodes, e, k);
            && c < |nodes| && 0 < p && p + |VisitOrder(nodes, c)| <= |V|
            && V[p..p + |VisitOrder(nodes, c)|] == VisitOrder(nodes, c)
            && ChildStart(nodes, e, k + 1) == p + |VisitOrder(nodes, c)|
  {
    var c := nodes[e].children[k];
    assert ChildrenLinked(nodes, e) && c in nodes[e].children;
    var all, here := VisitChildren(nodes, e, 0), VisitChildren(nodes, e, k);
    VisitChildrenSuffix(nodes, e, k);
    assert VisitOrder(nodes, e) == [e] + all;
    assert here == VisitOrder(nodes, c) + VisitChildren(nodes, e, k + 1);
    BlockAfterHead(e, all, VisitOrder(nodes, c), VisitChildren(nodes, e, k + 1));
  }

  /** In `[e] + all`, a suffix `C + R` of `all` puts `C` right where that suffix starts. */
  lemma BlockAfterHead(e: nat, all: seq<nat>, C: seq<nat>, R: seq<nat>)
    requires |C + R| <= |all| && all[|all| - |C + R|..] == C + R
    ensures var V, p := [e] + all, |[e] + all| - |C + R|;
            0 < p && p + |C| <= |V| && V[p..p + |C|] == C
  {
    var V, p := [e] + all, |[e] + all| - |C + R|;
    assert V[p..] == all[|all| - |C + R|..];
    assert V[p..p + |C|] == (C + R)[..|C|];
  }

  // ----- HasNonEmptyCustomAttribute -----

  /** `HasNonEmptyCustomAttribute(name)`: the key is present and its value neither `null` nor empty. */
  predicate HasNonEmptyCustomAttribute(element: Node, name: string)
  {
    name in element.customAttributes && element.customAttributes[name].Some? && element.customAttributes[name].value != ""
  }

  /** Setting `name` decides the answer for `name` by the new value alone, and leaves every other name as it was. */
  lemma CustomAttributeSet(element: Node, name: string, v: Option<string>, other: string)
    ensures HasNonEmptyCustomAttribute(element.(customAttributes := element.customAttributes[name := v]), name)
            <==> v.Some? && |v.value| > 0
    ensures other != name ==>
              (HasNonEmptyCustomAttribute(element.(customAttributes := element.customAttributes[name := v]), other)
               <==> HasNonEmptyCustomAttribute(element, other))
  {
  }

  /** An element without the key, or whose value is `null` or empty, does not have it. */
  lemma CustomAttributeAbsent(element: Node, name: string)
    ensures name !in element.customAttributes ==> !HasNonEmptyCustomAttribute(element, name)
    ensures !HasNonEmptyCustomAttribute(element.(customAttributes := element.customAttributes - {name}), name)
    ensures HasNonEmptyCustomAttribute(element, name) ==> exists v :: v in element.customAttributes.Values && v.Some? && |v.value| > 0
  {
    if HasNonEmptyCustomAttribute(element, name) {
      assert element.customAttributes[name] in element.customAttributes.Values;
    }
  }
}
