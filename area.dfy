/**
 * `SvgExtentions.PathArea`: the shoelace area of a closed polygon, the absolute value of half
 * the cyclic sum of cross products of consecutive vertices.
 */
module Area {
  import opened Geometry

  /** The first `k` terms of the cyclic shoelace sum, as the loop accumulates them. */
  function ShoelaceTo(ps: seq<Vec>, k: nat): real
    requires k <= |ps|
  {
    if k == 0 then 0.0 else ShoelaceTo(ps, k - 1) + Cross(ps[k - 1], Next(ps, k - 1))
  }

  /** The whole cyclic sum: twice the signed area. */
  function Shoelace(ps: seq<Vec>): real
  {
    ShoelaceTo(ps, |ps|)
  }

  /** The value `PathArea` returns. */
  function AreaOf(ps: seq<Vec>): (r: real)
    ensures r >= 0.0
  {
    Abs(Shoelace(ps) / 2.0)
  }

  /** `PathArea(polygon)`. */
  method PathArea(polygon: seq<Vec>) returns (result: real)
    ensures result == AreaOf(polygon)
  {
    var area := 0.0;
    var i := 0;
    while i < |polygon|
      invariant 0 <= i <= |polygon|
      invariant area == ShoelaceTo(polygon, i)
    {
      var j := (i + 1) % |polygon|;
      NextIndex(i, |polygon|);
      assert polygon[j] == Next(polygon, i);
      area := area + polygon[i].x * polygon[j].y;
      area := area - polygon[i].y * polygon[j].x;
      assert area == ShoelaceTo(polygon, i) + Cross(polygon[i], polygon[j]);
      i := i + 1;
    }
    area := area / 2.0;
    result := if area < 0.0 then -area else area;
  }

  /** `(i + 1) % n` is the index of the vertex after `i`, wrapping to `0` after the last. */
  lemma NextIndex(i: nat, n: nat)
    requires i < n
    ensures (i + 1) % n == if i + 1 < n then i + 1 else 0
  {
  }

  // ----- properties -----

  /** The open chain of cross products of consecutive vertices, without the closing term. */
  function Chain(ps: seq<Vec>): real
  {
    if |ps| < 2 then 0.0 else Chain(ps[..|ps| - 1]) + Cross(ps[|ps| - 2], ps[|ps| - 1])
  }

  /** Up to the last vertex the cyclic prefix is the open chain. */
  lemma {:induction false} PrefixIsChain(ps: seq<Vec>, k: nat)
    requires k < |ps|
    ensures ShoelaceTo(ps, k) == Chain(ps[..k + 1])
  {
    if k > 0 {
      PrefixIsChain(ps, k - 1);
      assert ps[..k + 1][..k] == ps[..k];
    }
  }

  /** The cyclic sum is the open chain plus the closing edge from the last vertex to the first. */
  lemma ShoelaceIsChain(ps: seq<Vec>)
    requires |ps| > 0
    ensures Shoelace(ps) == Chain(ps) + Cross(ps[|ps| - 1], ps[0])
  {
    PrefixIsChain(ps, |ps| - 1);
    assert ps[..|ps|] == ps;
  }

  /** The chain split off at its first vertex. */
  lemma {:induction false} ChainFront(ps: seq<Vec>)
    requires |ps| >= 2
    ensures Chain(ps) == Cross(ps[0], ps[1]) + Chain(ps[1..])
  {
    if |ps| > 2 {
      var init := ps[..|ps| - 1];
      ChainFront(init);
      assert init[1..] == ps[1..][..|ps[1..]| - 1];
    }
  }

  /** Empty, one-point and two-point arrays enclose no area. */
  lemma DegenerateArea(ps: seq<Vec>)
    requires |ps| <= 2
    ensures AreaOf(ps) == 0.0
  {
    if |ps| == 1 {
      assert ShoelaceTo(ps, 1) == ShoelaceTo(ps, 0) + Cross(ps[0], ps[0]);
    } else if |ps| == 2 {
      assert ShoelaceTo(ps, 1) == Cross(ps[0], ps[1]);
      assert ShoelaceTo(ps, 2) == ShoelaceTo(ps, 1) + Cross(ps[1], ps[0]);
    }
  }

  /** The vertex list rotated by one: the first vertex moved to the end. */
  function Rotated(ps: seq<Vec>): seq<Vec>
  {
    if ps == [] then [] else ps[1..] + [ps[0]]
  }

  /** Starting the polygon at its second vertex does not change its area. */
  lemma RotationInvariant(ps: seq<Vec>)
    ensures Shoelace(Rotated(ps)) == Shoelace(ps)
    ensures AreaOf(Rotated(ps)) == AreaOf(ps)
  {
    if |ps| >= 2 {
      var n := |ps|;
      var r := ps[1..] + [ps[0]];
      assert Rotated(ps) == r;
      ShoelaceIsChain(ps);
      ShoelaceIsChain(r);
      ChainFront(ps);
      assert r[..n - 1] == ps[1..];
      assert r[n - 2] == ps[n - 1] && r[n - 1] == ps[0] && r[0] == ps[1];
      assert Chain(r) == Chain(ps[1..]) + Cross(ps[n - 1], ps[0]);
    } else if |ps| == 1 {
      assert Rotated(ps) == ps;
    }
  }

  /** Any rotation: the first `k` vertices moved to the end. */
  lemma {:induction false} RotationsInvariant(ps: seq<Vec>, k: nat)
    requires k <= |ps|
    ensures AreaOf(ps[k..] + ps[..k]) == AreaOf(ps)
  {
    if k == 0 {
      assert ps[0..] + ps[..0] == ps;
    } else {
      RotationsInvariant(ps, k - 1);
      var q := ps[k - 1..] + ps[..k - 1];
      RotationInvariant(q);
      assert Rotated(q) == ps[k..] + ps[..k];
    }
  }

  /** The vertex list in the opposite order. */
  function Reversed(ps: seq<Vec>): (r: seq<Vec>)
    ensures |r| == |ps|
  {
    if ps == [] then [] else Reversed(ps[1..]) + [ps[0]]
  }

  lemma {:induction false} ReversedEnds(ps: seq<Vec>)
    requires |ps| > 0
    ensures Reversed(ps)[0] == ps[|ps| - 1] && Reversed(ps)[|ps| - 1] == ps[0]
  {
    if |ps| > 1 {
      ReversedEnds(ps[1..]);
    }
  }

  /** Walking the chain backwards negates every cross product. */
  lemma {:induction false} ChainReversed(ps: seq<Vec>)
    ensures Chain(Reversed(ps)) == -Chain(ps)
  {
    if |ps| >= 2 {
      var rest := Reversed(ps[1..]);
      ChainReversed(ps[1..]);
      ReversedEnds(ps[1..]);
      var r := rest + [ps[0]];
      assert r[..|r| - 1] == rest;
      assert Chain(r) == Chain(rest) + Cross(ps[1], ps[0]);
      ChainFront(ps);
    }
  }

  /** Reversing the vertex order flips the sign of the sum and keeps the area. */
  lemma ReversalInvariant(ps: seq<Vec>)
    ensures Shoelace(Reversed(ps)) == -Shoelace(ps)
    ensures AreaOf(Reversed(ps)) == AreaOf(ps)
  {
    if |ps| > 0 {
      ShoelaceIsChain(ps);
      ShoelaceIsChain(Reversed(ps));
      ChainReversed(ps);
      ReversedEnds(ps);
    }
  }

  /** For four vertices the sum is the four edge cross products, the closing one included. */
  lemma Quadrilateral(a: Vec, b: Vec, c: Vec, d: Vec)
    ensures Shoelace([a, b, c, d]) == Cross(a, b) + Cross(b, c) + Cross(c, d) + Cross(d, a)
  {
    var q := [a, b, c, d];
    assert ShoelaceTo(q, 1) == Cross(a, b);
    assert ShoelaceTo(q, 2) == Cross(a, b) + Cross(b, c);
    assert ShoelaceTo(q, 3) == Cross(a, b) + Cross(b, c) + Cross(c, d);
  }

  /** The axis-aligned unit square, listed counter-clockwise, has signed sum two and area one. */
  lemma UnitSquare()
    ensures Shoelace([Vec(0.0, 0.0), Vec(1.0, 0.0), Vec(1.0, 1.0), Vec(0.0, 1.0)]) == 2.0
    ensures AreaOf([Vec(0.0, 0.0), Vec(1.0, 0.0), Vec(1.0, 1.0), Vec(0.0, 1.0)]) == 1.0
  {
    Quadrilateral(Vec(0.0, 0.0), Vec(1.0, 0.0), Vec(1.0, 1.0), Vec(0.0, 1.0));
  }

  /** Moving both ends of an edge by `v` changes its cross product by two cross products with `v`. */
  lemma CrossShift(a: Vec, b: Vec, v: Vec)
    ensures Cross(Add(a, v), Add(b, v)) == Cross(a, b) + Cross(a, v) - Cross(b, v)
  {
  }

  /** The chain of a translated list telescopes to the original chain plus an end term. */
  lemma {:induction false} ChainTranslate(ps: seq<Vec>, v: Vec)
    requires |ps| > 0
    ensures Chain(Translate(ps, v)) == Chain(ps) + Cross(ps[0], v) - Cross(ps[|ps| - 1], v)
  {
    var n := |ps|;
    var t := Translate(ps, v);
    if n >= 2 {
      assert t[..n - 1] == Translate(ps[..n - 1], v);
      ChainTranslate(ps[..n - 1], v);
      CrossShift(ps[n - 2], ps[n - 1], v);
    }
  }

  /** Moving every vertex by the same vector, as `Polygon.Offset` does, keeps the area. */
  lemma TranslationInvariant(ps: seq<Vec>, v: Vec)
    ensures Shoelace(Translate(ps, v)) == Shoelace(ps)
    ensures AreaOf(Translate(ps, v)) == AreaOf(ps)
  {
    if |ps| > 0 {
      var n := |ps|;
      var t := Translate(ps, v);
      ShoelaceIsChain(ps);
      ShoelaceIsChain(t);
      ChainTranslate(ps, v);
      CrossShift(ps[n - 1], ps[0], v);
    }
  }
}
