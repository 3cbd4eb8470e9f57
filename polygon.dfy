/** The `Polygon` class of Source/SvgCollision.cs: a vertex list and the edge list derived from it. */
module Polygons {
  import opened Wrappers
  import opened Geometry

  class Polygon {
    var points: seq<Vec>
    var edges: seq<Vec>

    constructor ()
      ensures points == [] && edges == []
    {
      points := [];
      edges := [];
    }

    /** Clears `edges` and refills it with one edge per vertex, the last one wrapping to the first vertex. */
    method BuildEdges()
      modifies this`edges
      ensures edges == EdgesOf(points)
    {
      var pts := points;
      ghost var es := EdgesOf(pts);
      var acc := [];
      var i := 0;
      while i < |pts|
        invariant 0 <= i <= |pts|
        invariant acc == es[..i]
      {
        var p1 := pts[i];
        var p2;
        if i + 1 >= |pts| {
          p2 := pts[0];
        } else {
          p2 := pts[i + 1];
        }
        assert p2 == Next(pts, i);
        assert es[..i + 1] == es[..i] + [Sub(p2, p1)];
        acc := acc + [Sub(p2, p1)];
        i := i + 1;
      }
      assert es[..i] == es;
      edges := acc;
    }

    /** The mean of the vertices; `0/0` (here `None`) for a polygon without vertices. */
    method Center() returns (c: Option<Vec>)
      ensures c == Mean(points)
      ensures c.Some? <==> |points| > 0
    {
      var totalX := 0.0;
      var totalY := 0.0;
      var i := 0;
      while i < |points|
        invariant 0 <= i <= |points|
        invariant Vec(totalX, totalY) == Sum(points[..i])
      {
        assert points[..i + 1][..i] == points[..i];
        totalX := totalX + points[i].x;
        totalY := totalY + points[i].y;
        i := i + 1;
      }
      assert points[..i] == points;
      if |points| == 0 {
        c := None;
      } else {
        c := Some(Vec(totalX / |points| as real, totalY / |points| as real));
      }
    }

    /** Moves every vertex by `(x, y)` in place; the edges are left as they were. */
    method Offset(x: real, y: real)
      modifies this
      ensures points == Translate(old(points), Vec(x, y))
      ensures edges == old(edges)
    {
      var i := 0;
      while i < |points|
        invariant 0 <= i <= |points| == |old(points)|
        invariant forall k :: 0 <= k < i ==> points[k] == Add(old(points)[k], Vec(x, y))
        invariant forall k :: i <= k < |points| ==> points[k] == old(points)[k]
        invariant edges == old(edges)
      {
        var p := points[i];
        points := points[i := Vec(p.x + x, p.y + y)];
        i := i + 1;
      }
    }

    method OffsetBy(v: Vec)
      modifies this
      ensures points == Translate(old(points), v)
      ensures edges == old(edges)
    {
      Offset(v.x, v.y);
    }
  }
}
