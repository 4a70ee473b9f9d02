/** The hit test in terms of edges, coordinates and indices
    (tools/live2d_bridge/src/mesh-hit-test.ts). */
module HitRules {
  import opened HitTest

  /** Positive if the way from a by b to c turns left, zero if it goes straight on. */
  function Turn(a: Point, b: Point, c: Point): real {
    (b.x - a.x) * (c.y - a.y) - (c.x - a.x) * (b.y - a.y)
  }

  lemma AreaIsTurn(p: Point, a: Point, b: Point)
    ensures SignedArea(p, a, b) == Turn(a, b, p)
  {}

  /** The point is on the left of all three edges of a triangle that turns left, or on
      the right of all edges of one that turns right, with a margin of 1e-7. */
  predicate Inside(p: Point, a: Point, b: Point, c: Point) {
    || (Turn(a, b, c) > 0.0000001 && Turn(a, b, p) >= -0.0000001 && Turn(b, c, p) >= -0.0000001 && Turn(c, a, p) >= -0.0000001)
    || (Turn(a, b, c) < -0.0000001 && Turn(a, b, p) <= 0.0000001 && Turn(b, c, p) <= 0.0000001 && Turn(c, a, p) <= 0.0000001)
  }

  lemma TriangleExactly(p: Point, a: Point, b: Point, c: Point)
    ensures PointInTriangle(p, a, b, c) <==> Inside(p, a, b, c)
  {
    hide SignedArea, Turn;
    AreaIsTurn(c, a, b);
    AreaIsTurn(p, a, b);
    AreaIsTurn(p, b, c);
    AreaIsTurn(p, c, a);
    AreasAddUp(p, a, b, c);
  }

  /** The i-th vertex: a pair of coordinates, each 0 where the array is too short. */
  predicate IsCorner(d: Drawable, i: nat, corner: Point) {
    && corner.x == (if 2 * i < |d.vertices| then d.vertices[2 * i] else 0.0)
    && corner.y == (if 2 * i + 1 < |d.vertices| then d.vertices[2 * i + 1] else 0.0)
  }

  /** The t-th triple of indices names three vertices around the point. */
  ghost predicate TripleHit(d: Drawable, t: nat, p: Point, a: Point, b: Point, c: Point) {
    && 3 * t + 2 < d.indexCount && 3 * t + 2 < |d.indices|
    && d.indices[3 * t] < d.vertexCount && d.indices[3 * t + 1] < d.vertexCount && d.indices[3 * t + 2] < d.vertexCount
    && IsCorner(d, d.indices[3 * t], a) && IsCorner(d, d.indices[3 * t + 1], b) && IsCorner(d, d.indices[3 * t + 2], c)
    && Inside(p, a, b, c)
  }

  lemma HitExactly(d: Drawable, p: Point)
    ensures HitDrawable(d, p) <==>
            d.visible && d.opacity > 0.02
            && exists t: nat, a: Point, b: Point, c: Point :: TripleHit(d, t, p, a, b, c)
  {
    hide PointInTriangle, Inside;
    if t: nat :| HitAt(d, 3 * t, p) {
      var a, b, c := Vertex(d, d.indices[3 * t]), Vertex(d, d.indices[3 * t + 1]), Vertex(d, d.indices[3 * t + 2]);
      TriangleExactly(p, a, b, c);
      assert TripleHit(d, t, p, a, b, c);
    }
    if t: nat, a: Point, b: Point, c: Point :| TripleHit(d, t, p, a, b, c) {
      TriangleExactly(p, a, b, c);
      assert HitAt(d, 3 * t, p);
    }
  }
}
