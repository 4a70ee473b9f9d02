/** Whether a point hits a visible mesh of the avatar, over the reals
    (tools/live2d_bridge/src/mesh-hit-test.ts). */
module HitTest {

  const TRIANGLE_EPSILON: real := 0.0000001
  const MINIMUM_OPACITY: real := 0.02

  datatype Point = Point(x: real, y: real)

  /** Twice the signed area of the triangle p, a, b. */
  function SignedArea(p: Point, a: Point, b: Point): real {
    (p.x - b.x) * (a.y - b.y) - (a.x - b.x) * (p.y - b.y)
  }

  function Abs(x: real): real { if x < 0.0 then 0.0 - x else x }

  predicate MixedSigns(first: real, second: real, third: real) {
    && (first < -TRIANGLE_EPSILON || second < -TRIANGLE_EPSILON || third < -TRIANGLE_EPSILON)
    && (first > TRIANGLE_EPSILON || second > TRIANGLE_EPSILON || third > TRIANGLE_EPSILON)
  }

  predicate Degenerate(a: Point, b: Point, c: Point) {
    Abs(SignedArea(c, a, b)) <= TRIANGLE_EPSILON
  }

  predicate PointInTriangle(p: Point, a: Point, b: Point, c: Point) {
    && !Degenerate(a, b, c)
    && !MixedSigns(SignedArea(p, a, b), SignedArea(p, b, c), SignedArea(p, c, a))
  }

  // ----- Areas -----

  lemma AreasAddUp(p: Point, a: Point, b: Point, c: Point)
    ensures SignedArea(p, a, b) + SignedArea(p, b, c) + SignedArea(p, c, a) == SignedArea(c, a, b)
  {}

  lemma SwapNegates(p: Point, a: Point, b: Point)
    ensures SignedArea(p, b, a) == 0.0 - SignedArea(p, a, b)
  {}

  lemma RotateKeeps(a: Point, b: Point, c: Point)
    ensures SignedArea(c, a, b) == SignedArea(a, b, c) == SignedArea(b, c, a)
  {}

  // ----- Which points are accepted -----

  /** On the side of the edge the triangle lies on, or within epsilon of it. */
  predicate NotOutside(area: real, edge: real) {
    if area > 0.0 then edge >= -TRIANGLE_EPSILON else edge <= TRIANGLE_EPSILON
  }

  lemma SignsExactly(area: real, first: real, second: real, third: real)
    requires Abs(area) > TRIANGLE_EPSILON && first + second + third == area
    ensures !MixedSigns(first, second, third) <==>
            NotOutside(area, first) && NotOutside(area, second) && NotOutside(area, third)
  {}

  /** Exactly the points on no wrong side of any edge by more than epsilon. */
  lemma AcceptedExactly(p: Point, a: Point, b: Point, c: Point)
    ensures var area := SignedArea(c, a, b);
      PointInTriangle(p, a, b, c) <==>
        (&& Abs(area) > TRIANGLE_EPSILON
         && NotOutside(area, SignedArea(p, a, b))
         && NotOutside(area, SignedArea(p, b, c))
         && NotOutside(area, SignedArea(p, c, a)))
  {
    AreasAddUp(p, a, b, c);
    if !Degenerate(a, b, c) {
      SignsExactly(SignedArea(c, a, b), SignedArea(p, a, b), SignedArea(p, b, c), SignedArea(p, c, a));
    }
  }

  datatype Weights = Weights(a: real, b: real, c: real)

  function Combine(w: Weights, a: Point, b: Point, c: Point): Point {
    Point(w.a * a.x + w.b * b.x + w.c * c.x, w.a * a.y + w.b * b.y + w.c * c.y)
  }

  predicate Convex(w: Weights) {
    w.a >= 0.0 && w.b >= 0.0 && w.c >= 0.0 && w.a + w.b + w.c == 1.0
  }

  function Barycentric(p: Point, a: Point, b: Point, c: Point): Weights
    requires SignedArea(c, a, b) != 0.0
  {
    var area := SignedArea(c, a, b);
    Weights(SignedArea(p, b, c) / area, SignedArea(p, c, a) / area, SignedArea(p, a, b) / area)
  }

  lemma CombinedArea(w: Weights, a: Point, b: Point, c: Point)
    requires w.a + w.b + w.c == 1.0
    ensures SignedArea(Combine(w, a, b, c), a, b) == w.c * SignedArea(c, a, b)
  {
    var p := Combine(w, a, b, c);
    assert w.b == 1.0 - w.a - w.c;
    assert p.x - b.x == w.a * (a.x - b.x) + w.c * (c.x - b.x);
    assert p.y - b.y == w.a * (a.y - b.y) + w.c * (c.y - b.y);
    AreaOfSum(w.a, w.c, a.x - b.x, a.y - b.y, c.x - b.x, c.y - b.y);
  }

  lemma AreaOfSum(u: real, v: real, ax: real, ay: real, cx: real, cy: real)
    ensures (u * ax + v * cx) * ay - ax * (u * ay + v * cy) == v * (cx * ay - ax * cy)
  {}

  lemma CombineRotates(w: Weights, a: Point, b: Point, c: Point)
    ensures Combine(w, a, b, c) == Combine(Weights(w.b, w.c, w.a), b, c, a)
  {}

  lemma ScaledSide(weight: real, area: real, edge: real)
    requires weight >= 0.0 && edge == weight * area
    ensures NotOutside(area, edge)
  {
    if area > 0.0 {
      assert weight * area >= 0.0;
    } else {
      assert weight * (0.0 - area) >= 0.0;
      assert weight * (0.0 - area) == 0.0 - weight * area;
    }
  }

  /** Every convex combination of the vertices of a triangle that is not
      degenerate is accepted. */
  lemma ConvexAccepted(w: Weights, a: Point, b: Point, c: Point)
    requires Convex(w) && !Degenerate(a, b, c)
    ensures PointInTriangle(Combine(w, a, b, c), a, b, c)
  {
    var p, area := Combine(w, a, b, c), SignedArea(c, a, b);
    CombinedArea(w, a, b, c);
    CombineRotates(w, a, b, c);
    CombinedArea(Weights(w.b, w.c, w.a), b, c, a);
    CombineRotates(Weights(w.b, w.c, w.a), b, c, a);
    CombinedArea(Weights(w.c, w.a, w.b), c, a, b);
    RotateKeeps(a, b, c);
    ScaledSide(w.c, area, SignedArea(p, a, b));
    ScaledSide(w.a, area, SignedArea(p, b, c));
    ScaledSide(w.b, area, SignedArea(p, c, a));
    AcceptedExactly(p, a, b, c);
  }

  lemma ScaleOrder(f: real, x: real, y: real)
    requires f > 0.0
    ensures x >= y <==> x * f >= y * f
  {
    if x >= y {
      assert (x - y) * f >= 0.0;
    } else {
      assert (y - x) * f > 0.0;
    }
  }

  lemma PositiveSide(size: real, edge: real)
    requires size > 0.0
    ensures edge >= -TRIANGLE_EPSILON <==> edge / size >= 0.0 - TRIANGLE_EPSILON / size
  {
    var q, e := edge / size, 0.0 - TRIANGLE_EPSILON / size;
    assert q * size == edge;
    assert e * size == -TRIANGLE_EPSILON;
    ScaleOrder(size, q, e);
  }

  lemma SideFromQuotient(area: real, edge: real)
    requires Abs(area) > TRIANGLE_EPSILON
    ensures NotOutside(area, edge) <==> edge / area >= 0.0 - TRIANGLE_EPSILON / Abs(area)
  {
    if area > 0.0 {
      PositiveSide(area, edge);
    } else {
      PositiveSide(0.0 - area, 0.0 - edge);
      assert (0.0 - edge) / (0.0 - area) == edge / area;
    }
  }

  /** A point is accepted exactly when its barycentric coordinates, which combine
      the vertices to that point and add up to one, are at least minus epsilon
      over the (doubled) area. */
  lemma AcceptedByBarycentric(p: Point, a: Point, b: Point, c: Point)
    requires !Degenerate(a, b, c)
    ensures var w, least := Barycentric(p, a, b, c), 0.0 - TRIANGLE_EPSILON / Abs(SignedArea(c, a, b));
      PointInTriangle(p, a, b, c) <==> w.a >= least && w.b >= least && w.c >= least
  {
    var area := SignedArea(c, a, b);
    AcceptedExactly(p, a, b, c);
    SideFromQuotient(area, SignedArea(p, a, b));
    SideFromQuotient(area, SignedArea(p, b, c));
    SideFromQuotient(area, SignedArea(p, c, a));
  }

  lemma WeightedCoordinate(p: Point, a: Point, b: Point, c: Point)
    ensures SignedArea(p, b, c) * a.x + SignedArea(p, c, a) * b.x + SignedArea(p, a, b) * c.x
         == SignedArea(c, a, b) * p.x
    ensures SignedArea(p, b, c) * a.y + SignedArea(p, c, a) * b.y + SignedArea(p, a, b) * c.y
         == SignedArea(c, a, b) * p.y
  {}

  lemma DivideSum(area: real, u: real, v: real, w: real, x: real, y: real, z: real, sum: real)
    requires area != 0.0 && u * x + v * y + w * z == area * sum
    ensures u / area * x + v / area * y + w / area * z == sum
  {
    var s := u / area * x + v / area * y + w / area * z;
    assert u / area * area == u && v / area * area == v && w / area * area == w;
    assert s * area == u * x + v * y + w * z;
  }

  /** The barycentric coordinates are what their name says. */
  lemma BarycentricCombines(p: Point, a: Point, b: Point, c: Point)
    requires SignedArea(c, a, b) != 0.0
    ensures var w := Barycentric(p, a, b, c);
      Combine(w, a, b, c) == p && w.a + w.b + w.c == 1.0
  {
    var area := SignedArea(c, a, b);
    var u, v, t := SignedArea(p, b, c), SignedArea(p, c, a), SignedArea(p, a, b);
    AreasAddUp(p, a, b, c);
    WeightedCoordinate(p, a, b, c);
    CombineFromSums(area, u, v, t, p, a, b, c);
  }

  lemma CombineFromSums(area: real, u: real, v: real, t: real, p: Point, a: Point, b: Point, c: Point)
    requires area != 0.0 && u + v + t == area
    requires u * a.x + v * b.x + t * c.x == area * p.x && u * a.y + v * b.y + t * c.y == area * p.y
    ensures Combine(Weights(u / area, v / area, t / area), a, b, c) == p
    ensures u / area + v / area + t / area == 1.0
  {
    DivideSum(area, u, v, t, a.x, b.x, c.x, p.x);
    DivideSum(area, u, v, t, a.y, b.y, c.y, p.y);
    DivideSum(area, u, v, t, 1.0, 1.0, 1.0, 1.0);
  }

  /** The answer does not depend on the order of the vertices. */
  lemma OrderDoesNotMatter(p: Point, a: Point, b: Point, c: Point)
    ensures PointInTriangle(p, a, b, c) == PointInTriangle(p, b, c, a) == PointInTriangle(p, c, a, b)
         == PointInTriangle(p, b, a, c) == PointInTriangle(p, a, c, b) == PointInTriangle(p, c, b, a)
  {
    RotateKeeps(a, b, c);
    RotateKeeps(b, a, c);
    SwapNegates(p, a, b);
    SwapNegates(p, b, c);
    SwapNegates(p, c, a);
    SwapNegates(c, a, b);
  }

  // ----- Meshes -----

  datatype Drawable = Drawable(visible: bool, opacity: real, vertexCount: nat, vertices: seq<real>,
                               indexCount: nat, indices: seq<nat>)

  /** A coordinate that is not there counts as 0. */
  function Coordinate(d: Drawable, i: nat): real { if i < |d.vertices| then d.vertices[i] else 0.0 }

  function Vertex(d: Drawable, i: nat): Point { Point(Coordinate(d, 2 * i), Coordinate(d, 2 * i + 1)) }

  predicate Shown(d: Drawable) { d.visible && d.opacity > MINIMUM_OPACITY }

  /** The three indices at `offset` are there and name vertices. */
  predicate TriangleAt(d: Drawable, offset: nat) {
    && offset + 2 < d.indexCount && offset + 2 < |d.indices|
    && forall k :: offset <= k < offset + 3 ==> d.indices[k] < d.vertexCount
  }

  predicate HitAt(d: Drawable, offset: nat, p: Point) {
    && TriangleAt(d, offset)
    && PointInTriangle(p, Vertex(d, d.indices[offset]), Vertex(d, d.indices[offset + 1]), Vertex(d, d.indices[offset + 2]))
  }

  ghost predicate HitDrawable(d: Drawable, p: Point) {
    Shown(d) && exists triangle: nat :: HitAt(d, 3 * triangle, p)
  }

  method IsPointInDrawable(d: Drawable, p: Point) returns (hit: bool)
    ensures hit <==> HitDrawable(d, p)
  {
    if !Shown(d) {
      return false;
    }
    var offset := 0;
    ghost var triangle: nat := 0;
    while offset + 2 < d.indexCount
      invariant offset == 3 * triangle
      invariant forall earlier: nat :: earlier < triangle ==> !HitAt(d, 3 * earlier, p)
    {
      if TriangleAt(d, offset) {
        var a, b, c := Vertex(d, d.indices[offset]), Vertex(d, d.indices[offset + 1]), Vertex(d, d.indices[offset + 2]);
        if PointInTriangle(p, a, b, c) {
          assert HitAt(d, 3 * triangle, p);
          return true;
        }
      }
      offset := offset + 3;
      triangle := triangle + 1;
    }
    return false;
  }

  /** True exactly when some triangle of some shown drawable contains the point. */
  method IsPointInVisibleDrawableMeshes(model: seq<Drawable>, p: Point) returns (hit: bool)
    ensures hit <==> exists i :: 0 <= i < |model| && HitDrawable(model[i], p)
  {
    var drawableIndex := 0;
    while drawableIndex < |model|
      invariant 0 <= drawableIndex <= |model|
      invariant forall i :: 0 <= i < drawableIndex ==> !HitDrawable(model[i], p)
    {
      hit := IsPointInDrawable(model[drawableIndex], p);
      if hit {
        return;
      }
      drawableIndex := drawableIndex + 1;
    }
    hit := false;
  }
}
