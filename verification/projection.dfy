/** The perspective projector `project4DTo3D` (src/components/ThreeJSHero.tsx,
    lines 182-190) and the per-edge cylinder placement of the animation loop
    (lines 270-310): both endpoints of an edge are rotated and projected, and
    the edge's mesh is put at their midpoint and stretched to their distance. */
module Projection {
  import opened Geometry
  import opened Wrappers
  import opened Hypercube
  import opened Rotation

  /** The viewing distance of the perspective divide. */
  const Distance: real := 5.0

  /** `project4DTo3D`: x, y and z scaled by `Distance / (Distance + w)`.
      Where that denominator is zero JavaScript produces infinities or NaN;
      the model answers `None` there. Otherwise the projected point and the
      original point are related as in similar triangles. */
  function Project(v: Vec4): (r: Option<Vec3>)
    ensures r.Some? <==> Distance + v.w != 0.0
    ensures r.Some? ==> r.value.x * (Distance + v.w) == Distance * v.x
    ensures r.Some? ==> r.value.y * (Distance + v.w) == Distance * v.y
    ensures r.Some? ==> r.value.z * (Distance + v.w) == Distance * v.z
  {
    if Distance + v.w == 0.0 then
      None
    else
      var scale := Distance / (Distance + v.w);
      Some(Vec3(v.x * scale, v.y * scale, v.z * scale))
  }

  /** A rotated hypercube vertex stays at squared distance 4 from the origin,
      so its `w` lies in [-2, 2] and the projection's denominator in [3, 7]. */
  lemma RotatedVertexDepth(i: Index, a: Angles)
    requires AllUnit(a)
    ensures NormSq4(Rotate4D(Vertex(i), a)) == 4.0
    ensures -2.0 <= Rotate4D(Vertex(i), a).w <= 2.0
    ensures 3.0 <= Distance + Rotate4D(Vertex(i), a).w <= 7.0
    ensures Project(Rotate4D(Vertex(i), a)).Some?
  {
    VertexNormSq(i);
    var r := Rotate4D(Vertex(i), a);
    assert r.w * r.w <= 2.0 * 2.0 by {
      assert r.x * r.x + r.y * r.y + r.z * r.z >= 0.0;
    }
    SquareBound(r.w, 2.0);
  }

  /** The frame at angle zero: each vertex is left in place by the rotation
      and then scaled by 5/4 when its `w` is -1 and by 5/6 when it is +1. */
  lemma UnrotatedProjection(i: Index)
    ensures var v := Vertex(i);
            var scale := if v.w == -1.0 then 5.0 / 4.0 else 5.0 / 6.0;
            Project(Rotate4D(v, ZeroAngles)) == Some(Vec3(v.x * scale, v.y * scale, v.z * scale))
  {
    UnrotatedPoint(Vertex(i));
  }

  lemma UnrotatedPoint(v: Vec4)
    requires v.w == -1.0 || v.w == 1.0
    ensures var scale := if v.w == -1.0 then 5.0 / 4.0 else 5.0 / 6.0;
            Project(Rotate4D(v, ZeroAngles)) == Some(Vec3(v.x * scale, v.y * scale, v.z * scale))
  {
    assert Rotate4D(v, ZeroAngles) == v;
    ProjectAtDepth(v);
  }

  /** A point with `w = -1` is scaled by 5/4, one with `w = +1` by 5/6. */
  lemma ProjectAtDepth(v: Vec4)
    ensures v.w == -1.0 ==> Project(v) == Some(Vec3(v.x * (5.0 / 4.0), v.y * (5.0 / 4.0), v.z * (5.0 / 4.0)))
    ensures v.w == 1.0 ==> Project(v) == Some(Vec3(v.x * (5.0 / 6.0), v.y * (5.0 / 6.0), v.z * (5.0 / 6.0)))
  {
    if v.w == -1.0 || v.w == 1.0 {
      var scale := if v.w == -1.0 then 5.0 / 4.0 else 5.0 / 6.0;
      assert Distance / (Distance + v.w) == scale;
      var p := Project(v).value;
      assert p.x == v.x * scale && p.y == v.y * scale && p.z == v.z * scale;
      assert p == Vec3(v.x * scale, v.y * scale, v.z * scale);
    }
  }

  lemma ListedVertexProjects(i: Index, a: Angles)
    requires AllUnit(a)
    ensures Project(Rotate4D(Vertices()[i], a)).Some?
  {
    VertexAt(i);
    RotatedVertexDepth(i, a);
  }

  /** Both endpoints of an edge, rotated and projected (lines 271-296). */
  function ProjectEdge(vertices: seq<Vec4>, e: Edge, a: Angles): Option<(Vec3, Vec3)>
    requires 0 <= e.0 < |vertices| && 0 <= e.1 < |vertices|
  {
    var p1 := Project(Rotate4D(vertices[e.0], a));
    var p2 := Project(Rotate4D(vertices[e.1], a));
    if p1.Some? && p2.Some? then Some((p1.value, p2.value)) else None
  }

  /** For any unit angles, the segment between any two hypercube vertices,
      and so every edge of the hypercube, projects to two finite points. */
  lemma EveryEdgeProjects(a: Angles)
    requires AllUnit(a)
    ensures forall e: Edge | 0 <= e.0 < 16 && 0 <= e.1 < 16 :: ProjectEdge(Vertices(), e, a).Some?
  {
    forall e: Edge | 0 <= e.0 < 16 && 0 <= e.1 < 16
      ensures ProjectEdge(Vertices(), e, a).Some?
    {
      ListedVertexProjects(e.0, a);
      ListedVertexProjects(e.1, a);
    }
  }

  /** `length` is what `distanceTo` returns for the two points: the
      non-negative square root of their squared distance. */
  predicate IsLength(length: real, p1: Vec3, p2: Vec3) {
    0.0 <= length && length * length == DistSq(p1, p2)
  }

  /** Lines 298-310: the mesh goes to the midpoint of the two projected
      endpoints and is stretched along y to their distance. The midpoint is
      the point halfway along, equally far from both ends. */
  function PlaceEdge(p1: Vec3, p2: Vec3, length: real): (m: Mesh)
    requires IsLength(length, p1, p2)
    ensures 2.0 * m.position.x == p1.x + p2.x
    ensures 2.0 * m.position.y == p1.y + p2.y
    ensures 2.0 * m.position.z == p1.z + p2.z
    ensures DistSq(p1, m.position) == DistSq(m.position, p2)
    ensures 4.0 * DistSq(p1, m.position) == DistSq(p1, p2)
    ensures 0.0 <= m.scaleY && m.scaleY * m.scaleY == DistSq(p1, p2)
  {
    var midpoint := Vec3((p1.x + p2.x) / 2.0, (p1.y + p2.y) / 2.0, (p1.z + p2.z) / 2.0);
    HalfSquares(p1.x, p2.x);
    HalfSquares(p1.y, p2.y);
    HalfSquares(p1.z, p2.z);
    Mesh(midpoint, length)
  }

  /** Halfway between `a` and `b`, each half is a quarter of the squared
      whole. */
  lemma HalfSquares(a: real, b: real)
    ensures Sq((a + b) / 2.0 - a) == Sq(b - (a + b) / 2.0)
    ensures 4.0 * Sq((a + b) / 2.0 - a) == Sq(b - a)
  {
    assert (a + b) / 2.0 - a == (b - a) / 2.0;
    assert b - (a + b) / 2.0 == (b - a) / 2.0;
  }

  /** Coincident endpoints give a finite placement: the mesh sits on the
      point with zero length. */
  lemma PlaceEdgeCoincident(p: Vec3, length: real)
    requires IsLength(length, p, p)
    ensures PlaceEdge(p, p, length) == Mesh(p, 0.0)
  {
    RootUnique(length, 0.0);
  }

  /** The worked example: endpoints (0,0,0) and (0,2,0) are 2 apart. */
  lemma ExampleDistance()
    ensures DistSq(Vec3(0.0, 0.0, 0.0), Vec3(0.0, 2.0, 0.0)) == 4.0
    ensures IsLength(2.0, Vec3(0.0, 0.0, 0.0), Vec3(0.0, 2.0, 0.0))
  {
    assert Sq(2.0 - 0.0) == 4.0;
  }

  /** The length of a segment is determined by its endpoints: any two
      non-negative roots of the squared distance agree. */
  lemma LengthUnique(l1: real, l2: real, p1: Vec3, p2: Vec3)
    requires IsLength(l1, p1, p2) && IsLength(l2, p1, p2)
    ensures l1 == l2
  {
    RootUnique(l1, l2);
  }

  /** The same example placed: the mesh sits at (0,1,0), stretched to 2. */
  lemma PlaceEdgeExample()
    ensures IsLength(2.0, Vec3(0.0, 0.0, 0.0), Vec3(0.0, 2.0, 0.0))
    ensures PlaceEdge(Vec3(0.0, 0.0, 0.0), Vec3(0.0, 2.0, 0.0), 2.0).position == Vec3(0.0, 1.0, 0.0)
    ensures PlaceEdge(Vec3(0.0, 0.0, 0.0), Vec3(0.0, 2.0, 0.0), 2.0).scaleY == 2.0
  {
    var p1, p2 := Vec3(0.0, 0.0, 0.0), Vec3(0.0, 2.0, 0.0);
    ExampleDistance();
    assert (p1.x + p2.x) / 2.0 == 0.0;
    assert (p1.y + p2.y) / 2.0 == 1.0;
    assert (p1.z + p2.z) / 2.0 == 0.0;
    PlaceEdgeMidpoint(p1, p2, 2.0);
  }

  /** The placement is the plain midpoint, and the stretch is the length. */
  lemma PlaceEdgeMidpoint(p1: Vec3, p2: Vec3, length: real)
    requires IsLength(length, p1, p2)
    ensures PlaceEdge(p1, p2, length).position == Vec3((p1.x + p2.x) / 2.0, (p1.y + p2.y) / 2.0, (p1.z + p2.z) / 2.0)
    ensures PlaceEdge(p1, p2, length).scaleY == length
  {
  }
}
