/** A convex polygon collider: its vertices already placed in world space. */
module PolygonShape {
  import opened Geometry

  datatype Polygon = Polygon(vertices: seq<Vec2>)

  /** Rotates every local vertex by the transform's angle and moves it by the
      transform's translation, keeping count and order. */
  function RotateTranslate(vertices: seq<Vec2>, t: GlobalTransform): (r: seq<Vec2>)
    ensures |r| == |vertices|
    ensures forall i :: 0 <= i < |vertices| ==> r[i] == Place(vertices[i], t)
  {
    seq(|vertices|, i requires 0 <= i < |vertices| => Place(vertices[i], t))
  }

  /** A polygon built from local vertices and a world transform. */
  function FromVertices(vertices: seq<Vec2>, t: GlobalTransform): (p: Polygon)
    ensures |p.vertices| == |vertices|
    ensures forall i :: 0 <= i < |vertices| ==> p.vertices[i] == Place(vertices[i], t)
  {
    Polygon(RotateTranslate(vertices, t))
  }

  /** The four local corners of a rectangle with half-width `w` and half-height
      `h`, counter-clockwise from the lower-left corner. */
  function SquareCorners(w: real, h: real): seq<Vec2>
  {
    [Vec2(-w, -h), Vec2(w, -h), Vec2(w, h), Vec2(-w, h)]
  }

  /** The rectangle collider of half-extents `w`, `h` under a world transform. */
  function Square(w: real, h: real, t: GlobalTransform): (p: Polygon)
    ensures |p.vertices| == 4
    ensures p.vertices[0] == Place(Vec2(-w, -h), t)
    ensures p.vertices[1] == Place(Vec2(w, -h), t)
    ensures p.vertices[2] == Place(Vec2(w, h), t)
    ensures p.vertices[3] == Place(Vec2(-w, h), t)
  {
    FromVertices(SquareCorners(w, h), t)
  }

  /** With cosine 1 and sine 0 the transform only translates. */
  lemma IdentityRotationTranslates(vertices: seq<Vec2>, t: GlobalTransform)
    requires t.cos == 1.0 && t.sin == 0.0
    ensures forall i :: 0 <= i < |vertices| ==>
      RotateTranslate(vertices, t)[i] == Add(vertices[i], t.translation)
  {
  }

  /** A proper rotation (cos^2 + sin^2 = 1) keeps each vertex's squared distance
      from the origin as its squared distance from the new position. */
  lemma {:induction false} RotationKeepsDistance(v: Vec2, t: GlobalTransform)
    requires t.cos * t.cos + t.sin * t.sin == 1.0
    ensures Dist2(Place(v, t), t.translation) == Dot(v, v)
  {
    var p := Place(v, t);
    var c, s := t.cos, t.sin;
    calc {
      Dist2(p, t.translation);
      (v.x * c - v.y * s) * (v.x * c - v.y * s) + (v.x * s + v.y * c) * (v.x * s + v.y * c);
      v.x * v.x * (c * c + s * s) + v.y * v.y * (c * c + s * s);
      Dot(v, v);
    }
  }

  /** The polygon's reference positions: its vertices, unchanged. */
  function Positions(p: Polygon): (r: seq<Vec2>)
    ensures r == p.vertices
  {
    p.vertices
  }

  /** Candidate axes from every vertex toward the other shape's single position.
      An opponent with more than one position contributes no axes; with none, the
      source would index an empty list, so a non-empty polygon needs one. */
  function AxesFromPosition(p: Polygon, others: seq<Vec2>, norm: Vec2 -> Vec2): (r: seq<Vec2>)
    requires |others| > 0 || |p.vertices| == 0
    ensures |others| > 1 ==> r == []
    ensures |others| <= 1 ==> |r| == |p.vertices|
    ensures |others| <= 1 ==>
      forall i :: 0 <= i < |p.vertices| ==> r[i] == norm(Sub(others[0], p.vertices[i]))
  {
    if |others| > 1 then []
    else seq(|p.vertices|, i requires 0 <= i < |p.vertices| => norm(Sub(others[0], p.vertices[i])))
  }

  /** The un-normalised normal `(-(dy), dx)` of the edge from `p1` to `p2`. */
  function EdgeNormal(p1: Vec2, p2: Vec2): (r: Vec2)
    ensures Dot(r, r) == Dist2(p1, p2)
  {
    Vec2(-(p2.y - p1.y), p2.x - p1.x)
  }

  /** Every edge normal is perpendicular to its edge. */
  lemma EdgeNormalPerpendicular(p1: Vec2, p2: Vec2)
    ensures Dot(EdgeNormal(p1, p2), Sub(p2, p1)) == 0.0
  {
  }

  /** The index after `i` in a cyclic list of `n` vertices, `(i + 1) % n`. */
  function NextIndex(i: nat, n: nat): (j: nat)
    requires i < n
    ensures j < n
    ensures j == (i + 1) % n
  {
    if i + 1 < n then i + 1 else 0
  }

  /** One normal per vertex: edge `i` runs from vertex `i` to vertex `(i+1) % n`. */
  function Normals(p: Polygon, norm: Vec2 -> Vec2): (r: seq<Vec2>)
    ensures |r| == |p.vertices|
    ensures forall i :: 0 <= i < |p.vertices| ==>
      r[i] == norm(EdgeNormal(p.vertices[i], p.vertices[NextIndex(i, |p.vertices|)]))
  {
    var n := |p.vertices|;
    seq(n, i requires 0 <= i < n => norm(EdgeNormal(p.vertices[i], p.vertices[NextIndex(i, n)])))
  }

  /** The last edge closes the polygon: it runs from the last vertex back to the first. */
  lemma LastNormalWraps(p: Polygon, norm: Vec2 -> Vec2)
    requires |p.vertices| > 0
    ensures Normals(p, norm)[|p.vertices| - 1]
         == norm(EdgeNormal(p.vertices[|p.vertices| - 1], p.vertices[0]))
  {
  }

  /** Least projection of the vertices onto `axis`, folded left to right as the
      source's loop does. */
  function MinProjection(vs: seq<Vec2>, axis: Vec2): (m: real)
    requires |vs| > 0
    ensures forall i :: 0 <= i < |vs| ==> m <= Dot(vs[i], axis)
    ensures exists i :: 0 <= i < |vs| && m == Dot(vs[i], axis)
  {
    if |vs| == 1 then Dot(vs[0], axis)
    else
      var rest := MinProjection(vs[..|vs| - 1], axis);
      assert forall i :: 0 <= i < |vs| - 1 ==> vs[..|vs| - 1][i] == vs[i];
      Min(rest, Dot(vs[|vs| - 1], axis))
  }

  /** Greatest projection of the vertices onto `axis`. */
  function MaxProjection(vs: seq<Vec2>, axis: Vec2): (m: real)
    requires |vs| > 0
    ensures forall i :: 0 <= i < |vs| ==> Dot(vs[i], axis) <= m
    ensures exists i :: 0 <= i < |vs| && m == Dot(vs[i], axis)
  {
    if |vs| == 1 then Dot(vs[0], axis)
    else
      var rest := MaxProjection(vs[..|vs| - 1], axis);
      assert forall i :: 0 <= i < |vs| - 1 ==> vs[..|vs| - 1][i] == vs[i];
      Max(rest, Dot(vs[|vs| - 1], axis))
  }

  /** The projection interval of a non-empty polygon onto `axis`. */
  function Range(p: Polygon, axis: Vec2): (r: (real, real))
    requires |p.vertices| > 0
    ensures r.0 <= r.1
    ensures forall i :: 0 <= i < |p.vertices| ==> r.0 <= Dot(p.vertices[i], axis) <= r.1
  {
    (MinProjection(p.vertices, axis), MaxProjection(p.vertices, axis))
  }

  /** The source's projection loop: one pass over the vertices keeping the least
      and greatest dot product seen so far. */
  method RangeAlongAxis(p: Polygon, axis: Vec2) returns (min: real, max: real)
    requires |p.vertices| > 0
    ensures (min, max) == Range(p, axis)
    ensures forall i :: 0 <= i < |p.vertices| ==> min <= Dot(p.vertices[i], axis) <= max
    ensures exists i :: 0 <= i < |p.vertices| && min == Dot(p.vertices[i], axis)
    ensures exists i :: 0 <= i < |p.vertices| && max == Dot(p.vertices[i], axis)
  {
    var vs := p.vertices;
    min, max := 0.0, 0.0;
    var i := 0;
    while i < |vs|
      invariant 0 <= i <= |vs|
      invariant i > 0 ==> min == MinProjection(vs[..i], axis)
      invariant i > 0 ==> max == MaxProjection(vs[..i], axis)
    {
      var d := Dot(vs[i], axis);
      if i == 0 {
        // The sentinels +INFINITY and -INFINITY give way to the first projection.
        min, max := d, d;
      } else {
        min := Min(min, d);
        max := Max(max, d);
        assert vs[..i + 1][..i] == vs[..i];
      }
      i := i + 1;
    }
    assert vs[..|vs|] == vs;
  }
}
