/** The collider abstraction and its Separating-Axis overlap test. The source's
    trait objects become a closed variant over the two shapes that implement it;
    each operation dispatches on the variant. Normalisation of an axis
    (`normalize_or_zero`) is an input, `norm`. */
module Collider {
  import opened Geometry
  import CircleShape
  import PolygonShape

  datatype Collider =
    | CircleCollider(circle: CircleShape.Circle)
    | PolygonCollider(polygon: PolygonShape.Polygon)

  /** A polygon collider needs a vertex: with none its projection would be the
      infinite sentinel interval, which this model leaves out. */
  predicate WellFormed(c: Collider)
  {
    c.PolygonCollider? ==> |c.polygon.vertices| > 0
  }

  function Positions(c: Collider): (r: seq<Vec2>)
    ensures c.CircleCollider? ==> r == [c.circle.position]
    ensures c.PolygonCollider? ==> r == c.polygon.vertices
  {
    match c
    case CircleCollider(circle) => CircleShape.Positions(circle)
    case PolygonCollider(polygon) => PolygonShape.Positions(polygon)
  }

  /** Axes from this collider toward the other shape's positions: a circle has
      one per other position; a polygon one per vertex toward a single other
      position, and none when the other shape has several. */
  function AxesFromPosition(c: Collider, others: seq<Vec2>, norm: Vec2 -> Vec2): (r: seq<Vec2>)
    requires c.PolygonCollider? ==> |others| > 0 || |c.polygon.vertices| == 0
    ensures c.CircleCollider? ==> |r| == |others|
    ensures c.CircleCollider? ==>
      forall i :: 0 <= i < |others| ==> r[i] == norm(Sub(others[i], c.circle.position))
    ensures c.PolygonCollider? && |others| > 1 ==> r == []
    ensures c.PolygonCollider? && |others| <= 1 ==> |r| == |c.polygon.vertices|
    ensures c.PolygonCollider? ==> r == PolygonShape.AxesFromPosition(c.polygon, others, norm)
  {
    match c
    case CircleCollider(circle) => CircleShape.AxesFromPosition(circle, others, norm)
    case PolygonCollider(polygon) => PolygonShape.AxesFromPosition(polygon, others, norm)
  }

  /** Edge normals. The trait's default gives none, and the circle keeps that default. */
  function Normals(c: Collider, norm: Vec2 -> Vec2): (r: seq<Vec2>)
    ensures c.CircleCollider? ==> r == []
    ensures c.PolygonCollider? ==> |r| == |c.polygon.vertices|
    ensures c.PolygonCollider? ==> r == PolygonShape.Normals(c.polygon, norm)
  {
    match c
    case CircleCollider(_) => []
    case PolygonCollider(polygon) => PolygonShape.Normals(polygon, norm)
  }

  /** The projection interval on `axis`: the circle's or the polygon's own. It
      contains the projection of every position the collider offers, as long as
      a circle's radius is not negative. */
  function Range(c: Collider, axis: Vec2): (r: (real, real))
    requires WellFormed(c)
    ensures c.CircleCollider? ==> r == CircleShape.Range(c.circle, axis)
    ensures c.PolygonCollider? ==> r == PolygonShape.Range(c.polygon, axis)
    ensures c.PolygonCollider? || c.circle.radius >= 0.0 ==>
      forall i :: 0 <= i < |Positions(c)| ==> r.0 <= Dot(Positions(c)[i], axis) <= r.1
  {
    match c
    case CircleCollider(circle) =>
      DotSelfNonNegative(axis);
      CircleShape.Range(circle, axis)
    case PolygonCollider(polygon) => PolygonShape.Range(polygon, axis)
  }

  /** The inclusive per-axis test: the intervals overlap unless one ends strictly
      before the other starts. */
  predicate IntervalsOverlap(a: (real, real), b: (real, real))
  {
    a.1 >= b.0 && b.1 >= a.0
  }

  /** `t` lies in the closed interval `i`. */
  predicate Within(t: real, i: (real, real))
  {
    i.0 <= t <= i.1
  }

  /** On ordered intervals the test holds exactly when the closed intervals share
      a point; in particular intervals that only touch overlap. */
  lemma {:induction false} OverlapIffCommonPoint(a: (real, real), b: (real, real))
    requires a.0 <= a.1 && b.0 <= b.1
    ensures IntervalsOverlap(a, b) <==> exists t :: Within(t, a) && Within(t, b)
  {
    if IntervalsOverlap(a, b) {
      var t := Max(a.0, b.0);
      assert Within(t, a) && Within(t, b);
    }
  }

  /** `axis` separates the two colliders: their projections are disjoint. */
  predicate Separates(a: Collider, b: Collider, axis: Vec2)
    requires WellFormed(a) && WellFormed(b)
  {
    !IntervalsOverlap(Range(a, axis), Range(b, axis))
  }

  /** The source's early-exit loop over the axes: true when no axis separates. */
  function NoSeparatingAxis(a: Collider, b: Collider, axes: seq<Vec2>): (r: bool)
    requires WellFormed(a) && WellFormed(b)
    ensures r <==> forall i :: 0 <= i < |axes| ==> !Separates(a, b, axes[i])
  {
    if axes == [] then true
    else if Separates(a, b, axes[0]) then false
    else
      assert forall i :: 1 <= i < |axes| ==> axes[i] == axes[1..][i - 1];
      NoSeparatingAxis(a, b, axes[1..])
  }

  /** The candidate axes, in the source's order: `a`'s axes toward `b`'s
      positions (only `a`'s, never `b`'s), then `a`'s normals, then `b`'s. */
  function CandidateAxes(a: Collider, b: Collider, norm: Vec2 -> Vec2): (r: seq<Vec2>)
    requires WellFormed(a) && WellFormed(b)
    ensures forall axis :: axis in r <==>
      axis in AxesFromPosition(a, Positions(b), norm) || axis in Normals(a, norm) || axis in Normals(b, norm)
    ensures a.CircleCollider? && b.CircleCollider? ==> |r| == 1
  {
    AxesFromPosition(a, Positions(b), norm) + Normals(a, norm) + Normals(b, norm)
  }

  /** Separating-Axis overlap: false exactly when some candidate axis separates. */
  function Collide(a: Collider, b: Collider, norm: Vec2 -> Vec2): (r: bool)
    requires WellFormed(a) && WellFormed(b)
    ensures !r <==> exists axis :: axis in CandidateAxes(a, b, norm) && Separates(a, b, axis)
  {
    NoSeparatingAxis(a, b, CandidateAxes(a, b, norm))
  }

  /** With no axes to try, nothing separates. */
  lemma NoAxesNoSeparation(a: Collider, b: Collider)
    requires WellFormed(a) && WellFormed(b)
    ensures NoSeparatingAxis(a, b, [])
  {
  }

  /** The search depends only on which axes are tried, not on their order or repetition. */
  lemma {:induction false} AxisOrderIrrelevant(a: Collider, b: Collider, xs: seq<Vec2>, ys: seq<Vec2>)
    requires WellFormed(a) && WellFormed(b)
    requires forall v :: v in xs <==> v in ys
    ensures NoSeparatingAxis(a, b, xs) == NoSeparatingAxis(a, b, ys)
  {
    if !NoSeparatingAxis(a, b, xs) {
      var i :| 0 <= i < |xs| && Separates(a, b, xs[i]);
      assert xs[i] in ys;
    }
    if !NoSeparatingAxis(a, b, ys) {
      var i :| 0 <= i < |ys| && Separates(a, b, ys[i]);
      assert ys[i] in xs;
    }
  }

  /** A circle has no normals of its own, so against another circle the only
      candidate axis is the one from `a`'s centre toward `b`'s. */
  lemma CircleCircleSingleAxis(a: CircleShape.Circle, b: CircleShape.Circle, norm: Vec2 -> Vec2)
    ensures CandidateAxes(CircleCollider(a), CircleCollider(b), norm) == [norm(Sub(b.position, a.position))]
    ensures Collide(CircleCollider(a), CircleCollider(b), norm)
        == IntervalsOverlap(CircleShape.Range(a, norm(Sub(b.position, a.position))),
                            CircleShape.Range(b, norm(Sub(b.position, a.position))))
  {
  }

  /** Two polygons that share a vertex overlap, whatever the axes. */
  lemma {:induction false} SharedVertexCollides(a: PolygonShape.Polygon, b: PolygonShape.Polygon, v: Vec2, norm: Vec2 -> Vec2)
    requires v in a.vertices && v in b.vertices
    ensures Collide(PolygonCollider(a), PolygonCollider(b), norm)
  {
    var ca, cb := PolygonCollider(a), PolygonCollider(b);
    forall axis: Vec2
      ensures !Separates(ca, cb, axis)
    {
      var i :| 0 <= i < |a.vertices| && a.vertices[i] == v;
      var j :| 0 <= j < |b.vertices| && b.vertices[j] == v;
      var ra, rb := PolygonShape.Range(a, axis), PolygonShape.Range(b, axis);
      assert ra.0 <= Dot(v, axis) <= ra.1;
      assert rb.0 <= Dot(v, axis) <= rb.1;
    }
  }

  /** With cosine 1 and sine 0 a rectangle's corners are its centre (x, y)
      plus and minus the half-extents. */
  lemma UnrotatedSquare(w: real, h: real, x: real, y: real, x0: real, y0: real, x1: real, y1: real)
    requires x0 == x - w && x1 == x + w && y0 == y - h && y1 == y + h
    ensures PolygonShape.Square(w, h, GlobalTransform(Vec2(x, y), 1.0, 0.0))
         == PolygonShape.Polygon([Vec2(x0, y0), Vec2(x1, y0), Vec2(x1, y1), Vec2(x0, y1)])
  {
  }

  /** Squares of half-size 10 centred at (0, 0) and (20, 0), as vertex lists,
      share the corner (10, -10) and so collide. */
  lemma {:induction false} TouchingCornersCollide(norm: Vec2 -> Vec2)
    ensures Collide(
      PolygonCollider(PolygonShape.Polygon([Vec2(-10.0, -10.0), Vec2(10.0, -10.0), Vec2(10.0, 10.0), Vec2(-10.0, 10.0)])),
      PolygonCollider(PolygonShape.Polygon([Vec2(10.0, -10.0), Vec2(30.0, -10.0), Vec2(30.0, 10.0), Vec2(10.0, 10.0)])),
      norm)
  {
    var a := PolygonShape.Polygon([Vec2(-10.0, -10.0), Vec2(10.0, -10.0), Vec2(10.0, 10.0), Vec2(-10.0, 10.0)]);
    var b := PolygonShape.Polygon([Vec2(10.0, -10.0), Vec2(30.0, -10.0), Vec2(30.0, 10.0), Vec2(10.0, 10.0)]);
    assert a.vertices[1] == Vec2(10.0, -10.0) == b.vertices[0];
    SharedVertexCollides(a, b, Vec2(10.0, -10.0), norm);
  }

  /** Two unrotated 20 x 20 squares whose edges touch at x = 10 collide: the
      per-axis test counts touching intervals as overlapping. */
  lemma {:induction false} TouchingSquaresCollide(norm: Vec2 -> Vec2)
    ensures Collide(PolygonCollider(PolygonShape.Square(10.0, 10.0, GlobalTransform(Vec2(0.0, 0.0), 1.0, 0.0))),
                    PolygonCollider(PolygonShape.Square(10.0, 10.0, GlobalTransform(Vec2(20.0, 0.0), 1.0, 0.0))),
                    norm)
  {
    UnrotatedSquare(10.0, 10.0, 0.0, 0.0, -10.0, -10.0, 10.0, 10.0);
    UnrotatedSquare(10.0, 10.0, 20.0, 0.0, 10.0, -10.0, 30.0, 10.0);
    TouchingCornersCollide(norm);
  }

  /** An axis along which every vertex of `b` projects strictly below every
      vertex of `a` separates the two polygons. */
  lemma PolygonsApartAlong(a: PolygonShape.Polygon, b: PolygonShape.Polygon, axis: Vec2, m: real)
    requires |a.vertices| > 0 && |b.vertices| > 0
    requires forall i :: 0 <= i < |a.vertices| ==> m <= Dot(a.vertices[i], axis)
    requires forall j :: 0 <= j < |b.vertices| ==> Dot(b.vertices[j], axis) < m
    ensures Separates(PolygonCollider(a), PolygonCollider(b), axis)
  {
    var lo := PolygonShape.MinProjection(a.vertices, axis);
    var hi := PolygonShape.MaxProjection(b.vertices, axis);
    var i :| 0 <= i < |a.vertices| && lo == Dot(a.vertices[i], axis);
    var j :| 0 <= j < |b.vertices| && hi == Dot(b.vertices[j], axis);
  }

  /** Squares of half-size 10 centred at (0, 0) and (21, 0), as vertex lists,
      are separated by the normal of the first one's right-hand edge. */
  lemma {:induction false} GappedCornersSeparate(norm: Vec2 -> Vec2)
    requires norm(Vec2(-20.0, 0.0)) == Vec2(-1.0, 0.0)
    ensures !Collide(
      PolygonCollider(PolygonShape.Polygon([Vec2(-10.0, -10.0), Vec2(10.0, -10.0), Vec2(10.0, 10.0), Vec2(-10.0, 10.0)])),
      PolygonCollider(PolygonShape.Polygon([Vec2(11.0, -10.0), Vec2(31.0, -10.0), Vec2(31.0, 10.0), Vec2(11.0, 10.0)])),
      norm)
  {
    var a := PolygonShape.Polygon([Vec2(-10.0, -10.0), Vec2(10.0, -10.0), Vec2(10.0, 10.0), Vec2(-10.0, 10.0)]);
    var b := PolygonShape.Polygon([Vec2(11.0, -10.0), Vec2(31.0, -10.0), Vec2(31.0, 10.0), Vec2(11.0, 10.0)]);
    var ca, cb := PolygonCollider(a), PolygonCollider(b);
    var axis := Vec2(-1.0, 0.0);
    assert axis in CandidateAxes(ca, cb, norm) by {
      assert PolygonShape.EdgeNormal(a.vertices[1], a.vertices[2]) == Vec2(-20.0, 0.0);
      assert Normals(ca, norm)[1] == axis;
    }
    PolygonsApartAlong(a, b, axis, -10.0);
  }

  /** Moved one unit further apart than in `TouchingSquaresCollide`, the squares are
      separated by the normal of the first square's right-hand edge. */
  lemma {:induction false} GappedSquaresSeparate(norm: Vec2 -> Vec2)
    requires norm(Vec2(-20.0, 0.0)) == Vec2(-1.0, 0.0)
    ensures !Collide(PolygonCollider(PolygonShape.Square(10.0, 10.0, GlobalTransform(Vec2(0.0, 0.0), 1.0, 0.0))),
                     PolygonCollider(PolygonShape.Square(10.0, 10.0, GlobalTransform(Vec2(21.0, 0.0), 1.0, 0.0))),
                     norm)
  {
    UnrotatedSquare(10.0, 10.0, 0.0, 0.0, -10.0, -10.0, 10.0, 10.0);
    UnrotatedSquare(10.0, 10.0, 21.0, 0.0, 11.0, -10.0, 31.0, 10.0);
    GappedCornersSeparate(norm);
  }
}
