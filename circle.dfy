/** A circle collider: a world-space centre and a radius. */
module CircleShape {
  import opened Geometry

  datatype Circle = Circle(position: Vec2, radius: real)

  /** The circle's only reference position is its centre. */
  function Positions(c: Circle): (r: seq<Vec2>)
    ensures |r| == 1 && r[0] == c.position
  {
    [c.position]
  }

  /** One candidate axis per opposing position, in the same order, each from the
      centre toward that position. */
  function AxesFromPosition(c: Circle, others: seq<Vec2>, norm: Vec2 -> Vec2): (r: seq<Vec2>)
    ensures |r| == |others|
    ensures forall i :: 0 <= i < |others| ==> r[i] == norm(Sub(others[i], c.position))
  {
    seq(|others|, i requires 0 <= i < |others| => norm(Sub(others[i], c.position)))
  }

  /** Projection of the circle onto `axis`: the projections of the two points
      `centre -/+ axis * radius`. For any axis this is `c.a -/+ r |a|^2`. */
  function Range(c: Circle, axis: Vec2): (r: (real, real))
    ensures r.0 == Dot(c.position, axis) - c.radius * Dot(axis, axis)
    ensures r.1 == Dot(c.position, axis) + c.radius * Dot(axis, axis)
  {
    var vmin := Sub(c.position, Scale(axis, c.radius));
    var vmax := Add(c.position, Scale(axis, c.radius));
    (Dot(vmin, axis), Dot(vmax, axis))
  }

  /** On a unit axis the projection is the centre's projection plus or minus the radius. */
  lemma UnitAxisRange(c: Circle, axis: Vec2)
    requires Dot(axis, axis) == 1.0
    ensures Range(c, axis) == (Dot(c.position, axis) - c.radius, Dot(c.position, axis) + c.radius)
  {
  }

  /** A circle of non-negative radius projects to an ordered interval. */
  lemma {:induction false} RangeOrdered(c: Circle, axis: Vec2)
    requires c.radius >= 0.0
    ensures Range(c, axis).0 <= Range(c, axis).1
  {
    DotSelfNonNegative(axis);
    assert c.radius * Dot(axis, axis) >= 0.0;
  }

  /** The zero axis (what normalisation returns for a zero vector) projects to (0, 0). */
  lemma ZeroAxisRange(c: Circle)
    ensures Range(c, Zero) == (0.0, 0.0)
  {
  }
}
