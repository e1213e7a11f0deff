/** Plane geometry over the reals: the `Vec2` arithmetic the physics core uses
    (bevy's `f32` vectors, modelled with exact reals) and the world placement of a
    collider. */
module Geometry {

  /** A two-dimensional vector. */
  datatype Vec2 = Vec2(x: real, y: real)

  const Zero: Vec2 := Vec2(0.0, 0.0)

  function Add(a: Vec2, b: Vec2): Vec2 { Vec2(a.x + b.x, a.y + b.y) }

  function Sub(a: Vec2, b: Vec2): Vec2 { Vec2(a.x - b.x, a.y - b.y) }

  function Scale(a: Vec2, k: real): Vec2 { Vec2(a.x * k, a.y * k) }

  /** Component-wise division by a scalar, as `Vec2 / f32`. */
  function Div(a: Vec2, k: real): Vec2
    requires k != 0.0
  {
    Vec2(a.x / k, a.y / k)
  }

  function Dot(a: Vec2, b: Vec2): real { a.x * b.x + a.y * b.y }

  /** Squared Euclidean distance between two points. */
  function Dist2(a: Vec2, b: Vec2): real { Dot(Sub(a, b), Sub(a, b)) }

  /** `f32::min` and `f32::max` on ordinary (non-NaN) values. */
  function Min(a: real, b: real): real { if a <= b then a else b }

  function Max(a: real, b: real): real { if a <= b then b else a }

  /** Component-wise minimum and maximum, as `Vec2::min` and `Vec2::max`. */
  function MinVec(a: Vec2, b: Vec2): Vec2 { Vec2(Min(a.x, b.x), Min(a.y, b.y)) }

  function MaxVec(a: Vec2, b: Vec2): Vec2 { Vec2(Max(a.x, b.x), Max(a.y, b.y)) }

  /** The part of a body's world placement that colliders read: the translation's
      x and y, and the cosine and sine of the rotation angle about z. The angle
      itself (taken from the rotation quaternion) and its trigonometry are not
      part of this model; the two values are inputs. */
  datatype GlobalTransform = GlobalTransform(translation: Vec2, cos: real, sin: real)

  /** Rotation of a local point by the transform's angle, then translation. */
  function Place(v: Vec2, t: GlobalTransform): Vec2
  {
    Add(Vec2(v.x * t.cos - v.y * t.sin, v.x * t.sin + v.y * t.cos), t.translation)
  }

  /** The square of a real is never negative. */
  lemma SquareNonNegative(a: real)
    ensures a * a >= 0.0
  {
    if a < 0.0 {
      assert a * a == (-a) * (-a);
    }
  }

  /** A vector's dot product with itself is never negative. */
  lemma DotSelfNonNegative(a: Vec2)
    ensures Dot(a, a) >= 0.0
  {
    SquareNonNegative(a.x);
    SquareNonNegative(a.y);
  }
}
