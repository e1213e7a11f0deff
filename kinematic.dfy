/** Kinematic components and the per-tick integration step: force becomes
    acceleration (added onto what is already there), acceleration becomes
    velocity, velocity becomes translation and rotation. */
module Kinematic {
  import opened Geometry

  /** Linear and angular velocity. */
  datatype Velocity = Velocity(linear: Vec2, angular: real)

  /** Linear and angular acceleration. */
  datatype Acceleration = Acceleration(linear: Vec2, angular: real)

  /** Linear and angular force. */
  datatype Force = Force(linear: Vec2, angular: real)

  /** Mass resists linear force, inertia resists angular force. */
  datatype Resistance = Resistance(mass: real, inertia: real)

  /** The x-y translation and the rotation angle about z. Rotating by `a`
      composes a rotation about z, which adds `a` to the angle. */
  datatype Transform = Transform(translation: Vec2, rotation: real)

  /** The components `update_transform` reads and writes for one entity. */
  datatype Body = Body(
    transform: Transform,
    velocity: Velocity,
    acceleration: Acceleration,
    force: Force,
    resistance: Resistance)

  function DefaultVelocity(): (v: Velocity)
    ensures v.linear == Zero && v.angular == 0.0
  {
    Velocity(Zero, 0.0)
  }

  function DefaultAcceleration(): (a: Acceleration)
    ensures a.linear == Zero && a.angular == 0.0
  {
    Acceleration(Zero, 0.0)
  }

  function DefaultForce(): (f: Force)
    ensures f.linear == Zero && f.angular == 0.0
  {
    Force(Zero, 0.0)
  }

  /** Unit mass and unit inertia. */
  function DefaultResistance(): (r: Resistance)
    ensures r.mass == 1.0 && r.inertia == 1.0
  {
    Resistance(1.0, 1.0)
  }

  /** The `Kinematic` bundle's default on top of a given transform: at rest, no
      force, unit resistance. */
  function DefaultKinematic(t: Transform): (b: Body)
    ensures b.transform == t
    ensures b.velocity.linear == Zero && b.velocity.angular == 0.0
    ensures b.acceleration.linear == Zero && b.acceleration.angular == 0.0
    ensures b.force.linear == Zero && b.force.angular == 0.0
    ensures b.resistance.mass == 1.0 && b.resistance.inertia == 1.0
  {
    Body(t, DefaultVelocity(), DefaultAcceleration(), DefaultForce(), DefaultResistance())
  }

  /** Both divisions of the step are defined. */
  predicate Integrable(b: Body)
  {
    b.resistance.mass != 0.0 && b.resistance.inertia != 0.0
  }

  /** Force -> Acceleration: the force over the resistance is ADDED to the
      acceleration already stored; nothing is reset. */
  function ApplyForce(b: Body): (r: Body)
    requires Integrable(b)
    ensures r.transform == b.transform && r.velocity == b.velocity
    ensures r.force == b.force && r.resistance == b.resistance
    ensures Scale(Sub(r.acceleration.linear, b.acceleration.linear), b.resistance.mass) == b.force.linear
    ensures (r.acceleration.angular - b.acceleration.angular) * b.resistance.inertia == b.force.angular
  {
    b.(acceleration := Acceleration(
      Add(b.acceleration.linear, Div(b.force.linear, b.resistance.mass)),
      b.acceleration.angular + b.force.angular / b.resistance.inertia))
  }

  /** Acceleration -> Velocity over `delta` seconds. */
  function ApplyAcceleration(b: Body, delta: real): (r: Body)
    ensures r.transform == b.transform && r.acceleration == b.acceleration
    ensures r.force == b.force && r.resistance == b.resistance
    ensures Sub(r.velocity.linear, b.velocity.linear) == Scale(b.acceleration.linear, delta)
    ensures r.velocity.angular - b.velocity.angular == b.acceleration.angular * delta
  {
    b.(velocity := Velocity(
      Add(b.velocity.linear, Scale(b.acceleration.linear, delta)),
      b.velocity.angular + b.acceleration.angular * delta))
  }

  /** Velocity -> Transform over `delta` seconds. */
  function ApplyVelocity(b: Body, delta: real): (r: Body)
    ensures r.velocity == b.velocity && r.acceleration == b.acceleration
    ensures r.force == b.force && r.resistance == b.resistance
    ensures Sub(r.transform.translation, b.transform.translation) == Scale(b.velocity.linear, delta)
    ensures r.transform.rotation - b.transform.rotation == b.velocity.angular * delta
  {
    b.(transform := Transform(
      Add(b.transform.translation, Scale(b.velocity.linear, delta)),
      b.transform.rotation + b.velocity.angular * delta))
  }

  /** One entity's integration step over `delta` seconds, in the source's order:
      force, then acceleration, then velocity, so that the translation and the
      rotation advance by the NEW velocity (semi-implicit Euler). */
  function Step(b: Body, delta: real): (r: Body)
    requires Integrable(b)
    ensures r.acceleration == ApplyForce(b).acceleration
    ensures r.velocity.linear == Add(b.velocity.linear, Scale(r.acceleration.linear, delta))
    ensures r.velocity.angular == b.velocity.angular + r.acceleration.angular * delta
    ensures r.transform.translation == Add(b.transform.translation, Scale(r.velocity.linear, delta))
    ensures r.transform.rotation == b.transform.rotation + r.velocity.angular * delta
    ensures r.force == b.force && r.resistance == b.resistance
  {
    ApplyVelocity(ApplyAcceleration(ApplyForce(b), delta), delta)
  }

  /** Without force the acceleration is kept as it is. */
  lemma NoForceKeepsAcceleration(b: Body)
    requires Integrable(b)
    requires b.force.linear == Zero && b.force.angular == 0.0
    ensures ApplyForce(b) == b
  {
    var m, i := b.resistance.mass, b.resistance.inertia;
    assert b.force.linear.x / m == 0.0 && b.force.linear.y / m == 0.0;
    assert b.force.angular / i == 0.0;
  }

  /** Without acceleration the velocity is kept as it is. */
  lemma NoAccelerationKeepsVelocity(b: Body, delta: real)
    requires b.acceleration.linear == Zero && b.acceleration.angular == 0.0
    ensures ApplyAcceleration(b, delta) == b
  {
    assert 0.0 * delta == 0.0;
  }

  /** Without velocity the transform is kept as it is. */
  lemma NoVelocityKeepsTransform(b: Body, delta: real)
    requires b.velocity.linear == Zero && b.velocity.angular == 0.0
    ensures ApplyVelocity(b, delta) == b
  {
    assert 0.0 * delta == 0.0;
  }

  /** A body at rest with no force stays where it is, at rest. */
  lemma RestingBodyStays(b: Body, delta: real)
    requires Integrable(b)
    requires b.force.linear == Zero && b.force.angular == 0.0
    requires b.acceleration.linear == Zero && b.acceleration.angular == 0.0
    requires b.velocity.linear == Zero && b.velocity.angular == 0.0
    ensures Step(b, delta) == b
  {
    NoForceKeepsAcceleration(b);
    NoAccelerationKeepsVelocity(b, delta);
    NoVelocityKeepsTransform(b, delta);
  }

  /** Only the force stage writes the acceleration. */
  lemma StepAcceleration(b: Body, delta: real)
    requires Integrable(b)
    ensures Step(b, delta).acceleration == ApplyForce(b).acceleration
  {
  }

  /** `n` successive steps with the same `delta`. */
  function Steps(b: Body, delta: real, n: nat): (r: Body)
    requires Integrable(b)
    ensures r.force == b.force && r.resistance == b.resistance
  {
    if n == 0 then b else Step(Steps(b, delta, n - 1), delta)
  }

  /** What one force stage adds to the linear acceleration. */
  function LinearGain(b: Body): Vec2
    requires Integrable(b)
  {
    Div(b.force.linear, b.resistance.mass)
  }

  /** What one force stage adds to the angular acceleration. */
  function AngularGain(b: Body): real
    requires Integrable(b)
  {
    b.force.angular / b.resistance.inertia
  }

  /** One step adds exactly one gain to each part of the acceleration. */
  lemma StepAddsGain(b: Body, delta: real)
    requires Integrable(b)
    ensures Step(b, delta).acceleration.linear == Add(b.acceleration.linear, LinearGain(b))
    ensures Step(b, delta).acceleration.angular == b.acceleration.angular + AngularGain(b)
  {
    StepAcceleration(b, delta);
  }

  /** Acceleration is never reset: after `n` steps under a constant force its
      linear part has grown by `n` times force over mass. */
  lemma {:induction false} LinearAccelerationAccumulates(b: Body, delta: real, n: nat)
    requires Integrable(b)
    ensures Steps(b, delta, n).acceleration.linear
         == Add(b.acceleration.linear, Scale(LinearGain(b), n as real))
  {
    if n > 0 {
      var prev := Steps(b, delta, n - 1);
      LinearAccelerationAccumulates(b, delta, n - 1);
      StepAddsGain(prev, delta);
      assert LinearGain(prev) == LinearGain(b);
      AccumulateOnceVec(b.acceleration.linear, LinearGain(b), n);
    }
  }

  /** `a` with `g` added `n` times, one addition per step. */
  function Accumulated(a: real, g: real, n: nat): real
  {
    if n == 0 then a else Accumulated(a, g, n - 1) + g
  }

  /** `n` additions of `g` add `n * g`. */
  lemma {:induction false} AccumulatedIsMultiple(a: real, g: real, n: nat)
    ensures Accumulated(a, g, n) == a + (n as real) * g
  {
    if n > 0 {
      AccumulatedIsMultiple(a, g, n - 1);
      AccumulateOnce(a, g, n);
    }
  }

  /** The angular acceleration gains one torque over inertia per step. */
  lemma {:induction false} AngularAccelerationSteps(b: Body, delta: real, n: nat)
    requires Integrable(b)
    ensures Steps(b, delta, n).acceleration.angular
         == Accumulated(b.acceleration.angular, AngularGain(b), n)
  {
    if n > 0 {
      var prev := Steps(b, delta, n - 1);
      AngularAccelerationSteps(b, delta, n - 1);
      StepAddsGain(prev, delta);
      assert AngularGain(prev) == AngularGain(b);
    }
  }

  /** The same for the angular part, which grows by `n` times torque over
      inertia. */
  lemma AngularAccelerationAccumulates(b: Body, delta: real, n: nat)
    requires Integrable(b)
    ensures Steps(b, delta, n).acceleration.angular
         == b.acceleration.angular + (n as real) * AngularGain(b)
  {
    AngularAccelerationSteps(b, delta, n);
    AccumulatedIsMultiple(b.acceleration.angular, AngularGain(b), n);
  }

  /** One more addition of `g` after `n - 1` of them makes `n`. */
  lemma AccumulateOnce(a: real, g: real, n: nat)
    requires n > 0
    ensures a + ((n - 1) as real) * g + g == a + (n as real) * g
  {
  }

  lemma AccumulateOnceVec(a: Vec2, f: Vec2, n: nat)
    requires n > 0
    ensures Add(Add(a, Scale(f, (n - 1) as real)), f) == Add(a, Scale(f, n as real))
  {
    AccumulateOnce(a.x, f.x, n);
    AccumulateOnce(a.y, f.y, n);
  }

  /** Mass 2 under force (10, 0), from rest, for one second: acceleration (5, 0),
      velocity (5, 0), and the translation moves by the new velocity, (5, 0). */
  lemma OneSecondExample(t: Transform)
    ensures var b := Body(t, DefaultVelocity(), DefaultAcceleration(),
                          Force(Vec2(10.0, 0.0), 0.0), Resistance(2.0, 1.0));
      && Step(b, 1.0).acceleration.linear == Vec2(5.0, 0.0)
      && Step(b, 1.0).velocity.linear == Vec2(5.0, 0.0)
      && Step(b, 1.0).transform.translation == Add(t.translation, Vec2(5.0, 0.0))
  {
  }

  /** `update_transform`: each entity, in turn, takes one step computed from its
      own components only; entities are not read or written by one another. */
  method UpdateTransform(bodies: array<Body>, delta: real)
    requires forall k :: 0 <= k < bodies.Length ==> Integrable(bodies[k])
    modifies bodies
    ensures forall k :: 0 <= k < bodies.Length ==> bodies[k] == Step(old(bodies[k]), delta)
  {
    var k := 0;
    while k < bodies.Length
      invariant 0 <= k <= bodies.Length
      invariant forall m :: 0 <= m < k ==> bodies[m] == Step(old(bodies[m]), delta)
      invariant forall m :: k <= m < bodies.Length ==> bodies[m] == old(bodies[m])
    {
      var b := bodies[k];
      b := ApplyForce(b);               // Force -> Acceleration
      b := ApplyAcceleration(b, delta); // Acceleration -> Velocity
      b := ApplyVelocity(b, delta);     // Velocity -> Transform
      bodies[k] := b;
      k := k + 1;
    }
  }
}
