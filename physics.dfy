/** The physics plugin: which systems run in which stage, and the two gravity
    systems that push every entity's linear acceleration or velocity by the
    gravity resource. */
module Physics {
  import opened Geometry
  import Wrappers
  import Kinematic

  /** How the gravity resource acts on entities; `None` is the default. */
  datatype GravityEffect = None | Velocity | Acceleration

  function DefaultGravityEffect(): (e: GravityEffect)
    ensures e.None?
  {
    None
  }

  /** The plugin's systems. */
  datatype System = CollisionInfo | UpdateTransform | GravityVelocity | GravityAcceleration

  /** The systems registered per stage, each list in execution order. */
  datatype Schedule = Schedule(preUpdate: seq<System>, postUpdate: seq<System>)

  predicate IsGravity(s: System)
  {
    s.GravityVelocity? || s.GravityAcceleration?
  }

  /** The gravity system an effect selects, if any. */
  function GravitySystem(effect: GravityEffect): (r: Wrappers.Option<System>)
    ensures r.Some? <==> !effect.None?
    ensures r.Some? ==> IsGravity(r.value)
    ensures effect.Velocity? ==> r == Wrappers.Some(GravityVelocity)
    ensures effect.Acceleration? ==> r == Wrappers.Some(GravityAcceleration)
  {
    match effect
    case None => Wrappers.None
    case Velocity => Wrappers.Some(GravityVelocity)
    case Acceleration => Wrappers.Some(GravityAcceleration)
  }

  /** `PhysicsPlugin::build`: the collision tracker runs before the frame's
      update; after it, `update_transform`, preceded by the selected gravity
      system when there is one. */
  function Build(effect: GravityEffect): (s: Schedule)
    ensures s.preUpdate == [CollisionInfo]
    ensures UpdateTransform in s.postUpdate
    ensures forall i :: 0 <= i < |s.postUpdate| ==> s.postUpdate[i] != CollisionInfo
    ensures forall i, j ::
              0 <= i < |s.postUpdate| && 0 <= j < |s.postUpdate| &&
              IsGravity(s.postUpdate[i]) && s.postUpdate[j] == UpdateTransform
              ==> i < j
    ensures forall x :: IsGravity(x) ==> (x in s.postUpdate <==> GravitySystem(effect) == Wrappers.Some(x))
  {
    var gravity := GravitySystem(effect);
    Schedule([CollisionInfo],
             if gravity.Some? then [gravity.value, UpdateTransform] else [UpdateTransform])
  }

  /** With the default effect, no gravity system is scheduled. */
  lemma DefaultRunsNoGravity()
    ensures Build(DefaultGravityEffect()).postUpdate == [UpdateTransform]
  {
  }

  /** `g` added to the linear acceleration; nothing else changes. */
  function PushAcceleration(b: Kinematic.Body, g: Vec2): (r: Kinematic.Body)
    ensures Sub(r.acceleration.linear, b.acceleration.linear) == g
    ensures r.acceleration.angular == b.acceleration.angular
    ensures r.transform == b.transform && r.velocity == b.velocity
    ensures r.force == b.force && r.resistance == b.resistance
  {
    b.(acceleration := b.acceleration.(linear := Add(b.acceleration.linear, g)))
  }

  /** `g` added to the linear velocity; nothing else changes. */
  function PushVelocity(b: Kinematic.Body, g: Vec2): (r: Kinematic.Body)
    ensures Sub(r.velocity.linear, b.velocity.linear) == g
    ensures r.velocity.angular == b.velocity.angular
    ensures r.transform == b.transform && r.acceleration == b.acceleration
    ensures r.force == b.force && r.resistance == b.resistance
  {
    b.(velocity := b.velocity.(linear := Add(b.velocity.linear, g)))
  }

  /** `gravity_acceleration`: without the resource nothing changes; with it every
      entity's linear acceleration grows by exactly g, its angular acceleration
      and every other component stay. */
  method GravityAccelerationSystem(gravity: Wrappers.Option<Vec2>, bodies: array<Kinematic.Body>)
    modifies bodies
    ensures gravity.None? ==> bodies[..] == old(bodies[..])
    ensures gravity.Some? ==> forall k :: 0 <= k < bodies.Length ==>
              bodies[k] == PushAcceleration(old(bodies[k]), gravity.value)
  {
    if gravity.Some? {
      var g := gravity.value;
      for k := 0 to bodies.Length
        invariant forall m :: 0 <= m < k ==> bodies[m] == PushAcceleration(old(bodies[m]), g)
        invariant forall m :: k <= m < bodies.Length ==> bodies[m] == old(bodies[m])
      {
        var b := bodies[k];
        bodies[k] := b.(acceleration := b.acceleration.(linear := Add(b.acceleration.linear, g)));
      }
    }
  }

  /** `gravity_velocity`: without the resource nothing changes; with it every
      entity's linear velocity grows by exactly g, its angular velocity and every
      other component stay. */
  method GravityVelocitySystem(gravity: Wrappers.Option<Vec2>, bodies: array<Kinematic.Body>)
    modifies bodies
    ensures gravity.None? ==> bodies[..] == old(bodies[..])
    ensures gravity.Some? ==> forall k :: 0 <= k < bodies.Length ==>
              bodies[k] == PushVelocity(old(bodies[k]), gravity.value)
  {
    if gravity.Some? {
      var g := gravity.value;
      for k := 0 to bodies.Length
        invariant forall m :: 0 <= m < k ==> bodies[m] == PushVelocity(old(bodies[m]), g)
        invariant forall m :: k <= m < bodies.Length ==> bodies[m] == old(bodies[m])
      {
        var b := bodies[k];
        bodies[k] := b.(velocity := b.velocity.(linear := Add(b.velocity.linear, g)));
      }
    }
  }

  /** What the gravity system of a post-update stage does to one entity. */
  function Gravitate(effect: GravityEffect, gravity: Wrappers.Option<Vec2>, b: Kinematic.Body): (r: Kinematic.Body)
    ensures r.force == b.force && r.resistance == b.resistance && r.transform == b.transform
    ensures Kinematic.Integrable(r) == Kinematic.Integrable(b)
    ensures r.acceleration.angular == b.acceleration.angular
    ensures r.velocity.angular == b.velocity.angular
    ensures effect.None? || gravity.None? ==> r == b
    ensures effect.Acceleration? && gravity.Some? ==> r == PushAcceleration(b, gravity.value)
    ensures effect.Velocity? && gravity.Some? ==> r == PushVelocity(b, gravity.value)
  {
    match (effect, gravity)
    case (Velocity, Some(g)) => PushVelocity(b, g)
    case (Acceleration, Some(g)) => PushAcceleration(b, g)
    case _ => b
  }

  /** The post-update stage of one frame, systems in `Build(effect)` order: the
      selected gravity system, then `update_transform`. */
  method RunPostUpdate(effect: GravityEffect, gravity: Wrappers.Option<Vec2>,
                       bodies: array<Kinematic.Body>, delta: real)
    requires forall k :: 0 <= k < bodies.Length ==> Kinematic.Integrable(bodies[k])
    modifies bodies
    ensures forall k :: 0 <= k < bodies.Length ==>
              bodies[k] == Kinematic.Step(Gravitate(effect, gravity, old(bodies[k])), delta)
  {
    if effect.Velocity? {
      GravityVelocitySystem(gravity, bodies);
    } else if effect.Acceleration? {
      GravityAccelerationSystem(gravity, bodies);
    }
    Kinematic.UpdateTransform(bodies, delta);
  }

  /** Under `Acceleration` the pushes are never undone: every frame adds g on top
      of the stored acceleration (and force over mass on top of that). */
  function Frames(gravity: Vec2, b: Kinematic.Body, delta: real, n: nat): (r: Kinematic.Body)
    requires Kinematic.Integrable(b)
    ensures r.force == b.force && r.resistance == b.resistance
  {
    if n == 0 then b
    else Kinematic.Step(PushAcceleration(Frames(gravity, b, delta, n - 1), gravity), delta)
  }

  /** After `n` frames of acceleration gravity, the linear acceleration has grown
      by `n` times (g + force / mass): it is not a constant g. */
  lemma {:induction false} GravityAccelerationAccumulates(g: Vec2, b: Kinematic.Body, delta: real, n: nat)
    requires Kinematic.Integrable(b)
    ensures Frames(g, b, delta, n).acceleration.linear
         == Add(b.acceleration.linear, Scale(Add(g, Div(b.force.linear, b.resistance.mass)), n as real))
  {
    if n > 0 {
      var prev := Frames(g, b, delta, n - 1);
      GravityAccelerationAccumulates(g, b, delta, n - 1);
      var f := Div(b.force.linear, b.resistance.mass);
      var k := (n - 1) as real;
      var pushed := PushAcceleration(prev, g);
      Kinematic.StepAcceleration(pushed, delta);
      assert Frames(g, b, delta, n).acceleration.linear == Add(Add(prev.acceleration.linear, g), f);
      AddTwoThenOneMoreMultiple(b.acceleration.linear, g, f, k);
      assert (n as real) == k + 1.0;
    }
  }

  lemma AddTwoThenOneMoreMultiple(a: Vec2, g: Vec2, f: Vec2, k: real)
    ensures Add(Add(Add(a, Scale(Add(g, f), k)), g), f) == Add(a, Scale(Add(g, f), k + 1.0))
  {
    assert (g.x + f.x) * k + g.x + f.x == (g.x + f.x) * (k + 1.0);
    assert (g.y + f.y) * k + g.y + f.y == (g.y + f.y) * (k + 1.0);
  }
}
