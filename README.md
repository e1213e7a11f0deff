# bustsuri physics core in Dafny

A model of the physics core of bustsuri, a small 2-D physics plugin for the Bevy
game engine, with proofs about that model. The model covers:

- **Collision tracker** (`src/collision/mod.rs`). Each entity with a collider
  shape carries a `CollisionInfo`: an `is_colliding` flag and the set of partner
  entities it currently overlaps. Once per tick, `collision_info` tests every
  unordered pair of such entities and updates both records in place. In the
  model the record is the class `CollisionTracker.CollisionInfo`. The pair step
  is `UpdatePair`, proved against the pure function `Updated`. The whole pass is
  `UpdateCollisionInfo`, proved against the pure function `Pass`, which applies
  the pair steps in query order.
- **Separating-Axis test** (`src/collision/collider.rs`, `shape/polygon.rs`,
  `shape/circle.rs`). Colliders are circles and polygons. Each supplies its
  positions, its axes toward the other shape's positions, its edge normals and
  its projection interval on an axis. `collide` reports no overlap exactly when
  some candidate axis has disjoint intervals. The polygon projection loop is the
  method `PolygonShape.RangeAlongAxis`.
- **Closed-form overlap** (`src/collision.rs`). Points, axis-aligned boxes and
  circles use per-axis gaps, strict distance tests and the nearest point of a
  box. The event pass `collision_event` emits two mirrored events for each
  overlapping pair.
- **Motion** (`src/kinematic.rs`). `update_transform` runs force → acceleration
  (accumulating), then acceleration → velocity, then velocity → translation and
  rotation. The model is the in-place loop `Kinematic.UpdateTransform` over an
  array of bodies.
- **Plugin** (`src/lib.rs`). The gravity effect selects which systems are
  scheduled. The two gravity systems add the gravity resource, when it is
  present, to every entity's linear acceleration or linear velocity.

Modelling choices:

- `f32` is modelled as `real`.
- `(a - b).length() < r` is written without a square root, as
  `0 < r && |a - b|² < r²`. `CollisionEvents.DistLessMatchesLength` proves the
  two agree for every `r`.
- `normalize_or_zero` is an input function `norm`.
- The rotation's cosine and sine are two reals carried in `GlobalTransform`.
- The ECS query is a sequence or an array of rows.
- The event writer is the returned sequence of events.

In several places the code does less, or something other, than its names
suggest. The model follows the code every time:

- `is_colliding` reads as "`sources` is non-empty", but the two do not always
  agree. The source tests the flag *before* it removes a partner
  (`src/collision/mod.rs:70-73`). So only "non-empty ⇒ flagged" is kept, and
  removing the last partner leaves the flag set until a later non-overlapping
  test of the same record (`LastPartnerLeavesFlagSet`). Two rows that separate
  both stay flagged with no partners (`SeparatedPairStaysFlagged`).
- For the same reason, after a whole pass the flag of a record that overlaps
  nothing but was flagged depends on the order of its tests
  (`FlagDependsOnOrder`). The pass itself guarantees only that a record that
  overlaps some row is flagged, and that one that overlaps none and was not
  flagged stays unflagged (`UpdateCollisionInfo`).
- Acceleration is not recomputed from the force on each step. The source adds
  force over mass onto the stored acceleration with `+=`
  (`src/kinematic.rs:68-69`), so acceleration accumulates across steps
  (`Kinematic.LinearAccelerationAccumulates`,
  `Kinematic.AngularAccelerationAccumulates`). Under acceleration gravity it
  grows by g every frame (`Physics.GravityAccelerationAccumulates`).
- Drag, sleeping and static bodies have no behaviour in the source.
  `BodyType::Dynamic` and `BodyType::Static` exist as data in `RigidBodyBundle`
  (`src/rigid_body.rs:5-16`), and the demo `drag.rs` builds a `Drag` component
  that the library does not define. Nothing reads either, and nothing puts a
  body to sleep.
- Gravity is applied to every entity with the component, not only to dynamic
  bodies.
- The Separating-Axis test uses only the first collider's axes toward the other
  shape's positions, never the second collider's.
- A pair of shapes that `collide` does not handle gives `false` in
  `src/collision.rs:108`. In `as_collider` (`src/collision/mod.rs:49`) it stops
  the program, so the model requires that such shapes never reach it.

## Model

| member | source | states |
|---|---|---|
| PolygonShape.RotateTranslate | src/collision/shape/polygon.rs:32-40 | same number and order of vertices; vertex i becomes (x·c − y·s, x·s + y·c) + translation |
| PolygonShape.FromVertices | src/collision/shape/polygon.rs:9-13 | the polygon's vertices are the given ones placed by the transform, one for one |
| PolygonShape.Square | src/collision/shape/polygon.rs:15-30 | four vertices: the corners (−w,−h), (w,−h), (w,h), (−w,h) in that order, placed by the transform |
| PolygonShape.IdentityRotationTranslates | src/collision/shape/polygon.rs:37-39 | with cosine 1 and sine 0 every vertex is only translated |
| PolygonShape.RotationKeepsDistance | src/collision/shape/polygon.rs:37-39 | for a proper rotation, a placed vertex is as far from the translation as the local vertex is from the origin |
| PolygonShape.Positions | src/collision/shape/polygon.rs:44-46 | the positions are the stored vertices, unchanged |
| PolygonShape.AxesFromPosition | src/collision/shape/polygon.rs:48-57 | no axes when the other shape has more than one position; otherwise one axis per vertex, the normalised direction from that vertex to the single other position |
| PolygonShape.EdgeNormal | src/collision/shape/polygon.rs:64 | the un-normalised normal is as long as its edge |
| PolygonShape.EdgeNormalPerpendicular | src/collision/shape/polygon.rs:62-64 | each un-normalised normal (−dy, dx) is perpendicular to its edge |
| PolygonShape.NextIndex | src/collision/shape/polygon.rs:63 | the next vertex index is in range and equals (i+1) mod n |
| PolygonShape.Normals | src/collision/shape/polygon.rs:59-66 | exactly one normal per vertex; normal i is the normalised normal of the edge from vertex i to vertex (i+1) mod n |
| PolygonShape.LastNormalWraps | src/collision/shape/polygon.rs:59-66 | the last edge runs from the last vertex back to the first |
| PolygonShape.MinProjection | src/collision/shape/polygon.rs:68-76 | a lower bound of every vertex's projection that some vertex attains |
| PolygonShape.MaxProjection | src/collision/shape/polygon.rs:68-76 | an upper bound of every vertex's projection that some vertex attains |
| PolygonShape.Range | src/collision/shape/polygon.rs:68-76 | an ordered interval containing every vertex's projection |
| PolygonShape.RangeAlongAxis | src/collision/shape/polygon.rs:68-76 | the loop returns the least and greatest projection: both bounds hold for every vertex and both are attained |
| CircleShape.Positions | src/collision/shape/circle.rs:10-12 | the single position is the centre |
| CircleShape.AxesFromPosition | src/collision/shape/circle.rs:14-19 | one axis per other position, in order, each the normalised direction from the centre to it |
| CircleShape.Range | src/collision/shape/circle.rs:21-25 | the interval is (c·a − r\|a\|², c·a + r\|a\|²) |
| CircleShape.UnitAxisRange | src/collision/shape/circle.rs:21-25 | on a unit axis the interval is the centre's projection ± r |
| CircleShape.RangeOrdered | src/collision/shape/circle.rs:21-25 | a circle of non-negative radius projects to an ordered interval |
| CircleShape.ZeroAxisRange | src/collision/shape/circle.rs:21-25 | the zero axis gives (0, 0) |
| Collider.Positions | src/collision/collider.rs:5 | a circle offers its centre, a polygon its vertices |
| Collider.AxesFromPosition | src/collision/collider.rs:6 | a circle gives one axis per other position, the normalised direction from its centre; a polygon gives none when the other shape has several positions, otherwise one per vertex, exactly `PolygonShape.AxesFromPosition` (axis i is the normalised direction from vertex i to the single other position) |
| Collider.Normals | src/collision/collider.rs:4 | a circle keeps the trait's default and has no normals; a polygon has its edge normals, one per vertex |
| Collider.Range | src/collision/collider.rs:7 | a circle's interval is `CircleShape.Range` (centre·axis ∓ r times the squared length of the axis), a polygon's is `PolygonShape.Range` (the attained minimum and maximum vertex projections); either contains the projection of every position the collider offers (for a circle of non-negative radius) |
| Collider.CandidateAxes | src/collision/collider.rs:9-13 | an axis is tried exactly when it is one of the first shape's axes toward the other's positions, or a normal of either shape; two circles try a single axis |
| Collider.OverlapIffCommonPoint | src/collision/collider.rs:19 | the inclusive per-axis test holds exactly when two ordered intervals share a point |
| Collider.NoSeparatingAxis | src/collision/collider.rs:15-22 | the early-exit loop returns true exactly when no axis in the list separates the two shapes |
| Collider.Collide | src/collision/collider.rs:9-23 | false exactly when some axis among the first shape's position axes, its normals and the other's normals separates the shapes |
| Collider.NoAxesNoSeparation | src/collision/collider.rs:15-23 | with an empty axis list the loop returns true |
| Collider.AxisOrderIrrelevant | src/collision/collider.rs:13-22 | the result depends only on which axes are tried, not on their order or repetition |
| Collider.CircleCircleSingleAxis | src/collision/collider.rs:9-13 | two circles are tested on the single axis from the first centre toward the second |
| Collider.SharedVertexCollides | src/collision/collider.rs:15-23 | polygons that share a vertex collide, whatever the normalisation |
| Collider.TouchingCornersCollide | src/collision/collider.rs:15-23 | squares sharing the corner (10, −10), as vertex lists, collide |
| Collider.TouchingSquaresCollide | src/collision/collider.rs:19 | 20×20 squares whose edges touch collide, because touching intervals count as overlapping |
| Collider.PolygonsApartAlong | src/collision/collider.rs:19 | an axis on which one polygon projects strictly below the other separates them |
| Collider.UnrotatedSquare | src/collision/shape/polygon.rs:15-40 | with cosine 1 and sine 0 a square is the polygon whose corners are its centre ± the half-extents, in the source's corner order |
| Collider.GappedCornersSeparate | src/collision/collider.rs:15-23 | squares one unit apart, as vertex lists, are separated by the first square's right-hand edge normal |
| Collider.GappedSquaresSeparate | src/collision/collider.rs:15-23 | squares one unit apart do not collide |
| CollisionTracker.AsCollider | src/collision/mod.rs:44-51 | Circle(r) becomes a circle of radius r at the translation; Square becomes `square`; Polygon becomes `from_vertices`; the result is well formed |
| CollisionTracker.Updated | src/collision/mod.rs:64-74 | on overlap: flagged, partner added, nothing removed; otherwise partner absent, nothing added, flag cleared only if the set was empty before the removal; other members unchanged; "non-empty ⇒ flagged" preserved |
| CollisionTracker.LastPartnerLeavesFlagSet | src/collision/mod.rs:70-73 | removing the last partner leaves the flag set; the next non-overlapping test clears it |
| CollisionTracker.NeverListsItself | src/collision/mod.rs:57-61 | a record tested only against other entities never lists its own entity |
| CollisionTracker.CollisionInfo.constructor | src/collision/mod.rs:27-31 | the default record is not colliding and has no partners |
| CollisionTracker.NewColliderBundle | src/collision/mod.rs:19-24 | the given shape with a fresh default record |
| CollisionTracker.DefaultColliderBundle | src/collision/mod.rs:12-16 | a Point shape with a fresh default record |
| CollisionTracker.UpdatePair | src/collision/mod.rs:64-74 | each record of the pair takes the value `Updated` gives for its partner and the test result |
| CollisionTracker.PairStep | src/collision/mod.rs:64-74 | the records of the pair take `Updated` for each other with the same result; every other record is unchanged |
| CollisionTracker.SeparatedPairStaysFlagged | src/collision/mod.rs:70-73 | two flagged partners that no longer overlap both lose their partner and both stay flagged |
| CollisionTracker.FlagDependsOnOrder | src/collision/mod.rs:57-74 | a flagged record that overlaps nothing ends unflagged when tested first against its old partner, flagged when tested first against another row |
| CollisionTracker.PassOutcome | src/collision/mod.rs:57-75 | after the whole pass a record lists exactly the rows whose pair test succeeded, keeps outside entities, never lists itself, stays Consistent, is flagged if some test succeeded and stays unflagged if none did and it was not flagged |
| CollisionTracker.PassResult | src/collision/mod.rs:57-75 | the same outcome pair by pair with the Separating-Axis tests: both records of a pair list each other exactly when the pair's test succeeds, and both are then flagged |
| CollisionTracker.RecordPair | src/collision/mod.rs:64-74 | the records become what `PairStep` gives for the test result |
| CollisionTracker.VisitPair | src/collision/mod.rs:62-74 | testing the pair (i, j) and recording the result extends row i's pass by exactly that pair |
| CollisionTracker.VisitRow | src/collision/mod.rs:57-75 | the pairs of row i with every later row are visited in query order, as `Pass` describes |
| CollisionTracker.VisitAllPairs | src/collision/mod.rs:57-75 | the outer loop over `iter_combinations_mut`: starting from the records `before`, every pair (i, j) with i < j is tested once, in query order, and the records end exactly as `Pass` over all rows |
| CollisionTracker.UpdateCollisionInfo | src/collision/mod.rs:54-76 | the records end as `Pass` computes them; each record lists exactly the other rows it overlaps; entities outside the query stay as they were; no record lists itself; "non-empty ⇒ flagged" is kept; a record that overlaps some row is flagged; one that overlaps none and was not flagged stays unflagged |
| CollisionEvents.DistLessMatchesLength | src/collision.rs:79-80 | the squared-distance form agrees with comparing the true length, for every radius |
| CollisionEvents.DistLess | src/collision.rs:79-80 | a distance can be below `r` only when `r` is positive |
| CollisionEvents.Clamp | src/collision.rs:96 | the clamped point lies inside a non-degenerate box, and a point already inside the box is its own nearest point |
| CollisionEvents.ClampIsNearest | src/collision.rs:96 | no point of the box is closer to the centre than the clamped point |
| CollisionEvents.Collide | src/collision.rs:37-110 | two points never collide; a circle of non-positive radius collides with no point or box, in either order |
| CollisionEvents.BoxBoxIffCentresClose | src/collision.rs:43-52 | two boxes collide exactly when on both axes the centres are at most the sum of half-extents apart, so touching boxes collide |
| CollisionEvents.PointInBox | src/collision.rs:58-76 | a point is in a box exactly when it is within [pos − h, pos + h] on both axes, inclusive, in either argument order |
| CollisionEvents.CollideSymmetric | src/collision.rs:41-109 | the result does not depend on the argument order, for every pair of shapes |
| CollisionEvents.TangentCirclesDoNotCollide | src/collision.rs:78-81 | circles exactly ra + rb apart do not collide |
| CollisionEvents.BoundaryPointOutsideCircle | src/collision.rs:83-91 | a point on the circle does not collide with it, in either order |
| CollisionEvents.PointsNeverCollide | src/collision.rs:108 | a point never collides with a point |
| CollisionEvents.BoxCircleCollidesAtNearestPoint | src/collision.rs:93-107 | both argument orders of box against circle test the distance from the same nearest point |
| CollisionEvents.BoxCircleNearestPoint | src/collision.rs:93-99 | the nearest point lies in the box, and the circle collides exactly when its centre is strictly within its radius of that point |
| CollisionEvents.CentreInBoxCollides | src/collision.rs:93-99 | a circle of positive radius whose centre is in the box collides with it |
| CollisionEvents.BoxExamples | src/collision.rs:43-52 | boxes of half-size 10 overlap 15 apart and not 25 apart |
| CollisionEvents.CircleExamples | src/collision.rs:78-81 | radius-10 circles collide 19 apart but not 20 apart |
| CollisionEvents.PointInCircleExamples | src/collision.rs:83-86 | a radius-5 circle holds a point 4 away but not one 5 away |
| CollisionEvents.PairEvents | src/collision.rs:23-33 | for the pair test, an overlapping pair gives exactly (dst, src) then (src, dst); any other pair gives nothing |
| CollisionEvents.EventsComeMirrored | src/collision.rs:29-32 | events come in pairs, each followed by its mirror |
| CollisionEvents.EventsBeforeSound | src/collision.rs:21-34 | every event emitted for the first i rows is one direction of a hitting pair of rows k < m with k < i |
| CollisionEvents.EventsBeforeComplete | src/collision.rs:21-34 | every direction of a hitting pair of rows k < m with k < i is emitted for the first i rows |
| CollisionEvents.EventsExactlyOverlaps | src/collision.rs:21-34 | an event is emitted exactly when it is one direction of an overlapping pair of distinct rows |
| CollisionEvents.SendCollisionEvents | src/collision.rs:17-35 | the nested loop emits the events of every pair in query order, in mirrored pairs |
| Kinematic.DefaultVelocity | src/kinematic.rs:5-11 | zero linear and angular velocity |
| Kinematic.DefaultAcceleration | src/kinematic.rs:13-19 | zero linear and angular acceleration |
| Kinematic.DefaultForce | src/kinematic.rs:21-27 | zero linear and angular force |
| Kinematic.DefaultResistance | src/kinematic.rs:35-39 | mass 1 and inertia 1 |
| Kinematic.DefaultKinematic | src/kinematic.rs:41-47 | the bundle's default: at rest, no force, unit resistance |
| Kinematic.ApplyForce | src/kinematic.rs:68-69 | the acceleration grows by force over resistance: the increase times the mass is the force, times the inertia the torque; nothing else changes |
| Kinematic.ApplyAcceleration | src/kinematic.rs:71-72 | the velocity grows by acceleration × delta; nothing else changes |
| Kinematic.ApplyVelocity | src/kinematic.rs:74-75 | the translation grows by velocity × delta and the rotation by angular velocity × delta; nothing else changes |
| Kinematic.Step | src/kinematic.rs:66-75 | the acceleration is the force stage's; the velocity advances by the NEW acceleration and the transform by the NEW velocity (semi-implicit Euler); force and resistance are kept |
| Kinematic.NoForceKeepsAcceleration | src/kinematic.rs:68-69 | without force the acceleration is kept |
| Kinematic.NoAccelerationKeepsVelocity | src/kinematic.rs:71-72 | without acceleration the velocity is kept |
| Kinematic.NoVelocityKeepsTransform | src/kinematic.rs:74-75 | without velocity the translation and rotation are kept |
| Kinematic.RestingBodyStays | src/kinematic.rs:67-75 | a body at rest with no force is unchanged by a step |
| Kinematic.StepAcceleration | src/kinematic.rs:67-75 | only the force stage writes the acceleration |
| Kinematic.Steps | src/kinematic.rs:55-56 | steps never write force or resistance |
| Kinematic.StepAddsGain | src/kinematic.rs:68-69 | one step adds exactly force over mass to the linear acceleration and torque over inertia to the angular one |
| Kinematic.LinearAccelerationAccumulates | src/kinematic.rs:68 | after n steps the linear acceleration has grown by n times force over mass; it is never reset |
| Kinematic.AngularAccelerationAccumulates | src/kinematic.rs:69 | after n steps the angular acceleration has grown by n times torque over inertia; it is never reset |
| Kinematic.OneSecondExample | src/kinematic.rs:67-74 | mass 2, force (10, 0), one second from rest: acceleration (5, 0), velocity (5, 0), translation moved by the new velocity (5, 0) |
| Kinematic.UpdateTransform | src/kinematic.rs:49-77 | each body becomes the step of its own old components; no body reads or writes another |
| Physics.DefaultGravityEffect | src/lib.rs:16-22 | the default effect is None |
| Physics.GravitySystem | src/lib.rs:32-36 | None selects no gravity system; Velocity and Acceleration select their own system |
| Physics.Build | src/lib.rs:29-45 | collision_info alone before the update; afterwards update_transform, preceded by the selected gravity system and only by it |
| Physics.DefaultRunsNoGravity | src/lib.rs:31-36 | with the default effect only update_transform runs after the update |
| Physics.PushAcceleration | src/lib.rs:56 | the linear acceleration grows by exactly g; nothing else changes |
| Physics.PushVelocity | src/lib.rs:67 | the linear velocity grows by exactly g; nothing else changes |
| Physics.GravityAccelerationSystem | src/lib.rs:50-59 | without the resource nothing changes; with it every linear acceleration grows by exactly g and nothing else changes |
| Physics.GravityVelocitySystem | src/lib.rs:61-70 | without the resource nothing changes; with it every linear velocity grows by exactly g and nothing else changes |
| Physics.Gravitate | src/lib.rs:50-70 | with the resource present, `Acceleration` adds g to the linear acceleration (`PushAcceleration`) and `Velocity` adds g to the linear velocity (`PushVelocity`); gravity never touches angular components, force, resistance or transform, and does nothing when disabled or absent |
| Physics.RunPostUpdate | src/lib.rs:31-43 | one post-update stage: each body takes a step from its gravity-pushed old state |
| Physics.GravityAccelerationAccumulates | src/lib.rs:54-57 | under acceleration gravity the linear acceleration grows by n·(g + force/mass) over n frames |

## Left out

- Bevy plumbing is not modelled: `App`/`Plugin` registration, stages, `Query` and `iter_combinations`, `Res<Time>` (the frame time is the parameter `delta`) and `EventWriter` (events are a returned sequence).
- `DebugPlugin` and the shape rendering (`src/lib.rs:72-136`) are display code.
- The examples under `examples/` are demos: input, random spawning and colouring.
- `src/collision/shape/point.rs` and `shape/aabb.rs` are commented out of the build and do not compile; their clamp logic is covered by `src/collision.rs`.
- `src/rigid_body.rs` holds data only and has no behaviour.
- The commented-out `collision_movement` is dead code.
- Trigonometry and quaternions are not modelled: the rotation's cosine and sine are inputs, and `Transform::rotate` about z adds the angle to a rotation angle.
- `f32` rounding, NaN and infinities are not modelled. So the `INFINITY` sentinels of the polygon projection are left out, and a polygon collider must have at least one vertex (`Collider.WellFormed`, `CollisionTracker.Supported`).
- Square roots are not modelled: lengths are compared through squared distances, and normalisation is the input `norm`.
- The z component of translations is not modelled. Only x and y reach any computation except `update_transform`, which adds 0 to z.
- CollisionTracker.AsCollider: requires a supported shape, because the source stops the program (`unimplemented!()`) on `Point` and `AABB`.
- PolygonShape.AxesFromPosition: requires an opposing position when the polygon has vertices, because the source would index an empty list.
- Kinematic.UpdateTransform: requires non-zero mass and inertia, because real division by zero is undefined; `f32` would produce infinities or NaN instead.
- Kinematic.UpdateTransform: works on entities that have all five components. Entities that have only some of them are outside its query and are not modelled.
- Physics.GravityAccelerationSystem, Physics.GravityVelocitySystem: the array holds whole bodies, so entities that have an acceleration or velocity but no other kinematic component are not modelled.
- CollisionTracker.UpdateCollisionInfo: the query order is the row order. HashSet iteration order does not matter, because partner sets are `set`s.
