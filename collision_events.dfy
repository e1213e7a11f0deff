/** Closed-form overlap of points, axis-aligned boxes and circles placed at
    positions, and the pass that emits a pair of mirrored collision events for
    every overlapping pair of entities. */
module CollisionEvents {
  import opened Geometry
  import CollisionTracker

  /** `AABB(w, h)` has half-width `w` and half-height `h`. */
  datatype Shape = Point | AABB(w: real, h: real) | Circle(radius: real)

  /** `(p - q).length() < r`, stated without a square root: a length is never
      negative, so it is below `r` exactly when `r` is positive and the squared
      distance is below `r * r`. */
  predicate DistLess(p: Vec2, q: Vec2, r: real)
    ensures DistLess(p, q, r) ==> 0.0 < r
  {
    0.0 < r && Dist2(p, q) < r * r
  }

  /** DistLess agrees with comparing the true length `len` (the non-negative
      square root of the squared distance) against `r`, for every `r`. */
  lemma {:induction false} DistLessMatchesLength(p: Vec2, q: Vec2, len: real, r: real)
    requires len >= 0.0 && len * len == Dist2(p, q)
    ensures DistLess(p, q, r) <==> len < r
  {
    if len < r {
      MulMonotone(len, r, len);
      MulStrictMonotone(len, r, r);
      calc {
        len * len;
      <= r * len;
      == len * r;
      <  r * r;
      }
    }
    if 0.0 < r && len >= r {
      MulMonotone(r, len, r);
      MulMonotone(r, len, len);
      calc {
        r * r;
      <= len * r;
      == r * len;
      <= len * len;
      }
    }
  }

  lemma MulMonotone(a: real, b: real, c: real)
    requires a <= b && c >= 0.0
    ensures a * c <= b * c
  {
  }

  lemma MulStrictMonotone(a: real, b: real, c: real)
    requires a < b && c > 0.0
    ensures a * c < b * c
  {
  }

  /** The point of the box `[lo, hi]` nearest to `c`: `lo.max(hi.min(c))`. It
      lies inside a non-degenerate box, and a point already inside the box is its
      own nearest point. */
  function Clamp(lo: Vec2, hi: Vec2, c: Vec2): (r: Vec2)
    ensures lo.x <= hi.x && lo.y <= hi.y ==> lo.x <= r.x <= hi.x && lo.y <= r.y <= hi.y
    ensures lo.x <= c.x <= hi.x && lo.y <= c.y <= hi.y ==> r == c
  {
    MaxVec(lo, MinVec(hi, c))
  }

  /** `q` lies in the box `[lo, hi]`. */
  predicate InBox(lo: Vec2, hi: Vec2, q: Vec2)
  {
    lo.x <= q.x <= hi.x && lo.y <= q.y <= hi.y
  }

  /** On one axis, the clamped coordinate is at least as close to `c` as any
      coordinate in `[lo, hi]`. */
  lemma ClampNearestOnAxis(lo: real, hi: real, c: real, q: real)
    requires lo <= q <= hi
    ensures var k := Max(lo, Min(hi, c)); (k - c) * (k - c) <= (q - c) * (q - c)
  {
    var k := Max(lo, Min(hi, c));
    if c < lo {
      assert k == lo;
      SquareMonotone(lo - c, q - c);
    } else if c > hi {
      assert k == hi;
      SquareMonotone(c - hi, c - q);
      assert (hi - c) * (hi - c) == (c - hi) * (c - hi);
      assert (q - c) * (q - c) == (c - q) * (c - q);
    } else {
      assert k == c;
      SquareNonNegative(q - c);
    }
  }

  lemma SquareMonotone(a: real, b: real)
    requires 0.0 <= a <= b
    ensures a * a <= b * b
  {
    MulMonotone(a, b, a);
    MulMonotone(a, b, b);
    assert a * b == b * a;
  }

  /** The clamped point is the point of the box nearest to `c`. */
  lemma ClampIsNearest(lo: Vec2, hi: Vec2, c: Vec2, q: Vec2)
    requires InBox(lo, hi, q)
    ensures Dist2(Clamp(lo, hi, c), c) <= Dist2(q, c)
  {
    ClampNearestOnAxis(lo.x, hi.x, c.x, q.x);
    ClampNearestOnAxis(lo.y, hi.y, c.y, q.y);
  }

  /** The overlap test of two shapes at two positions, arm by arm as the source's
      `match`: boxes by per-axis gaps, circles by strict distance, box against
      circle through the nearest point of the box; any other pair (in particular
      point against point) does not collide. */
  function Collide(a: Shape, pa: Vec2, b: Shape, pb: Vec2): (r: bool)
    ensures a.Point? && b.Point? ==> !r
    ensures a.Circle? && !b.Circle? && a.radius <= 0.0 ==> !r
    ensures b.Circle? && !a.Circle? && b.radius <= 0.0 ==> !r
  {
    match (a, b)
    case (AABB(aw, ah), AABB(bw, bh)) =>
      var aMin, aMax := Sub(pa, Vec2(aw, ah)), Add(pa, Vec2(aw, ah));
      var bMin, bMax := Sub(pb, Vec2(bw, bh)), Add(pb, Vec2(bw, bh));
      var aDif, bDif := Sub(aMin, bMax), Sub(bMin, aMax);
      if aDif.x > 0.0 || aDif.y > 0.0 then false
      else if bDif.x > 0.0 || bDif.y > 0.0 then false
      else true
    case (AABB(aw, ah), Point) =>
      var aMin, aMax := Sub(pa, Vec2(aw, ah)), Add(pa, Vec2(aw, ah));
      var aDif, bDif := Sub(aMin, pb), Sub(pb, aMax);
      if aDif.x > 0.0 || aDif.y > 0.0 then false
      else if bDif.x > 0.0 || bDif.y > 0.0 then false
      else true
    case (Point, AABB(bw, bh)) =>
      var bMin, bMax := Sub(pb, Vec2(bw, bh)), Add(pb, Vec2(bw, bh));
      var aDif, bDif := Sub(pa, bMax), Sub(bMin, pa);
      if aDif.x > 0.0 || aDif.y > 0.0 then false
      else if bDif.x > 0.0 || bDif.y > 0.0 then false
      else true
    case (Circle(ar), Circle(br)) => DistLess(pa, pb, ar + br)
    case (Circle(ar), Point) => DistLess(pa, pb, ar)
    case (Point, Circle(br)) => DistLess(pb, pa, br)
    case (AABB(aw, ah), Circle(br)) =>
      var closest := Clamp(Sub(pa, Vec2(aw, ah)), Add(pa, Vec2(aw, ah)), pb);
      DistLess(closest, pb, br)
    case (Circle(ar), AABB(bw, bh)) =>
      var closest := Clamp(Sub(pb, Vec2(bw, bh)), Add(pb, Vec2(bw, bh)), pa);
      DistLess(closest, pa, ar)
    case _ => false
  }

  /** Absolute value, for the centre-distance form of the box test. */
  function Abs(x: real): real { if x < 0.0 then -x else x }

  /** Two boxes collide exactly when, on each axis, the centres are no further
      apart than the sum of the half-extents: boxes that only touch collide. */
  lemma BoxBoxIffCentresClose(aw: real, ah: real, pa: Vec2, bw: real, bh: real, pb: Vec2)
    ensures Collide(AABB(aw, ah), pa, AABB(bw, bh), pb)
        <==> Abs(pa.x - pb.x) <= aw + bw && Abs(pa.y - pb.y) <= ah + bh
  {
  }

  /** A point is in a box exactly when it lies within `[pos - h, pos + h]` on both
      axes, boundary included, and both argument orders agree. */
  lemma PointInBox(w: real, h: real, pa: Vec2, pb: Vec2)
    ensures Collide(AABB(w, h), pa, Point, pb)
        <==> pa.x - w <= pb.x <= pa.x + w && pa.y - h <= pb.y <= pa.y + h
    ensures Collide(Point, pb, AABB(w, h), pa) == Collide(AABB(w, h), pa, Point, pb)
  {
  }

  /** Squared distance does not depend on the order of the two points. */
  lemma Dist2Symmetric(p: Vec2, q: Vec2)
    ensures Dist2(p, q) == Dist2(q, p)
  {
  }

  /** The overlap test is symmetric for every pair of shapes. */
  lemma {:induction false} CollideSymmetric(a: Shape, pa: Vec2, b: Shape, pb: Vec2)
    ensures Collide(a, pa, b, pb) == Collide(b, pb, a, pa)
  {
    Dist2Symmetric(pa, pb);
  }

  /** Circles whose centres are exactly the sum of their radii apart do not collide. */
  lemma TangentCirclesDoNotCollide(ra: real, pa: Vec2, rb: real, pb: Vec2)
    requires ra + rb >= 0.0 && Dist2(pa, pb) == (ra + rb) * (ra + rb)
    ensures !Collide(Circle(ra), pa, Circle(rb), pb)
  {
  }

  /** A point on a circle's boundary is not inside it, in either argument order. */
  lemma BoundaryPointOutsideCircle(r: real, pa: Vec2, pb: Vec2)
    requires Dist2(pa, pb) == r * r
    ensures !Collide(Circle(r), pa, Point, pb) && !Collide(Point, pb, Circle(r), pa)
  {
    Dist2Symmetric(pa, pb);
  }

  /** Points never collide with points. */
  lemma PointsNeverCollide(pa: Vec2, pb: Vec2)
    ensures !Collide(Point, pa, Point, pb)
  {
  }

  /** The box-circle arm of Collide, in both argument orders. */
  lemma BoxCircleCollidesAtNearestPoint(w: real, h: real, pa: Vec2, r: real, pb: Vec2)
    ensures var lo, hi := Sub(pa, Vec2(w, h)), Add(pa, Vec2(w, h));
      && Collide(AABB(w, h), pa, Circle(r), pb) == DistLess(Clamp(lo, hi, pb), pb, r)
      && Collide(Circle(r), pb, AABB(w, h), pa) == DistLess(Clamp(lo, hi, pb), pb, r)
  {
  }

  /** Box against circle collides exactly when the circle's centre is closer than
      its radius to the nearest point of the box. */
  lemma {:induction false} BoxCircleNearestPoint(w: real, h: real, pa: Vec2, r: real, pb: Vec2)
    requires w >= 0.0 && h >= 0.0
    ensures var lo, hi := Sub(pa, Vec2(w, h)), Add(pa, Vec2(w, h));
      && InBox(lo, hi, Clamp(lo, hi, pb))
      && (forall q :: InBox(lo, hi, q) ==> Dist2(Clamp(lo, hi, pb), pb) <= Dist2(q, pb))
      && Collide(AABB(w, h), pa, Circle(r), pb) == DistLess(Clamp(lo, hi, pb), pb, r)
  {
    var lo, hi := Sub(pa, Vec2(w, h)), Add(pa, Vec2(w, h));
    forall q | InBox(lo, hi, q)
      ensures Dist2(Clamp(lo, hi, pb), pb) <= Dist2(q, pb)
    {
      ClampIsNearest(lo, hi, pb, q);
    }
  }

  /** A circle whose centre lies in a box of positive radius collides with it. */
  lemma {:induction false} CentreInBoxCollides(w: real, h: real, pa: Vec2, r: real, pb: Vec2)
    requires pa.x - w <= pb.x <= pa.x + w && pa.y - h <= pb.y <= pa.y + h && r > 0.0
    ensures Collide(AABB(w, h), pa, Circle(r), pb)
  {
    var lo, hi := Sub(pa, Vec2(w, h)), Add(pa, Vec2(w, h));
    BoxCircleCollidesAtNearestPoint(w, h, pa, r, pb);
    assert Clamp(lo, hi, pb) == pb;
    SamePointWithinRadius(pb, r);
  }

  /** A point is within any positive radius of itself. */
  lemma SamePointWithinRadius(p: Vec2, r: real)
    requires r > 0.0
    ensures DistLess(p, p, r)
  {
    assert Sub(p, p) == Zero;
    MulStrictMonotone(0.0, r, r);
    calc {
      Dist2(p, p);
    == 0.0;
    < r * r;
    }
  }

  /** Boxes of half-extent 10 at (0, 0) and (15, 0) overlap; at (25, 0) they do not. */
  lemma BoxExamples()
    ensures Collide(AABB(10.0, 10.0), Vec2(0.0, 0.0), AABB(10.0, 10.0), Vec2(15.0, 0.0))
    ensures !Collide(AABB(10.0, 10.0), Vec2(0.0, 0.0), AABB(10.0, 10.0), Vec2(25.0, 0.0))
  {
  }

  /** Circles of radius 10 collide 19 apart but not 20 apart. */
  lemma CircleExamples()
    ensures Collide(Circle(10.0), Vec2(0.0, 0.0), Circle(10.0), Vec2(19.0, 0.0))
    ensures !Collide(Circle(10.0), Vec2(0.0, 0.0), Circle(10.0), Vec2(20.0, 0.0))
  {
    assert Dist2(Vec2(0.0, 0.0), Vec2(19.0, 0.0)) == 361.0;
    assert Dist2(Vec2(0.0, 0.0), Vec2(20.0, 0.0)) == 400.0;
  }

  /** A circle of radius 5 at the origin holds (4, 0) but not (5, 0). */
  lemma PointInCircleExamples()
    ensures Collide(Circle(5.0), Vec2(0.0, 0.0), Point, Vec2(4.0, 0.0))
    ensures !Collide(Circle(5.0), Vec2(0.0, 0.0), Point, Vec2(5.0, 0.0))
  {
    var o, p4, p5 := Vec2(0.0, 0.0), Vec2(4.0, 0.0), Vec2(5.0, 0.0);
    assert Dist2(o, p5) == 25.0 by {
      assert Sub(o, p5) == Vec2(-5.0, 0.0);
    }
    BoundaryPointOutsideCircle(5.0, o, p5);
    assert Dist2(o, p4) == 16.0 by {
      assert Sub(o, p4) == Vec2(-4.0, 0.0);
    }
  }

  /** A collision event: destination first, source second. */
  datatype CollisionEvent = CollisionEvent(dst: CollisionTracker.Entity, src: CollisionTracker.Entity)

  /** One row of the event pass's query. */
  datatype Body = Body(id: CollisionTracker.Entity, position: Vec2, shape: Shape)

  function Mirror(e: CollisionEvent): CollisionEvent
  {
    CollisionEvent(e.src, e.dst)
  }

  /** The source's test of one pair of rows. */
  predicate Overlapping(d: Body, s: Body)
  {
    Collide(d.shape, d.position, s.shape, s.position)
  }

  /* The enumeration below is stated for any pair test `hit`; the source's pass
     is the instance `hit == Overlapping` (AllEvents). Keeping the test abstract
     keeps the proofs about the enumeration apart from the geometry. */

  /** The events one pair contributes: both directions on a hit, none otherwise. */
  function PairEvents(hit: (Body, Body) -> bool, d: Body, s: Body): (r: seq<CollisionEvent>)
    ensures hit(d, s) ==> r == [CollisionEvent(d.id, s.id), CollisionEvent(s.id, d.id)]
    ensures !hit(d, s) ==> r == []
  {
    if hit(d, s) then [CollisionEvent(d.id, s.id), CollisionEvent(s.id, d.id)] else []
  }

  /** Events of the pairs `(i, i+1) ... (i, j-1)`, in that order. */
  function RowEvents(hit: (Body, Body) -> bool, bodies: seq<Body>, i: nat, j: nat): seq<CollisionEvent>
    requires i < j <= |bodies|
    decreases j
  {
    if j == i + 1 then [] else RowEvents(hit, bodies, i, j - 1) + PairEvents(hit, bodies[i], bodies[j - 1])
  }

  /** Events of every pair whose first row is below `i`, in query order. */
  function EventsBefore(hit: (Body, Body) -> bool, bodies: seq<Body>, i: nat): seq<CollisionEvent>
    requires i <= |bodies|
  {
    if i == 0 then [] else EventsBefore(hit, bodies, i - 1) + RowEvents(hit, bodies, i - 1, |bodies|)
  }

  /** All events of one pass of `collision_event`. */
  function AllEvents(bodies: seq<Body>): seq<CollisionEvent>
  {
    EventsBefore(Overlapping, bodies, |bodies|)
  }

  /** `s` is a run of (event, its mirror) pairs. */
  predicate MirroredPairs(s: seq<CollisionEvent>)
  {
    |s| % 2 == 0 && forall k :: 0 <= k < |s| / 2 ==> s[2 * k + 1] == Mirror(s[2 * k])
  }

  lemma {:induction false} MirroredPairsAppend(s: seq<CollisionEvent>, t: seq<CollisionEvent>)
    requires MirroredPairs(s) && MirroredPairs(t)
    ensures MirroredPairs(s + t)
  {
    var u := s + t;
    forall k | 0 <= k < |u| / 2
      ensures u[2 * k + 1] == Mirror(u[2 * k])
    {
      if k >= |s| / 2 {
        var k' := k - |s| / 2;
        assert u[2 * k] == t[2 * k'] && u[2 * k + 1] == t[2 * k' + 1];
      }
    }
  }

  lemma {:induction false} RowEventsMirrored(hit: (Body, Body) -> bool, bodies: seq<Body>, i: nat, j: nat)
    requires i < j <= |bodies|
    ensures MirroredPairs(RowEvents(hit, bodies, i, j))
    decreases j
  {
    if j > i + 1 {
      RowEventsMirrored(hit, bodies, i, j - 1);
      MirroredPairsAppend(RowEvents(hit, bodies, i, j - 1), PairEvents(hit, bodies[i], bodies[j - 1]));
    }
  }

  lemma {:induction false} EventsBeforeMirrored(hit: (Body, Body) -> bool, bodies: seq<Body>, i: nat)
    requires i <= |bodies|
    ensures MirroredPairs(EventsBefore(hit, bodies, i))
  {
    if i > 0 {
      EventsBeforeMirrored(hit, bodies, i - 1);
      RowEventsMirrored(hit, bodies, i - 1, |bodies|);
      MirroredPairsAppend(EventsBefore(hit, bodies, i - 1), RowEvents(hit, bodies, i - 1, |bodies|));
    }
  }

  /** Events come two at a time: every event at an even position is followed by
      its mirror. */
  lemma {:induction false} EventsComeMirrored(bodies: seq<Body>)
    ensures |AllEvents(bodies)| % 2 == 0
    ensures forall k :: 0 <= k < |AllEvents(bodies)| / 2 ==>
      AllEvents(bodies)[2 * k + 1] == Mirror(AllEvents(bodies)[2 * k])
  {
    EventsBeforeMirrored(Overlapping, bodies, |bodies|);
  }

  /** `e` is one of the two events of the pair of rows `i` and `j`, and that pair hits. */
  predicate EventOfPair(hit: (Body, Body) -> bool, bodies: seq<Body>, e: CollisionEvent, i: nat, j: nat)
    requires i < j < |bodies|
  {
    && hit(bodies[i], bodies[j])
    && (e == CollisionEvent(bodies[i].id, bodies[j].id) || e == CollisionEvent(bodies[j].id, bodies[i].id))
  }

  lemma {:induction false} RowEventsExactly(hit: (Body, Body) -> bool, bodies: seq<Body>, i: nat, j: nat, e: CollisionEvent)
    requires i < j <= |bodies|
    ensures e in RowEvents(hit, bodies, i, j) <==> exists m :: i < m < j && EventOfPair(hit, bodies, e, i, m)
    decreases j
  {
    if j > i + 1 {
      RowEventsExactly(hit, bodies, i, j - 1, e);
      if EventOfPair(hit, bodies, e, i, j - 1) {
        assert e in PairEvents(hit, bodies[i], bodies[j - 1]);
      }
    }
  }

  /** Every event emitted before row `i` comes from a hitting pair whose first row is below `i`. */
  lemma {:induction false} EventsBeforeSound(hit: (Body, Body) -> bool, bodies: seq<Body>, i: nat, e: CollisionEvent)
    requires i <= |bodies|
    requires e in EventsBefore(hit, bodies, i)
    ensures exists k, m :: 0 <= k < i && k < m < |bodies| && EventOfPair(hit, bodies, e, k, m)
  {
    var prev, row := EventsBefore(hit, bodies, i - 1), RowEvents(hit, bodies, i - 1, |bodies|);
    assert EventsBefore(hit, bodies, i) == prev + row;
    if e in prev {
      EventsBeforeSound(hit, bodies, i - 1, e);
      var k, m :| 0 <= k < i - 1 && k < m < |bodies| && EventOfPair(hit, bodies, e, k, m);
      assert 0 <= k < i && k < m < |bodies| && EventOfPair(hit, bodies, e, k, m);
    } else {
      RowEventsExactly(hit, bodies, i - 1, |bodies|, e);
      var m :| i - 1 < m < |bodies| && EventOfPair(hit, bodies, e, i - 1, m);
      assert 0 <= i - 1 < i && i - 1 < m < |bodies| && EventOfPair(hit, bodies, e, i - 1, m);
    }
  }

  /** Both events of a hitting pair whose first row is below `i` are emitted before row `i`. */
  lemma {:induction false} EventsBeforeComplete(hit: (Body, Body) -> bool, bodies: seq<Body>, i: nat, e: CollisionEvent, k: nat, m: nat)
    requires i <= |bodies| && k < i && k < m < |bodies|
    requires EventOfPair(hit, bodies, e, k, m)
    ensures e in EventsBefore(hit, bodies, i)
  {
    var prev, row := EventsBefore(hit, bodies, i - 1), RowEvents(hit, bodies, i - 1, |bodies|);
    assert EventsBefore(hit, bodies, i) == prev + row;
    if k == i - 1 {
      RowEventsExactly(hit, bodies, i - 1, |bodies|, e);
      assert e in row;
    } else {
      EventsBeforeComplete(hit, bodies, i - 1, e, k, m);
      assert e in prev;
    }
  }

  /** An event is emitted exactly when it is one direction of an overlapping
      pair of distinct rows; nothing is emitted for pairs that do not overlap. */
  lemma {:induction false} EventsExactlyOverlaps(bodies: seq<Body>, e: CollisionEvent)
    ensures e in AllEvents(bodies) <==>
      exists k, m :: 0 <= k < m < |bodies| && EventOfPair(Overlapping, bodies, e, k, m)
  {
    if e in AllEvents(bodies) {
      EventsBeforeSound(Overlapping, bodies, |bodies|, e);
    }
    if exists k, m :: 0 <= k < m < |bodies| && EventOfPair(Overlapping, bodies, e, k, m) {
      var k, m :| 0 <= k < m < |bodies| && EventOfPair(Overlapping, bodies, e, k, m);
      EventsBeforeComplete(Overlapping, bodies, |bodies|, e, k, m);
    }
  }

  /** `collision_event`: every unordered pair of rows in query order, two events
      per overlapping pair. */
  method SendCollisionEvents(bodies: seq<Body>) returns (events: seq<CollisionEvent>)
    ensures events == AllEvents(bodies)
    ensures MirroredPairs(events)
  {
    var n := |bodies|;
    events := [];
    var i := 0;
    while i < n
      invariant 0 <= i <= n
      invariant events == EventsBefore(Overlapping, bodies, i)
    {
      var j := i + 1;
      while j < n
        invariant i + 1 <= j <= n
        invariant events == EventsBefore(Overlapping, bodies, i) + RowEvents(Overlapping, bodies, i, j)
      {
        var d, s := bodies[i], bodies[j];
        if Collide(d.shape, d.position, s.shape, s.position) {
          events := events + [CollisionEvent(d.id, s.id), CollisionEvent(s.id, d.id)];
        }
        j := j + 1;
      }
      i := i + 1;
    }
    EventsBeforeMirrored(Overlapping, bodies, n);
  }
}
