/** The persistent collision tracker: each entity with a collider shape carries a
    `CollisionInfo` (a flag and the set of partners it currently overlaps), and
    once per tick every unordered pair of such entities is tested and both
    records are updated in place. */
module CollisionTracker {
  import opened Geometry
  import CircleShape
  import PolygonShape
  import Collider

  /** Opaque, stable entity handle. */
  type Entity = nat

  /** The shape component attached to an entity. Its default is `Point`. */
  datatype ColliderShape =
    | Point
    | AABB(halfExtents: Vec2)
    | Square(w: real, h: real)
    | Circle(radius: real)
    | Polygon(vertices: seq<Vec2>)

  /** Shapes `AsCollider` can turn into a collider: `Point` and `AABB` reach
      `unimplemented!()`, and an empty polygon has no projection (see WellFormed). */
  predicate Supported(shape: ColliderShape)
  {
    || shape.Square?
    || shape.Circle?
    || (shape.Polygon? && |shape.vertices| > 0)
  }

  /** The collider for a shape placed by a world transform. */
  function AsCollider(shape: ColliderShape, t: GlobalTransform): (c: Collider.Collider)
    requires Supported(shape)
    ensures Collider.WellFormed(c)
    ensures shape.Circle? ==> c == Collider.CircleCollider(CircleShape.Circle(t.translation, shape.radius))
    ensures shape.Square? ==> c == Collider.PolygonCollider(PolygonShape.Square(shape.w, shape.h, t))
    ensures shape.Polygon? ==> c == Collider.PolygonCollider(PolygonShape.FromVertices(shape.vertices, t))
  {
    match shape
    case Circle(radius) => Collider.CircleCollider(CircleShape.Circle(t.translation, radius))
    case Square(w, h) => Collider.PolygonCollider(PolygonShape.Square(w, h, t))
    case Polygon(vs) => Collider.PolygonCollider(PolygonShape.FromVertices(vs, t))
  }

  /** The value of a `CollisionInfo` record. */
  datatype InfoState = InfoState(isColliding: bool, sources: set<Entity>)

  /** The consistency the tracker keeps: a record with partners is flagged. The
      converse is not kept (see LastPartnerLeavesFlagSet). */
  predicate Consistent(s: InfoState)
  {
    s.sources != {} ==> s.isColliding
  }

  /** One record's new value after its pair with `partner` is tested. On overlap
      the record is flagged and gains the partner; otherwise the flag is cleared
      only if the partner set was already empty BEFORE the partner is removed,
      and then the partner is removed. */
  function Updated(s: InfoState, partner: Entity, overlapping: bool): (r: InfoState)
    ensures overlapping ==> r.isColliding && partner in r.sources && s.sources <= r.sources
    ensures !overlapping ==> partner !in r.sources && r.sources <= s.sources
    ensures forall x :: x != partner ==> (x in r.sources <==> x in s.sources)
    ensures !overlapping ==> (r.isColliding <==> s.isColliding && s.sources != {})
    ensures Consistent(s) ==> Consistent(r)
  {
    if overlapping then InfoState(true, s.sources + {partner})
    else InfoState(s.isColliding && s.sources != {}, s.sources - {partner})
  }

  /** Removing the last partner leaves the flag set for the rest of that step; it
      is only cleared by a later non-overlapping test of the same record. */
  lemma LastPartnerLeavesFlagSet(partner: Entity, other: Entity)
    ensures var s := Updated(InfoState(true, {partner}), partner, false);
      s == InfoState(true, {}) && Updated(s, other, false) == InfoState(false, {})
  {
  }

  /** A record never lists its own entity if it did not before and every
      partner it is tested against is another entity. */
  lemma NeverListsItself(s: InfoState, self: Entity, partner: Entity, overlapping: bool)
    requires self !in s.sources && partner != self
    ensures self !in Updated(s, partner, overlapping).sources
  {
  }

  /** The per-entity collision component. */
  class CollisionInfo {
    var isColliding: bool
    var sources: set<Entity>

    /** The default record: not colliding, no partners. */
    constructor ()
      ensures !isColliding && sources == {}
    {
      isColliding := false;
      sources := {};
    }

    function State(): InfoState
      reads this
    {
      InfoState(isColliding, sources)
    }
  }

  /** A shape together with its fresh collision record. */
  datatype ColliderBundle = ColliderBundle(shape: ColliderShape, info: CollisionInfo)

  /** `ColliderBundle::new`: the given shape with a default record. */
  method NewColliderBundle(shape: ColliderShape) returns (b: ColliderBundle)
    ensures b.shape == shape && fresh(b.info)
    ensures !b.info.isColliding && b.info.sources == {}
  {
    var info := new CollisionInfo();
    b := ColliderBundle(shape, info);
  }

  /** The derived default bundle: a `Point` shape with a default record. */
  method DefaultColliderBundle() returns (b: ColliderBundle)
    ensures b.shape == Point && fresh(b.info)
    ensures !b.info.isColliding && b.info.sources == {}
  {
    b := NewColliderBundle(Point);
  }

  /** The update of one pair's two records, statement by statement as in the
      source: flags and sources on overlap; otherwise flags first (tested on the
      sources before removal), then removal. */
  method UpdatePair(a: CollisionInfo, aid: Entity, b: CollisionInfo, bid: Entity, overlapping: bool)
    requires a != b
    modifies a, b
    ensures a.State() == Updated(old(a.State()), bid, overlapping)
    ensures b.State() == Updated(old(b.State()), aid, overlapping)
  {
    if overlapping {
      if !a.isColliding { a.isColliding := true; }
      if !b.isColliding { b.isColliding := true; }
      if bid !in a.sources { a.sources := a.sources + {bid}; }
      if aid !in b.sources { b.sources := b.sources + {aid}; }
    } else {
      if a.sources == {} && a.isColliding { a.isColliding := false; }
      if b.sources == {} && b.isColliding { b.isColliding := false; }
      if bid in a.sources { a.sources := a.sources - {bid}; }
      if aid in b.sources { b.sources := b.sources - {aid}; }
    }
  }

  /** One row of the tracker's query: an entity, its world transform, its shape
      and its collision record. */
  datatype Row = Row(id: Entity, transform: GlobalTransform, shape: ColliderShape, info: CollisionInfo)

  /** What the tracker demands of its query: every shape can become a collider,
      and rows are distinct entities with distinct records. */
  predicate ValidRows(rows: seq<Row>)
  {
    && (forall k :: 0 <= k < |rows| ==> Supported(rows[k].shape))
    && (forall k, m :: 0 <= k < m < |rows| ==> rows[k].id != rows[m].id)
    && (forall k, m :: 0 <= k < m < |rows| ==> rows[k].info != rows[m].info)
  }

  /** Row `lo`'s collider tested against row `hi`'s; the tracker tests each pair
      once, with the row met first in the query as `lo`. */
  predicate Tested(rows: seq<Row>, lo: nat, hi: nat, norm: Vec2 -> Vec2)
    requires lo < |rows| && hi < |rows|
    requires Supported(rows[lo].shape) && Supported(rows[hi].shape)
  {
    Collider.Collide(AsCollider(rows[lo].shape, rows[lo].transform),
                     AsCollider(rows[hi].shape, rows[hi].transform), norm)
  }

  /** The pair `{k, m}` has been visited once the outer index passed the smaller
      of the two, or equals it and the inner index passed the larger. */
  predicate Visited(i: nat, j: nat, k: nat, m: nat)
  {
    var lo, hi := if k < m then k else m, if k < m then m else k;
    lo < i || (lo == i && hi < j)
  }

  function Ids(rows: seq<Row>): set<Entity>
  {
    set k | 0 <= k < |rows| :: rows[k].id
  }

  function Infos(rows: seq<Row>): set<CollisionInfo>
  {
    set k | 0 <= k < |rows| :: rows[k].info
  }

  function IdSeq(rows: seq<Row>): (r: seq<Entity>)
    ensures |r| == |rows| && forall k :: 0 <= k < |rows| ==> r[k] == rows[k].id
  {
    seq(|rows|, k requires 0 <= k < |rows| => rows[k].id)
  }

  /** The current value of every row's record, in row order. */
  function States(rows: seq<Row>): (r: seq<InfoState>)
    reads Infos(rows)
    ensures |r| == |rows| && forall k :: 0 <= k < |rows| ==> r[k] == rows[k].info.State()
  {
    seq(|rows|, k requires 0 <= k < |rows| reads Infos(rows) => rows[k].info.State())
  }

  /** `t` holds the test of every row against every later row. */
  ghost predicate TableOf(rows: seq<Row>, t: seq<seq<bool>>, norm: Vec2 -> Vec2)
    requires ValidRows(rows)
  {
    && IsTable(t, |rows|)
    && forall k, m {:trigger Tested(rows, k, m, norm)} ::
         0 <= k < m < |rows| ==> t[k][m] == Tested(rows, k, m, norm)
  }

  /** Row `k` overlaps no other row: neither an earlier nor a later row's test
      against it succeeds. */
  predicate OverlapsNothing(rows: seq<Row>, k: nat, norm: Vec2 -> Vec2)
    requires ValidRows(rows) && k < |rows|
  {
    && (forall m :: 0 <= m < k ==> !Tested(rows, m, k, norm))
    && (forall m :: k < m < |rows| ==> !Tested(rows, k, m, norm))
  }

  /** The table of all pair tests. */
  ghost function OverlapTable(rows: seq<Row>, norm: Vec2 -> Vec2): (t: seq<seq<bool>>)
    requires ValidRows(rows)
    ensures TableOf(rows, t, norm)
  {
    seq(|rows|, k requires 0 <= k < |rows| =>
      seq(|rows|, m requires 0 <= m < |rows| => Tested(rows, k, m, norm)))
  }

  /** `t` is an `n` by `n` table. */
  ghost predicate IsTable(t: seq<seq<bool>>, n: nat)
  {
    |t| == n && forall k :: 0 <= k < n ==> |t[k]| == n
  }

  /** The result `t` holds for the pair `(i, j)`; false outside the table. */
  function Hit(t: seq<seq<bool>>, i: nat, j: nat): (r: bool)
    ensures IsTable(t, |t|) && i < |t| && j < |t| ==> r == t[i][j]
  {
    if i < |t| && j < |t[i]| then t[i][j] else false
  }

  /** The result `t` holds for the unordered pair `{k, m}`: the one stored
      under the smaller row first, as the pair loop tests it. */
  function PairResult(t: seq<seq<bool>>, k: nat, m: nat): bool
  {
    if k < m then Hit(t, k, m) else Hit(t, m, k)
  }

  /** The records after the pair of rows `i < j` is tested with result `hit`:
      the two records of the pair are updated against each other and every
      other record is kept. */
  function PairStep(ids: seq<Entity>, st: seq<InfoState>, i: nat, j: nat, hit: bool): (r: seq<InfoState>)
    requires |st| == |ids| && i < j < |ids|
    ensures |r| == |st|
    ensures r[i] == Updated(st[i], ids[j], hit) && r[j] == Updated(st[j], ids[i], hit)
    ensures forall k {:trigger r[k]} :: 0 <= k < |st| && k != i && k != j ==> r[k] == st[k]
  {
    st[i := Updated(st[i], ids[j], hit)][j := Updated(st[j], ids[i], hit)]
  }

  /** The pairs of row `i` with rows `i + 1` to `j - 1`, in query order, each
      with its result in `t`. */
  function RowPass(ids: seq<Entity>, st: seq<InfoState>, t: seq<seq<bool>>, i: nat, j: nat): (r: seq<InfoState>)
    requires |st| == |ids| && i < j <= |ids|
    ensures |r| == |st|
    decreases j
  {
    if j == i + 1 then st else PairStep(ids, RowPass(ids, st, t, i, j - 1), i, j - 1, Hit(t, i, j - 1))
  }

  /** The records once the rows before `i` have had all their pairs tested, in
      the order `collision_info` tests them; `Pass(ids, before, t, |ids|)` is the
      outcome of the whole pass. */
  function Pass(ids: seq<Entity>, before: seq<InfoState>, t: seq<seq<bool>>, i: nat): (r: seq<InfoState>)
    requires |before| == |ids| && i <= |ids|
    ensures |r| == |before|
  {
    if i == 0 then before else RowPass(ids, Pass(ids, before, t, i - 1), t, i - 1, |ids|)
  }

  /** Two rows that were overlapping and have separated: each record loses its
      partner but, its flag being tested before the removal, stays flagged. */
  lemma {:induction false} SeparatedPairStaysFlagged(a: Entity, b: Entity)
    requires a != b
    ensures Pass([a, b], [InfoState(true, {b}), InfoState(true, {a})], [[false, false], [false, false]], 2)
         == [InfoState(true, {}), InfoState(true, {})]
  {
    var ids, st, t := [a, b], [InfoState(true, {b}), InfoState(true, {a})], [[false, false], [false, false]];
    var p1 := PairStep(ids, st, 0, 1, false);
    assert Pass(ids, st, t, 1) == RowPass(ids, st, t, 0, 2) == p1;
    assert Pass(ids, st, t, 2) == RowPass(ids, p1, t, 1, 2) == p1;
    assert p1[0] == InfoState(true, {}) && p1[1] == InfoState(true, {});
  }

  /** The final flag depends on the order in which the pairs are tested. A
      record flagged with partner `b`, overlapping nothing, ends unflagged when
      it is tested against `b` before `c`, and flagged when tested against `c`
      before `b`. */
  lemma {:induction false} FlagDependsOnOrder(a: Entity, b: Entity, c: Entity)
    requires a != b && a != c && b != c
    ensures var st := [InfoState(true, {b}), InfoState(false, {}), InfoState(false, {})];
            var t := [[false, false, false], [false, false, false], [false, false, false]];
      && Pass([a, b, c], st, t, 3)[0] == InfoState(false, {})
      && Pass([a, c, b], st, t, 3)[0] == InfoState(true, {})
  {
    var st := [InfoState(true, {b}), InfoState(false, {}), InfoState(false, {})];
    var t := [[false, false, false], [false, false, false], [false, false, false]];
    forall ids | ids == [a, b, c] || ids == [a, c, b]
      ensures Pass(ids, st, t, 3)[0] == Updated(Updated(st[0], ids[1], false), ids[2], false)
    {
      var q1 := PairStep(ids, st, 0, 1, false);
      var p1 := PairStep(ids, q1, 0, 2, false);
      assert RowPass(ids, st, t, 0, 2) == q1;
      assert Pass(ids, st, t, 1) == RowPass(ids, st, t, 0, 3) == p1;
      var p2 := PairStep(ids, p1, 1, 2, false);
      assert RowPass(ids, p1, t, 1, 2) == p1;
      assert Pass(ids, st, t, 2) == RowPass(ids, p1, t, 1, 3) == p2;
      assert Pass(ids, st, t, 3) == RowPass(ids, p2, t, 2, 3) == p2;
    }
  }

  /** Row `k`'s record value `s` is what the pass owes it once the pairs before
      `(i, j)` are visited, with `t` the pair tests: a visited partner is listed
      iff the pair overlaps, an unvisited one and any entity outside the query as
      before the pass; the row does not list itself unless it did, and stays
      Consistent if it was; it is flagged if some visited pair overlaps, and
      not flagged if it was not and no visited pair overlaps. */
  ghost predicate RowDone(rows: seq<Row>, before: seq<InfoState>, t: seq<seq<bool>>,
                          i: nat, j: nat, k: nat, s: InfoState)
    requires ValidRows(rows) && |before| == |rows| && k < |rows|
  {
    && (forall m :: 0 <= m < |rows| && m != k ==>
         (rows[m].id in s.sources <==>
           if Visited(i, j, k, m) then PairResult(t, k, m) else rows[m].id in before[k].sources))
    && s.sources - Ids(rows) == before[k].sources - Ids(rows)
    && (rows[k].id !in before[k].sources ==> rows[k].id !in s.sources)
    && (Consistent(before[k]) ==> Consistent(s))
    && (forall m :: 0 <= m < |rows| && m != k && Visited(i, j, k, m) && PairResult(t, k, m) ==> s.isColliding)
    && ((!before[k].isColliding &&
         (forall m :: 0 <= m < |rows| && m != k && Visited(i, j, k, m) ==> !PairResult(t, k, m)))
        ==> !s.isColliding)
  }

  /** Visiting the pair `(i, j)` brings row `k`, one of the two, from the value
      owed before the visit to the value owed after it, by taking the update
      against the other row. */
  lemma {:induction false} VisitedRowDone(rows: seq<Row>, before: seq<InfoState>, t: seq<seq<bool>>,
                                          i: nat, j: nat, next: nat, k: nat, other: nat, s: InfoState, r: InfoState)
    requires ValidRows(rows) && |before| == |rows| && i < j < |rows| && next == j + 1
    requires (k == i && other == j) || (k == j && other == i)
    requires RowDone(rows, before, t, i, j, k, s)
    requires r == Updated(s, rows[other].id, Hit(t, i, j))
    ensures RowDone(rows, before, t, i, next, k, r)
  {
    assert rows[other].id in Ids(rows);
    assert rows[k].id != rows[other].id;
    forall m | 0 <= m < |rows| && m != k
      ensures rows[m].id in r.sources <==>
        if Visited(i, next, k, m) then PairResult(t, k, m) else rows[m].id in before[k].sources
    {
      if m != other {
        assert rows[m].id != rows[other].id;
        assert Visited(i, next, k, m) == Visited(i, j, k, m);
      }
    }
    forall m | 0 <= m < |rows| && m != k && Visited(i, next, k, m) && PairResult(t, k, m)
      ensures r.isColliding
    {
      if m != other {
        assert Visited(i, j, k, m);
        assert rows[m].id in s.sources && rows[m].id != rows[other].id;
      }
    }
    if !before[k].isColliding &&
       (forall m :: 0 <= m < |rows| && m != k && Visited(i, next, k, m) ==> !PairResult(t, k, m)) {
      assert Visited(i, next, k, other);
      forall m | 0 <= m < |rows| && m != k && Visited(i, j, k, m)
        ensures !PairResult(t, k, m)
      {
        assert Visited(i, next, k, m);
      }
    }
  }

  /** Visiting the pair `(i, j)` owes nothing new to any third row. */
  lemma {:induction false} UntouchedRowDone(rows: seq<Row>, before: seq<InfoState>, t: seq<seq<bool>>,
                                            i: nat, j: nat, next: nat, k: nat, s: InfoState, r: InfoState)
    requires ValidRows(rows) && |before| == |rows| && i < j < |rows| && next == j + 1 && k < |rows|
    requires k != i && k != j
    requires RowDone(rows, before, t, i, j, k, s) && r == s
    ensures RowDone(rows, before, t, i, next, k, r)
  {
    forall m | 0 <= m < |rows| && m != k
      ensures Visited(i, next, k, m) == Visited(i, j, k, m)
    {
    }
  }

  /** Before any pair is visited every record is owed its value at the start. */
  lemma {:induction false} NothingVisitedYet(rows: seq<Row>, before: seq<InfoState>, t: seq<seq<bool>>, k: nat)
    requires ValidRows(rows) && |before| == |rows| && k < |rows|
    ensures RowDone(rows, before, t, 0, 1, k, before[k])
  {
    forall m | 0 <= m < |rows| && m != k
      ensures !Visited(0, 1, k, m)
    {
    }
  }

  /** Finishing row `i` of the pair loop is starting row `i + 1`. */
  lemma {:induction false} NextOuterRow(rows: seq<Row>, before: seq<InfoState>, t: seq<seq<bool>>,
                                        i: nat, k: nat, s: InfoState)
    requires ValidRows(rows) && |before| == |rows| && i < |rows| && k < |rows|
    requires RowDone(rows, before, t, i, |rows|, k, s)
    ensures RowDone(rows, before, t, i + 1, i + 2, k, s)
  {
    forall m | 0 <= m < |rows| && m != k
      ensures Visited(i, |rows|, k, m) == Visited(i + 1, i + 2, k, m)
    {
    }
  }

  /** Once every pair is visited, row `k` lists exactly the rows it overlaps. */
  lemma {:induction false} AllVisited(rows: seq<Row>, before: seq<InfoState>, t: seq<seq<bool>>,
                                      j: nat, k: nat, s: InfoState)
    requires ValidRows(rows) && |before| == |rows| && k < |rows|
    requires RowDone(rows, before, t, |rows|, j, k, s)
    ensures forall m :: 0 <= m < |rows| && m != k ==> (rows[m].id in s.sources <==> PairResult(t, k, m))
    ensures s.sources - Ids(rows) == before[k].sources - Ids(rows)
    ensures rows[k].id !in before[k].sources ==> rows[k].id !in s.sources
    ensures Consistent(before[k]) ==> Consistent(s)
    ensures forall m :: 0 <= m < |rows| && m != k && PairResult(t, k, m) ==> s.isColliding
    ensures !before[k].isColliding && (forall m :: 0 <= m < |rows| && m != k ==> !PairResult(t, k, m))
            ==> !s.isColliding
  {
    forall m | 0 <= m < |rows| && m != k
      ensures Visited(|rows|, j, k, m)
    {
    }
  }

  /** Visiting the pair `(i, j - 1)` keeps every record as RowDone describes. */
  lemma PairStepDone(rows: seq<Row>, ids: seq<Entity>, before: seq<InfoState>, t: seq<seq<bool>>,
                     i: nat, j: nat, k: nat, start: seq<InfoState>)
    requires ValidRows(rows) && ids == IdSeq(rows) && |before| == |rows|
    requires i + 1 < j <= |rows| && k < |rows| && |start| == |rows|
    requires RowDone(rows, before, t, i, j - 1, k, RowPass(ids, start, t, i, j - 1)[k])
    ensures RowDone(rows, before, t, i, j, k, RowPass(ids, start, t, i, j)[k])
  {
    var st := RowPass(ids, start, t, i, j - 1);
    var r := RowPass(ids, start, t, i, j)[k];
    assert RowPass(ids, start, t, i, j) == PairStep(ids, st, i, j - 1, Hit(t, i, j - 1));
    if k == i {
      VisitedRowDone(rows, before, t, i, j - 1, j, i, j - 1, st[i], r);
    } else if k == j - 1 {
      VisitedRowDone(rows, before, t, i, j - 1, j, j - 1, i, st[j - 1], r);
    } else {
      UntouchedRowDone(rows, before, t, i, j - 1, j, k, st[k], r);
    }
  }

  /** Along row `i` of the pass, every record is as RowDone describes. */
  lemma {:induction false} RowPassDone(rows: seq<Row>, ids: seq<Entity>, before: seq<InfoState>,
                                       t: seq<seq<bool>>, i: nat, j: nat, k: nat, start: seq<InfoState>)
    requires ValidRows(rows) && ids == IdSeq(rows) && |before| == |rows|
    requires i < j <= |rows| && k < |rows| && |start| == |rows|
    requires RowDone(rows, before, t, i, i + 1, k, start[k])
    ensures RowDone(rows, before, t, i, j, k, RowPass(ids, start, t, i, j)[k])
    decreases j
  {
    if j > i + 1 {
      RowPassDone(rows, ids, before, t, i, j - 1, k, start);
      PairStepDone(rows, ids, before, t, i, j, k, start);
    }
  }

  /** Once the rows before `i` are done, every record is as RowDone describes. */
  lemma {:induction false} PassDone(rows: seq<Row>, before: seq<InfoState>, t: seq<seq<bool>>, i: nat, k: nat)
    requires ValidRows(rows) && |before| == |rows|
    requires i <= |rows| && k < |rows|
    ensures RowDone(rows, before, t, i, i + 1, k, Pass(IdSeq(rows), before, t, i)[k])
  {
    if i == 0 {
      NothingVisitedYet(rows, before, t, k);
    } else {
      PassDone(rows, before, t, i - 1, k);
      RowPassDone(rows, IdSeq(rows), before, t, i - 1, |rows|, k, Pass(IdSeq(rows), before, t, i - 1));
      NextOuterRow(rows, before, t, i - 1, k, Pass(IdSeq(rows), before, t, i)[k]);
    }
  }

  /** After the whole pass each record lists exactly the other rows it
      overlaps, keeps entities outside the query, does not list itself unless it
      did, stays Consistent, is flagged if it overlaps some row, and is not
      flagged if it overlaps none and was not flagged before. */
  lemma {:induction false} PassOutcome(rows: seq<Row>, before: seq<InfoState>, t: seq<seq<bool>>, k: nat)
    requires ValidRows(rows) && |before| == |rows|
    requires k < |rows|
    ensures var s := Pass(IdSeq(rows), before, t, |rows|)[k];
      && (forall m :: 0 <= m < |rows| && m != k ==> (rows[m].id in s.sources <==> PairResult(t, k, m)))
      && s.sources - Ids(rows) == before[k].sources - Ids(rows)
      && (rows[k].id !in before[k].sources ==> rows[k].id !in s.sources)
      && (Consistent(before[k]) ==> Consistent(s))
      && (forall m :: 0 <= m < |rows| && m != k && PairResult(t, k, m) ==> s.isColliding)
      && (!before[k].isColliding && (forall m :: 0 <= m < |rows| && m != k ==> !PairResult(t, k, m))
          ==> !s.isColliding)
  {
    PassDone(rows, before, t, |rows|, k);
    AllVisited(rows, before, t, |rows| + 1, k, Pass(IdSeq(rows), before, t, |rows|)[k]);
  }

  /** `t` holds the test of row `i` against every later row. */
  ghost predicate RowTested(rows: seq<Row>, t: seq<seq<bool>>, i: nat, norm: Vec2 -> Vec2)
    requires ValidRows(rows)
  {
    forall j {:trigger Tested(rows, i, j, norm)} :: i < j < |rows| ==> Hit(t, i, j) == Tested(rows, i, j, norm)
  }

  /** Every row of a table of the pair tests holds the tests of that row. */
  lemma TableRow(rows: seq<Row>, t: seq<seq<bool>>, norm: Vec2 -> Vec2, i: nat)
    requires ValidRows(rows) && TableOf(rows, t, norm) && i < |rows|
    ensures RowTested(rows, t, i, norm)
  {
    forall j | i < j < |rows|
      ensures Hit(t, i, j) == Tested(rows, i, j, norm)
    {
      assert t[i][j] == Tested(rows, i, j, norm);
    }
  }

  /** PassOutcome for the table of the pair tests, stated with the tests:
      for a later row `m` the test is `k` against `m`, for an earlier one `m`
      against `k`. */
  lemma PassOverlaps(rows: seq<Row>, before: seq<InfoState>, norm: Vec2 -> Vec2, k: nat)
    requires ValidRows(rows) && |before| == |rows| && k < |rows|
    ensures var s := Pass(IdSeq(rows), before, OverlapTable(rows, norm), |rows|)[k];
      && (forall m :: k < m < |rows| ==> (rows[m].id in s.sources <==> Tested(rows, k, m, norm)))
      && (forall m :: 0 <= m < k ==> (rows[m].id in s.sources <==> Tested(rows, m, k, norm)))
      && s.sources - Ids(rows) == before[k].sources - Ids(rows)
      && (rows[k].id !in before[k].sources ==> rows[k].id !in s.sources)
      && (Consistent(before[k]) ==> Consistent(s))
      && (forall m :: k < m < |rows| && Tested(rows, k, m, norm) ==> s.isColliding)
      && (forall m :: 0 <= m < k && Tested(rows, m, k, norm) ==> s.isColliding)
      && (!before[k].isColliding && OverlapsNothing(rows, k, norm) ==> !s.isColliding)
  {
    var t := OverlapTable(rows, norm);
    PassOutcome(rows, before, t, k);
    forall m | k < m < |rows|
      ensures PairResult(t, k, m) == Tested(rows, k, m, norm)
    {
    }
    forall m | 0 <= m < k
      ensures PairResult(t, k, m) == Tested(rows, m, k, norm)
    {
    }
  }

  /** The outcome of the whole pass with the pair tests, record by record and
      pair by pair. */
  lemma PassResult(rows: seq<Row>, before: seq<InfoState>, norm: Vec2 -> Vec2, p: seq<InfoState>)
    requires ValidRows(rows) && |before| == |rows|
    requires p == Pass(IdSeq(rows), before, OverlapTable(rows, norm), |rows|)
    ensures forall k, m :: 0 <= k < m < |rows| ==>
      && (rows[m].id in p[k].sources <==> Tested(rows, k, m, norm))
      && (rows[k].id in p[m].sources <==> Tested(rows, k, m, norm))
    ensures forall k :: 0 <= k < |rows| ==> p[k].sources - Ids(rows) == before[k].sources - Ids(rows)
    ensures forall k :: 0 <= k < |rows| && rows[k].id !in before[k].sources ==> rows[k].id !in p[k].sources
    ensures forall k :: 0 <= k < |rows| && Consistent(before[k]) ==> Consistent(p[k])
    ensures forall k, m :: 0 <= k < m < |rows| && Tested(rows, k, m, norm) ==> p[k].isColliding && p[m].isColliding
    ensures forall k :: 0 <= k < |rows| && !before[k].isColliding && OverlapsNothing(rows, k, norm) ==> !p[k].isColliding
  {
    forall k, m | 0 <= k < m < |rows|
      ensures rows[m].id in p[k].sources <==> Tested(rows, k, m, norm)
      ensures rows[k].id in p[m].sources <==> Tested(rows, k, m, norm)
      ensures Tested(rows, k, m, norm) ==> p[k].isColliding && p[m].isColliding
    {
      PassOverlaps(rows, before, norm, k);
      PassOverlaps(rows, before, norm, m);
    }
    forall k | 0 <= k < |rows|
      ensures p[k].sources - Ids(rows) == before[k].sources - Ids(rows)
      ensures rows[k].id !in before[k].sources ==> rows[k].id !in p[k].sources
      ensures Consistent(before[k]) ==> Consistent(p[k])
      ensures !before[k].isColliding && OverlapsNothing(rows, k, norm) ==> !p[k].isColliding
    {
      PassOverlaps(rows, before, norm, k);
    }
  }

  /** The records of rows `i` and `j` take the update for a test with result
      `hit`; every record then holds what `PairStep` gives. */
  method RecordPair(rows: seq<Row>, i: nat, j: nat, hit: bool, ghost cur: seq<InfoState>)
    requires ValidRows(rows) && i < j < |rows|
    requires States(rows) == cur
    modifies rows[i].info, rows[j].info
    ensures States(rows) == PairStep(IdSeq(rows), cur, i, j, hit)
  {
    var a, b := rows[i], rows[j];
    UpdatePair(a.info, a.id, b.info, b.id, hit);
    ghost var next := PairStep(IdSeq(rows), cur, i, j, hit);
    forall k | 0 <= k < |rows|
      ensures rows[k].info.State() == next[k]
    {
      if k != i && k != j {
        assert rows[k].info != a.info && rows[k].info != b.info;
      }
    }
  }

  /** `RowPass` under the name the inner loop states its invariant with: being
      non-recursive, it lets the verifier unfold `RowPass` only one pair at a
      time inside the loop. */
  ghost function RowSoFar(ids: seq<Entity>, st: seq<InfoState>, t: seq<seq<bool>>, i: nat, j: nat): seq<InfoState>
    requires |st| == |ids| && i < j <= |ids|
  {
    RowPass(ids, st, t, i, j)
  }

  /** One step of the inner loop of `collision_info`: the pair `(i, j)` is
      tested and its two records updated, which extends row `i`'s pass from
      `start` by that pair, with the result `t` holds for it. */
  method VisitPair(rows: seq<Row>, ghost start: seq<InfoState>, ghost t: seq<seq<bool>>,
                   i: nat, j: nat, norm: Vec2 -> Vec2)
    requires ValidRows(rows) && |start| == |rows| && i < j < |rows|
    requires RowTested(rows, t, i, norm)
    requires States(rows) == RowSoFar(IdSeq(rows), start, t, i, j)
    modifies rows[i].info, rows[j].info
    ensures States(rows) == RowSoFar(IdSeq(rows), start, t, i, j + 1)
  {
    ghost var cur := States(rows);
    var acoll := AsCollider(rows[i].shape, rows[i].transform);
    var bcoll := AsCollider(rows[j].shape, rows[j].transform);
    var overlapping := Collider.Collide(acoll, bcoll, norm);
    assert overlapping == Tested(rows, i, j, norm);
    RecordPair(rows, i, j, overlapping, cur);
  }

  /** The inner loop of `collision_info` for row `i`: its pairs with every
      later row, in query order. */
  method VisitRow(rows: seq<Row>, ghost before: seq<InfoState>, ghost t: seq<seq<bool>>, i: nat, norm: Vec2 -> Vec2)
    requires ValidRows(rows) && |before| == |rows| && i < |rows|
    requires RowTested(rows, t, i, norm)
    requires States(rows) == Pass(IdSeq(rows), before, t, i)
    modifies Infos(rows)
    ensures States(rows) == Pass(IdSeq(rows), before, t, i + 1)
  {
    ghost var start := Pass(IdSeq(rows), before, t, i);
    for j := i + 1 to |rows|
      invariant States(rows) == RowSoFar(IdSeq(rows), start, t, i, j)
    {
      VisitPair(rows, start, t, i, j, norm);
    }
  }

  /** The outer loop of `collision_info`: each row in turn, so that every
      unordered pair is visited once. */
  method VisitAllPairs(rows: seq<Row>, ghost before: seq<InfoState>, ghost t: seq<seq<bool>>, norm: Vec2 -> Vec2)
    requires ValidRows(rows) && |before| == |rows|
    requires TableOf(rows, t, norm)
    requires States(rows) == before
    modifies Infos(rows)
    ensures States(rows) == Pass(IdSeq(rows), before, t, |rows|)
  {
    var i := 0;
    while i < |rows|
      invariant 0 <= i <= |rows|
      invariant States(rows) == Pass(IdSeq(rows), before, t, i)
    {
      TableRow(rows, t, norm, i);
      VisitRow(rows, before, t, i, norm);
      i := i + 1;
    }
  }

  /** `collision_info`: every unordered pair of rows, in query order, is tested
      and its two records updated; the records end as `Pass` computes them.
      Afterwards each record lists exactly the other rows it overlaps (whatever
      it listed before), keeps entities outside the query as they were, still
      never lists itself, and stays Consistent. A record that overlaps some
      other row is flagged; one that overlaps none and was not flagged is not.
      A record that overlaps none but was flagged may end either way, depending
      on the order of its tests (see FlagDependsOnOrder). */
  method UpdateCollisionInfo(rows: seq<Row>, norm: Vec2 -> Vec2)
    requires ValidRows(rows)
    modifies Infos(rows)
    ensures States(rows) == Pass(IdSeq(rows), old(States(rows)), OverlapTable(rows, norm), |rows|)
    ensures forall k, m :: 0 <= k < m < |rows| ==>
      && (rows[m].id in rows[k].info.sources <==> Tested(rows, k, m, norm))
      && (rows[k].id in rows[m].info.sources <==> Tested(rows, k, m, norm))
    ensures forall k :: 0 <= k < |rows| ==>
      rows[k].info.sources - Ids(rows) == old(rows[k].info.sources) - Ids(rows)
    ensures forall k :: 0 <= k < |rows| && rows[k].id !in old(rows[k].info.sources) ==>
      rows[k].id !in rows[k].info.sources
    ensures forall k :: 0 <= k < |rows| && Consistent(old(rows[k].info.State())) ==>
      Consistent(rows[k].info.State())
    ensures forall k, m :: 0 <= k < m < |rows| && Tested(rows, k, m, norm) ==>
      rows[k].info.isColliding && rows[m].info.isColliding
    ensures forall k :: 0 <= k < |rows| && !old(rows[k].info.isColliding) && OverlapsNothing(rows, k, norm) ==>
      !rows[k].info.isColliding
  {
    ghost var before := States(rows);
    VisitAllPairs(rows, before, OverlapTable(rows, norm), norm);
    PassResult(rows, before, norm, States(rows));
  }
}
