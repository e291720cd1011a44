/**
 * The per-frame systems of src/systems.ts.  Both loop over the entities of
 * the mirror query and update their components in place: movement adds
 * velocity * dt to the position, the boundary system clamps x to the
 * strip [0, screenWidth - 200] and turns the horizontal velocity inwards.
 */
module Systems {
  import opened Ecs

  /** The margin the boundary system keeps from the right edge ("200 is mirror width"). */
  const MirrorWidth: real := 200.0

  function Abs(v: real): (a: real)
    ensures a >= 0.0 && (a == v || a == -v)
  {
    if v < 0.0 then -v else v
  }

  /** One mirror after `Position.x += Velocity.x * dt; Position.y += Velocity.y * dt`. */
  function Moved(r: Row, dt: real): Row {
    r.(x := r.x + r.vx * dt, y := r.y + r.vy * dt)
  }

  /** One mirror after the boundary check. */
  function Bounced(r: Row, screenWidth: real): Row {
    if r.x <= 0.0 then r.(x := 0.0, vx := Abs(r.vx))
    else if r.x >= screenWidth - MirrorWidth then r.(x := screenWidth - MirrorWidth, vx := -Abs(r.vx))
    else r
  }

  /** after is before with every mirror moved by dt and every other entity as it was. */
  ghost predicate MovementStep(before: seq<Row>, after: seq<Row>, dt: real) {
    |after| == |before|
    && forall e :: 0 <= e < |before| ==> after[e] == (if before[e].mirror then Moved(before[e], dt) else before[e])
  }

  /** after is before with every mirror bounced and every other entity as it was. */
  ghost predicate BoundaryStep(before: seq<Row>, after: seq<Row>, screenWidth: real) {
    |after| == |before|
    && forall e :: 0 <= e < |before| ==> after[e] == (if before[e].mirror then Bounced(before[e], screenWidth) else before[e])
  }

  /** Entity e is one of the first i handles of es. */
  ghost predicate Seen(es: seq<nat>, i: nat, e: nat)
    requires i <= |es|
  {
    exists j :: 0 <= j < i && es[j] == e
  }

  /** Visiting handle i of a strictly increasing sequence visits a handle not seen before. */
  lemma SeenStep(es: seq<nat>, i: nat)
    requires i < |es|
    requires forall p, q :: 0 <= p < q < |es| ==> es[p] < es[q]
    ensures !Seen(es, i, es[i])
    ensures forall e :: Seen(es, i + 1, e) <==> Seen(es, i, e) || e == es[i]
  {
    forall e | Seen(es, i + 1, e) && e != es[i] ensures Seen(es, i, e) {
      var j :| 0 <= j < i + 1 && es[j] == e;
      assert j < i;
    }
  }

  /** Once the whole mirror query has been visited, exactly the mirrors have been seen. */
  lemma SeenAll(rows: seq<Row>)
    ensures var es := Mirrors(rows, |rows|);
            forall e :: 0 <= e < |rows| ==> (Seen(es, |es|, e) <==> rows[e].mirror)
  {
    var es := Mirrors(rows, |rows|);
    forall e | 0 <= e < |rows| && rows[e].mirror ensures Seen(es, |es|, e) {
      var j :| 0 <= j < |es| && es[j] == e;
    }
  }

  /**
   * createMovementSystem(dt) applied to the world: every mirror's position
   * advances by its velocity times dt; nothing else changes.
   */
  method MovementSystem(world: World, dt: real)
    requires world.Valid()
    modifies world
    ensures world.Valid() && MovementStep(old(world.rows), world.rows, dt)
  {
    var entities := world.MirrorQuery();
    ghost var rows0 := world.rows;
    var i := 0;
    while i < |entities|
      invariant i <= |entities| && world.Valid() && |world.rows| == |rows0|
      invariant forall e :: 0 <= e < |rows0| ==>
                  world.rows[e] == (if Seen(entities, i, e) then Moved(rows0[e], dt) else rows0[e])
    {
      var entity := entities[i];
      SeenStep(entities, i);
      var r := world.rows[entity];
      world.SetPosition(entity, r.x + r.vx * dt, r.y + r.vy * dt);
      forall e | 0 <= e < |rows0|
        ensures world.rows[e] == (if Seen(entities, i + 1, e) then Moved(rows0[e], dt) else rows0[e])
      {
      }
      i := i + 1;
    }
    SeenAll(rows0);
  }

  /**
   * createBoundarySystem(screenWidth, screenHeight) applied to the world:
   * every mirror is bounced; nothing else changes.  screenHeight is not used.
   */
  method BoundarySystem(world: World, screenWidth: real, screenHeight: real)
    requires world.Valid()
    modifies world
    ensures world.Valid() && BoundaryStep(old(world.rows), world.rows, screenWidth)
  {
    var entities := world.MirrorQuery();
    ghost var rows0 := world.rows;
    var i := 0;
    while i < |entities|
      invariant i <= |entities| && world.Valid() && |world.rows| == |rows0|
      invariant forall e :: 0 <= e < |rows0| ==>
                  world.rows[e] == (if Seen(entities, i, e) then Bounced(rows0[e], screenWidth) else rows0[e])
    {
      var entity := entities[i];
      SeenStep(entities, i);
      var r := world.rows[entity];
      if r.x <= 0.0 {
        world.SetPosition(entity, 0.0, r.y);
        world.SetVelocity(entity, Abs(r.vx), r.vy);
      } else if r.x >= screenWidth - MirrorWidth {
        world.SetPosition(entity, screenWidth - MirrorWidth, r.y);
        world.SetVelocity(entity, -Abs(r.vx), r.vy);
      }
      forall e | 0 <= e < |rows0|
        ensures world.rows[e] == (if Seen(entities, i + 1, e) then Bounced(rows0[e], screenWidth) else rows0[e])
      {
      }
      i := i + 1;
    }
    SeenAll(rows0);
  }

  /** Movement changes only the positions of mirrors: velocities, tags and all other fields stay. */
  lemma MovementKeepsVelocities(before: seq<Row>, after: seq<Row>, dt: real)
    requires MovementStep(before, after, dt)
    ensures forall e :: 0 <= e < |before| ==> after[e].(x := before[e].x, y := before[e].y) == before[e]
    ensures forall e :: 0 <= e < |before| && !before[e].mirror ==> after[e] == before[e]
    ensures forall e :: 0 <= e < |before| && before[e].mirror ==>
              after[e].x - before[e].x == before[e].vx * dt && after[e].y - before[e].y == before[e].vy * dt
  {
  }

  /** The mirror query is the same after either system, since neither touches the tags. */
  lemma QueryUnchanged(before: seq<Row>, after: seq<Row>)
    requires |after| == |before|
    requires forall e :: 0 <= e < |before| ==> after[e].mirror == before[e].mirror
    ensures Mirrors(after, |after|) == Mirrors(before, |before|)
  {
    MirrorsSameTags(before, after, |before|);
  }

  /** The movement system leaves the mirror query as it was. */
  lemma MovementKeepsQuery(before: seq<Row>, after: seq<Row>, dt: real)
    requires MovementStep(before, after, dt)
    ensures Mirrors(after, |after|) == Mirrors(before, |before|)
  {
    MovementKeepsVelocities(before, after, dt);
    QueryUnchanged(before, after);
  }

  /** The boundary system leaves the mirror query as it was. */
  lemma BoundaryKeepsQuery(before: seq<Row>, after: seq<Row>, screenWidth: real)
    requires BoundaryStep(before, after, screenWidth)
    ensures Mirrors(after, |after|) == Mirrors(before, |before|)
  {
    forall e | 0 <= e < |before| ensures after[e].mirror == before[e].mirror {
      BouncedCases(before[e], screenWidth);
    }
    QueryUnchanged(before, after);
  }

  lemma {:induction false} MirrorsSameTags(before: seq<Row>, after: seq<Row>, n: nat)
    requires n <= |before| == |after|
    requires forall e :: 0 <= e < |before| ==> after[e].mirror == before[e].mirror
    ensures Mirrors(after, n) == Mirrors(before, n)
  {
    if n > 0 {
      MirrorsSameTags(before, after, n - 1);
    }
  }

  /**
   * The three branches of the boundary check: at or left of 0 the mirror is
   * put at 0 moving right (or standing); at or right of screenWidth - 200 it is
   * put there moving left (or standing); in between nothing changes.  Only x
   * and vx are ever written.
   */
  lemma BouncedCases(r: Row, screenWidth: real)
    ensures var b := Bounced(r, screenWidth);
            b.(x := r.x, vx := r.vx) == r
            && (r.x <= 0.0 ==> b.x == 0.0 && b.vx >= 0.0 && Abs(b.vx) == Abs(r.vx))
            && (0.0 < r.x && r.x >= screenWidth - MirrorWidth ==>
                  b.x == screenWidth - MirrorWidth && b.vx <= 0.0 && Abs(b.vx) == Abs(r.vx))
            && (0.0 < r.x < screenWidth - MirrorWidth ==> b == r)
  {
  }

  /** With a screen at least 200 wide, every mirror ends inside [0, screenWidth - 200]. */
  lemma BoundaryBounds(before: seq<Row>, after: seq<Row>, screenWidth: real)
    requires screenWidth >= MirrorWidth && BoundaryStep(before, after, screenWidth)
    ensures forall e :: 0 <= e < |after| && after[e].mirror ==> 0.0 <= after[e].x <= screenWidth - MirrorWidth
  {
    forall e | 0 <= e < |after| && after[e].mirror
      ensures 0.0 <= after[e].x <= screenWidth - MirrorWidth
    {
      BouncedCases(before[e], screenWidth);
    }
  }

  /** With a screen more than 200 wide, bouncing a bounced mirror changes nothing. */
  lemma BouncedIdempotent(r: Row, screenWidth: real)
    requires screenWidth > MirrorWidth
    ensures Bounced(Bounced(r, screenWidth), screenWidth) == Bounced(r, screenWidth)
  {
    var b := Bounced(r, screenWidth);
    if r.x <= 0.0 {
      assert b.x == 0.0 && Abs(b.vx) == b.vx;
    } else if r.x >= screenWidth - MirrorWidth {
      assert b.x == screenWidth - MirrorWidth > 0.0 && -Abs(b.vx) == b.vx;
    }
  }

  /** Hence running the boundary system twice gives the state after running it once. */
  lemma BoundaryIdempotent(r0: seq<Row>, r1: seq<Row>, r2: seq<Row>, screenWidth: real)
    requires screenWidth > MirrorWidth
    requires BoundaryStep(r0, r1, screenWidth) && BoundaryStep(r1, r2, screenWidth)
    ensures r2 == r1
  {
    forall e | 0 <= e < |r0| ensures r2[e] == r1[e] {
      if r0[e].mirror {
        BouncedIdempotent(r0[e], screenWidth);
      }
    }
  }

  /**
   * The side condition is needed: on a screen exactly 200 wide the strip is
   * the single point 0, a mirror at x = 5 moving right is put at 0 moving
   * left, and the next pass turns it around again.
   */
  lemma BoundaryNotIdempotentAt200()
    ensures var r := Row(5.0, 0.0, 1.0, 0.0, 0.0, 0.0, 0.0, [], true, false);
            Bounced(r, 200.0).vx == -1.0 && Bounced(Bounced(r, 200.0), 200.0).vx == 1.0
  {
  }
}
