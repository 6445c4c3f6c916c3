/**
 * The world generator's records and rules: platforms that are recycled above
 * the camera once they scroll out below it, and the pooled carrots spawned on
 * top of recycled platforms.
 */
module World {

  /** Number of platforms the scene creates, and keeps for its whole life. */
  const PlatformCount: nat := 5
  /** Vertical distance between consecutive platforms of the initial layout. */
  const Spacing: real := 150.0
  /** Horizontal range of a platform's x coordinate in the initial layout. */
  const MinX: int := 80
  const MaxX: int := 400
  /** Scale every platform sprite gets. */
  const PlatformScale: real := 0.5
  /** A platform at or below scrollY + Threshold is recycled. */
  const Threshold: real := 700.0
  /** Range of the gap between the camera top and a recycled platform. */
  const MinGap: int := 50
  const MaxGap: int := 100

  /** The two platform images, each chosen with equal probability. */
  datatype PlatformKind = Big | Small

  /** A platform sprite: its position, its image and its height on screen. */
  datatype Platform = Platform(x: real, y: real, kind: PlatformKind, displayHeight: real)

  /** A pooled carrot sprite: its position, and its active, visible and physics-body flags. */
  datatype Carrot = Carrot(x: real, y: real, active: bool, visible: bool, bodyEnabled: bool)

  /** A platform that has scrolled out below the camera's recycle line. */
  predicate Stale(p: Platform, scrollY: real) {
    p.y >= scrollY + Threshold
  }

  /** The kind a draw of Between(0, 1) selects: 0 is the big image. */
  function KindOf(draw: int): PlatformKind {
    if draw == 0 then Big else Small
  }

  /**
   * Platform `i` of the initial layout: at x, at height Spacing * i, scaled
   * by PlatformScale from the height of its image.
   */
  function Initial(i: nat, x: int, draw: int, bigHeight: real, smallHeight: real): (p: Platform)
    requires MinX <= x <= MaxX && 0 <= draw <= 1
    ensures p.x == x as real && p.y == Spacing * i as real
    ensures MinX as real <= p.x <= MaxX as real
    ensures p.kind == Big <==> draw == 0
    ensures p.displayHeight == PlatformScale * (if draw == 0 then bigHeight else smallHeight)
  {
    var kind := KindOf(draw);
    Platform(x as real, Spacing * i as real, kind,
             PlatformScale * (if kind == Big then bigHeight else smallHeight))
  }

  /**
   * One platform's step of the recycle pass: a stale platform moves to `gap`
   * above the camera top, any other platform stays where it is.
   */
  function Recycle(p: Platform, scrollY: real, gap: int): (q: Platform)
    requires MinGap <= gap <= MaxGap
    ensures q.x == p.x && q.kind == p.kind && q.displayHeight == p.displayHeight
    ensures !Stale(q, scrollY)
    ensures !Stale(p, scrollY) ==> q == p
    ensures Stale(p, scrollY) ==> q.y == scrollY - gap as real
    ensures Stale(p, scrollY) ==> scrollY - MaxGap as real <= q.y <= scrollY - MinGap as real
  {
    if p.y >= scrollY + Threshold then p.(y := scrollY - gap as real) else p
  }

  /**
   * A platform recycled at scrollY is not recycled again by a later pass
   * unless the camera has climbed more than Threshold + MinGap above scrollY,
   * so one recycling never spawns a second carrot in the next frames.
   */
  lemma RecycledStaysPut(p: Platform, scrollY: real, gap: int, laterScrollY: real, laterGap: int)
    requires MinGap <= gap <= MaxGap && MinGap <= laterGap <= MaxGap
    requires Stale(p, scrollY)
    requires laterScrollY > scrollY - Threshold - MinGap as real
    ensures Recycle(Recycle(p, scrollY, gap), laterScrollY, laterGap) == Recycle(p, scrollY, gap)
  {
  }

  /** The carrot spawned on top of platform `p`: live, above its top edge. */
  function CarrotAbove(p: Platform): (c: Carrot)
    ensures c.active && c.visible && c.bodyEnabled
    ensures c.x == p.x && c.y + p.displayHeight == p.y
  {
    Carrot(p.x, p.y - p.displayHeight, true, true, true)
  }

  /** A collected carrot: back in the pool, hidden, without a physics body, where it was. */
  function Collected(c: Carrot): (d: Carrot)
    ensures !d.active && !d.visible && !d.bodyEnabled
    ensures d.x == c.x && d.y == c.y
  {
    c.(active := false, visible := false, bodyEnabled := false)
  }

  /**
   * The pool discipline: every carrot is either live (active, visible and
   * collidable) or retired (none of the three); no carrot is active but
   * invisible, or hidden but still collidable.
   */
  predicate PoolConsistent(pool: seq<Carrot>) {
    forall s :: 0 <= s < |pool| ==>
      pool[s].active == pool[s].visible && pool[s].visible == pool[s].bodyEnabled
  }

  /**
   * A pool slot that may be handed out for a new carrot: an inactive carrot
   * to reuse, or the index just past the pool, which means a new carrot.
   */
  predicate Acquirable(pool: seq<Carrot>, slot: nat) {
    slot <= |pool| && (slot < |pool| ==> !pool[slot].active)
  }

  /** The pool after carrot `c` is put in `slot`: reused in place, or appended. */
  function Placed(pool: seq<Carrot>, slot: nat, c: Carrot): (r: seq<Carrot>)
    requires Acquirable(pool, slot)
    ensures |r| == if slot == |pool| then |pool| + 1 else |pool|
    ensures slot < |r| && r[slot] == c
    ensures forall s :: 0 <= s < |pool| && s != slot ==> r[s] == pool[s]
  {
    if slot == |pool| then pool + [c] else pool[slot := c]
  }

  /** Putting a live carrot into an acquirable slot keeps the pool discipline. */
  lemma PlacedConsistent(pool: seq<Carrot>, slot: nat, p: Platform)
    requires PoolConsistent(pool) && Acquirable(pool, slot)
    ensures PoolConsistent(Placed(pool, slot, CarrotAbove(p)))
  {
  }

  /** The platforms of `before` that a pass at scrollY recycles, by index. */
  ghost function StaleIndices(before: seq<Platform>, scrollY: real): set<nat> {
    set i: nat | i < |before| && Stale(before[i], scrollY)
  }

  /**
   * The carrots a recycle pass spawns: `spawned` maps each recycled platform
   * to the pool slot of its carrot. Exactly the stale platforms of `before`
   * get one, each in its own slot, sitting on the platform's new position in
   * `after`; a reused slot held an inactive carrot, every other old carrot is
   * left as it was, and every carrot added to the pool is one of them.
   */
  ghost predicate SpawnedOnePerRecycled(before: seq<Platform>, after: seq<Platform>, scrollY: real,
                                        pool: seq<Carrot>, carrots: seq<Carrot>, spawned: map<nat, nat>)
    requires |before| == |after|
  {
    && spawned.Keys == StaleIndices(before, scrollY)
    && (forall i :: i in spawned ==> i < |after| && spawned[i] < |carrots| && carrots[spawned[i]] == CarrotAbove(after[i]))
    && (forall i, j :: i in spawned && j in spawned && i != j ==> spawned[i] != spawned[j])
    && (forall i :: i in spawned && spawned[i] < |pool| ==> !pool[spawned[i]].active)
    && |pool| <= |carrots|
    && (forall s :: 0 <= s < |pool| && s !in spawned.Values ==> carrots[s] == pool[s])
    && (forall s :: |pool| <= s < |carrots| ==> s in spawned.Values)
  }

  /** Before the pass has looked at any platform, nothing is spawned. */
  lemma SpawnedNone(scrollY: real, pool: seq<Carrot>)
    ensures SpawnedOnePerRecycled([], [], scrollY, pool, pool, map[])
  {
  }

  /** A platform the pass leaves in place spawns nothing. */
  lemma SpawnedKeep(before: seq<Platform>, after: seq<Platform>, scrollY: real,
                    pool: seq<Carrot>, carrots: seq<Carrot>, spawned: map<nat, nat>, p: Platform)
    requires |before| == |after|
    requires SpawnedOnePerRecycled(before, after, scrollY, pool, carrots, spawned)
    requires !Stale(p, scrollY)
    ensures SpawnedOnePerRecycled(before + [p], after + [p], scrollY, pool, carrots, spawned)
  {
  }

  /**
   * A recycled platform spawns one carrot, in a slot that is acquirable: the
   * slot is none of the slots taken earlier in the pass, since those hold
   * live carrots.
   */
  lemma {:induction false} SpawnedRecycle(before: seq<Platform>, after: seq<Platform>, scrollY: real,
                                          pool: seq<Carrot>, carrots: seq<Carrot>, spawned: map<nat, nat>,
                                          p: Platform, gap: int, slot: nat)
    requires |before| == |after|
    requires SpawnedOnePerRecycled(before, after, scrollY, pool, carrots, spawned)
    requires Stale(p, scrollY) && MinGap <= gap <= MaxGap
    requires Acquirable(carrots, slot)
    ensures var q := Recycle(p, scrollY, gap);
            SpawnedOnePerRecycled(before + [p], after + [q], scrollY, pool,
                                  Placed(carrots, slot, CarrotAbove(q)), spawned[|before| := slot])
  {
    var q := Recycle(p, scrollY, gap);
    var b', a' := before + [p], after + [q];
    var c' := Placed(carrots, slot, CarrotAbove(q));
    var sp' := spawned[|before| := slot];
    assert StaleIndices(b', scrollY) == StaleIndices(before, scrollY) + {|before|} by {
      forall i: nat | i < |b'|
        ensures Stale(b'[i], scrollY) <==> (i < |before| && Stale(before[i], scrollY)) || i == |before|
      {
      }
    }
    assert |before| !in spawned;
    assert slot !in spawned.Values by {
      forall i | i in spawned
        ensures spawned[i] != slot
      {
        assert carrots[spawned[i]].active;
      }
    }
    forall i | i in sp'
      ensures i < |a'| && sp'[i] < |c'| && c'[sp'[i]] == CarrotAbove(a'[i])
    {
      if i != |before| {
        assert spawned[i] != slot;
      }
    }
    forall i, j | i in sp' && j in sp' && i != j
      ensures sp'[i] != sp'[j]
    {
    }
    assert spawned.Values <= sp'.Values by {
      forall v | v in spawned.Values
        ensures v in sp'.Values
      {
        var i :| i in spawned && spawned[i] == v;
        assert sp'[i] == v;
      }
    }
    forall s | 0 <= s < |pool| && s !in sp'.Values
      ensures c'[s] == pool[s]
    {
      assert s != slot by {
        assert sp'[|before|] == slot;
      }
    }
    forall s | |pool| <= s < |c'|
      ensures s in sp'.Values
    {
      if s == slot {
        assert sp'[|before|] == slot;
      } else {
        assert s < |carrots| && s in spawned.Values;
        var i :| i in spawned && spawned[i] == s;
        assert sp'[i] == s;
      }
    }
  }
}
