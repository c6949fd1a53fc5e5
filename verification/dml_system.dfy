/**
 * The bullet system (Dml/DmlSystem.cs): the global objects, the bullets on
 * screen, the bullets spawned during a frame and waiting to be added, and the
 * timeline. The number of bullets on screen never passes `BulletCap`.
 *
 * What a bullet's own update does (its behaviours and components move it,
 * may kill it and may spawn bullets) is the parameter `step`; the globals the
 * global code assigns are the parameter `globalCode`; what the code of the timestamps
 * a timeline update runs does (spawn bullets, assign globals) is the
 * parameter `code`.
 */
module DmlSystems {
  import opened DmlObjects
  import opened DmlTimestamps
  import opened DmlTimelines
  import Sequences

  /** `BULLET_CAP`: the most bullets on screen at once. */
  const BulletCap: nat := 5000

  /** A bullet, as far as the system looks at it: an identity and `Dead`. */
  datatype Bullet = Bullet(id: nat, dead: bool)

  /** `GlobalVars`, `Bullets`, `ToAdd`, `Begun` and `Timeline`. */
  datatype DmlSystem = DmlSystem(
    globals: map<string, DmlObject>,
    bullets: seq<Bullet>,
    toAdd: seq<Bullet>,
    begun: bool,
    timeline: Timeline)

  /** The cap holds. */
  predicate WithinCap(sys: DmlSystem) {
    |sys.bullets| <= BulletCap
  }

  /**
   * `new DmlSystem(globalCode, timeline, bullets)`: every bullet factory is a
   * global object of type `BulletClass` under its own name; nothing else is
   * global, and there are no bullets yet.
   */
  function NewSystem(timeline: Timeline, factories: set<string>): (sys: DmlSystem)
    ensures sys.globals.Keys == factories
    ensures forall name :: name in sys.globals ==> sys.globals[name] == BulletClassObj(name)
    ensures |sys.bullets| == 0 && |sys.toAdd| == 0 && !sys.begun && sys.timeline == timeline
  {
    DmlSystem(map name | name in factories :: BulletClassObj(name), [], [], false, timeline)
  }

  /**
   * `AddBullet`: at the cap the bullet is ignored; a running system queues it
   * for the next frame; a system that has not begun puts it on screen at once.
   */
  function AddBullet(sys: DmlSystem, b: Bullet): (r: DmlSystem)
    ensures |sys.bullets| >= BulletCap ==> r == sys
    ensures |sys.bullets| < BulletCap && sys.begun ==> r == sys.(toAdd := sys.toAdd + [b])
    ensures |sys.bullets| < BulletCap && !sys.begun ==> r == sys.(bullets := sys.bullets + [b])
  {
    if |sys.bullets| >= BulletCap then sys
    else if sys.begun then sys.(toAdd := sys.toAdd + [b])
    else sys.(bullets := sys.bullets + [b])
  }

  /** Adding bullets one at a time never passes the cap. */
  lemma AddBulletKeepsCap(sys: DmlSystem, b: Bullet)
    requires WithinCap(sys)
    ensures WithinCap(AddBullet(sys, b))
    ensures |AddBullet(sys, b).bullets| == BulletCap ==> |AddBullet(AddBullet(sys, b), b).bullets| == BulletCap
  {
  }

  /**
   * What the global code does when `Begin` runs it: the globals it assigns,
   * given the system it sees. It runs as a code block with no bullet, so it
   * cannot reach the behaviours that spawn bullets, and it adds no
   * timestamps (only the timeline builder does).
   */
  type GlobalCode = DmlSystem -> map<string, DmlObject>

  /**
   * `Begin`: the global code runs and assigns its globals; then the system
   * and its timeline begin, the timeline with its waiting timestamps sorted.
   * The bullets on screen and in the queue are left alone.
   */
  function Begin(sys: DmlSystem, globalCode: GlobalCode): (r: DmlSystem)
    ensures r.begun && r.timeline.begun && SortedByStart(r.timeline.waiting)
    ensures multiset(r.timeline.waiting) == multiset(sys.timeline.waiting)
    ensures r.timeline.inPlay == sys.timeline.inPlay && r.timeline.localTime == sys.timeline.localTime
    ensures r.bullets == sys.bullets && r.toAdd == sys.toAdd
    ensures r.globals.Keys == sys.globals.Keys + globalCode(sys).Keys
    ensures forall name :: name in r.globals ==>
      r.globals[name] == if name in globalCode(sys) then globalCode(sys)[name] else sys.globals[name]
  {
    sys.(globals := sys.globals + globalCode(sys), begun := true, timeline := DmlTimelines.Begin(sys.timeline))
  }

  /**
   * `Begin` keeps the cap, and afterwards the system is running: a bullet
   * added to it is queued for the next frame instead of going on screen.
   */
  lemma BeginKeepsCap(sys: DmlSystem, globalCode: GlobalCode, b: Bullet)
    requires WithinCap(sys)
    ensures WithinCap(Begin(sys, globalCode))
    ensures |sys.bullets| < BulletCap ==>
      AddBullet(Begin(sys, globalCode), b).toAdd == sys.toAdd + [b] &&
      AddBullet(Begin(sys, globalCode), b).bullets == sys.bullets
  {
  }

  // ---------------------------------------------------------------------------
  // One frame
  // ---------------------------------------------------------------------------

  /** A bullet's update: the bullet afterwards and the bullets it spawned, in order. */
  type Step = Bullet -> (Bullet, seq<Bullet>)

  /** The `foreach` over the bullets: each bullet updated, and everything they spawned. */
  function UpdateAll(bullets: seq<Bullet>, step: Step): (r: (seq<Bullet>, seq<Bullet>))
    ensures |r.0| == |bullets|
    ensures forall i :: 0 <= i < |bullets| ==> r.0[i] == step(bullets[i]).0
  {
    if |bullets| == 0 then ([], [])
    else
      var rest := UpdateAll(bullets[1..], step);
      var (b, spawned) := step(bullets[0]);
      ([b] + rest.0, spawned + rest.1)
  }

  /**
   * `UpdateAll` runs each bullet's update in turn: on a split list it is the
   * run over the first part followed by the run over the second. With
   * `UpdateOneBullet`, the spawned bullets are those of each bullet,
   * concatenated in the order of the bullets.
   */
  lemma {:induction false} UpdateAllSplits(a: seq<Bullet>, b: seq<Bullet>, step: Step)
    ensures UpdateAll(a + b, step).0 == UpdateAll(a, step).0 + UpdateAll(b, step).0
    ensures UpdateAll(a + b, step).1 == UpdateAll(a, step).1 + UpdateAll(b, step).1
    decreases |a|
  {
    if |a| > 0 {
      var x, a', rest := a[0], a[1..], UpdateAll(a[1..], step);
      assert (a + b)[0] == x && (a + b)[1..] == a' + b;
      UpdateAllUnfold(a, step);
      UpdateAllUnfold(a + b, step);
      UpdateAllSplits(a', b, step);
      Sequences.ConsAssoc(step(x).1, rest.1, UpdateAll(b, step).1);
      Sequences.ConsAssoc([step(x).0], rest.0, UpdateAll(b, step).0);
    } else {
      assert a + b == b;
    }
  }

  /** On one bullet, `UpdateAll` is that bullet's update. */
  lemma UpdateOneBullet(x: Bullet, step: Step)
    ensures UpdateAll([x], step) == ([step(x).0], step(x).1)
  {
    UpdateAllUnfold([x], step);
    assert [x][1..] == [];
    assert UpdateAll([], step) == ([], []);
    assert UpdateAll([x], step).0 == [step(x).0];
    assert UpdateAll([x], step).1 == step(x).1;
  }

  /** One step of `UpdateAll`: the first bullet's update, then the rest. */
  lemma UpdateAllUnfold(bullets: seq<Bullet>, step: Step)
    requires |bullets| > 0
    ensures UpdateAll(bullets, step).0 == [step(bullets[0]).0] + UpdateAll(bullets[1..], step).0
    ensures UpdateAll(bullets, step).1 == step(bullets[0]).1 + UpdateAll(bullets[1..], step).1
  {
  }

  /**
   * The `foreach` over `ToAdd`: queued bullets join those on screen, in
   * order, until the cap is reached. What joins is a prefix of the queue; all
   * of it joins unless the screen is full.
   */
  function Flush(onScreen: seq<Bullet>, queue: seq<Bullet>): (r: seq<Bullet>)
    ensures |onScreen| <= |r| <= |onScreen| + |queue|
    ensures r == onScreen + queue[..|r| - |onScreen|]
    ensures |r| < |onScreen| + |queue| ==> |r| >= BulletCap
    ensures |onScreen| <= BulletCap ==> |r| <= BulletCap
    decreases |queue|
  {
    if |queue| == 0 then onScreen
    else if |onScreen| >= BulletCap then onScreen
    else
      var r := Flush(onScreen + [queue[0]], queue[1..]);
      assert queue[..|r| - |onScreen|] == [queue[0]] + queue[1..][..|r| - |onScreen| - 1];
      r
  }

  /** `Bullets.RemoveAll(b => b.Dead)`: the live bullets, in order. */
  function RemoveDead(bullets: seq<Bullet>): (r: seq<Bullet>)
    ensures |r| <= |bullets|
    ensures forall b :: multiset(r)[b] == if b.dead then 0 else multiset(bullets)[b]
  {
    if |bullets| == 0 then []
    else
      assert bullets == [bullets[0]] + bullets[1..];
      (if bullets[0].dead then [] else [bullets[0]]) + RemoveDead(bullets[1..])
  }

  /**
   * What the code of the timestamps that ran did to the system: the bullets
   * it spawned (`Spawn` calls `AddBullet`), in order, and the globals it
   * assigned (`AssignGlobal`).
   */
  datatype Effect = Effect(spawns: seq<Bullet>, writes: map<string, DmlObject>)

  /** The code a timeline update runs: its effect, given the timestamps that ran and the system they see. */
  type TimelineCode = (seq<Timestamp>, DmlSystem) -> Effect

  /** `AddBullet` for each bullet in turn. */
  function AddAll(sys: DmlSystem, bs: seq<Bullet>): (r: DmlSystem)
    decreases |bs|
  {
    if |bs| == 0 then sys else AddAll(AddBullet(sys, bs[0]), bs[1..])
  }

  /**
   * Spawning into a running system never changes the screen: the bullets
   * are queued, all of them, unless the screen is full, when none is.
   */
  lemma {:induction false} AddAllQueues(sys: DmlSystem, bs: seq<Bullet>)
    requires sys.begun
    ensures AddAll(sys, bs) == sys.(toAdd := sys.toAdd + if |sys.bullets| >= BulletCap then [] else bs)
    decreases |bs|
  {
    if |bs| > 0 {
      AddAllQueues(AddBullet(sys, bs[0]), bs[1..]);
      if |sys.bullets| < BulletCap {
        assert sys.toAdd + [bs[0]] + bs[1..] == sys.toAdd + bs;
      }
    }
  }

  /**
   * The system after the bullets' part of a frame of a running system:
   * every bullet updated, the queue flushed up to the cap and cleared, the
   * dead bullets removed.
   */
  function Cleared(sys: DmlSystem, step: Step): (r: DmlSystem)
    ensures r.toAdd == [] && r.globals == sys.globals && r.timeline == sys.timeline && r.begun == sys.begun
  {
    var (updated, spawned) := UpdateAll(sys.bullets, step);
    var queue := sys.toAdd + (if |sys.bullets| >= BulletCap then [] else spawned);
    sys.(bullets := RemoveDead(Flush(updated, queue)), toAdd := [])
  }

  /**
   * `Update`: nothing happens before `Begin`. Otherwise every bullet updates;
   * the bullets they spawn are queued only if the screen was not full when
   * they were spawned (`AddBullet` on a running system); the queue is flushed
   * up to the cap and cleared; the dead bullets go; then the timeline
   * updates and the code of the timestamps that ran takes effect, its
   * spawns queued for the next frame.
   */
  function Update(sys: DmlSystem, step: Step, code: TimelineCode, deltaTime: int): (r: DmlSystem)
  {
    if !sys.begun then sys
    else
      var cleared := Cleared(sys, step);
      var updated := DmlTimelines.Update(sys.timeline, deltaTime);
      var effect := code(updated.ran, cleared);
      AddAll(cleared.(globals := cleared.globals + effect.writes, timeline := updated.timeline), effect.spawns)
  }

  /**
   * A frame of a running system: the screen is that of `Cleared`; what is
   * queued afterwards is exactly what the timeline's code spawned, unless
   * the screen is full; the globals are those the code assigned over the
   * old ones; the timeline took one update. Before `Begin` nothing changes.
   */
  lemma UpdateEffects(sys: DmlSystem, step: Step, code: TimelineCode, deltaTime: int)
    ensures !sys.begun ==> Update(sys, step, code, deltaTime) == sys
    ensures sys.begun ==>
      var r := Update(sys, step, code, deltaTime);
      var updated := DmlTimelines.Update(sys.timeline, deltaTime);
      var effect := code(updated.ran, Cleared(sys, step));
      r.begun && r.bullets == Cleared(sys, step).bullets
      && r.toAdd == (if |r.bullets| >= BulletCap then [] else effect.spawns)
      && r.globals == sys.globals + effect.writes
      && r.timeline == updated.timeline
  {
    if sys.begun {
      var cleared := Cleared(sys, step);
      var updated := DmlTimelines.Update(sys.timeline, deltaTime);
      var effect := code(updated.ran, cleared);
      var s := cleared.(globals := cleared.globals + effect.writes, timeline := updated.timeline);
      assert Update(sys, step, code, deltaTime) == AddAll(s, effect.spawns);
      SpawnsQueued(s, effect.spawns);
    }
  }

  /** Spawning into a running system with an empty queue queues the spawns unless the screen is full. */
  lemma SpawnsQueued(s: DmlSystem, spawns: seq<Bullet>)
    requires s.begun && s.toAdd == []
    ensures var r := AddAll(s, spawns);
      r.begun && r.bullets == s.bullets && r.globals == s.globals && r.timeline == s.timeline
      && r.toAdd == (if |r.bullets| >= BulletCap then [] else spawns)
  {
    AddAllQueues(s, spawns);
  }

  /** The queue an update of a running system flushes. */
  function Queue(sys: DmlSystem, step: Step): (q: seq<Bullet>)
    ensures |sys.bullets| >= BulletCap ==> q == sys.toAdd
  {
    sys.toAdd + (if |sys.bullets| >= BulletCap then [] else UpdateAll(sys.bullets, step).1)
  }

  /**
   * After a frame the cap still holds and no dead bullet is on screen: each
   * bullet on screen is a live bullet that was on screen (updated) or queued.
   */
  lemma UpdateKeepsCap(sys: DmlSystem, step: Step, code: TimelineCode, deltaTime: int)
    requires WithinCap(sys)
    ensures WithinCap(Update(sys, step, code, deltaTime))
    ensures sys.begun ==> forall b :: b in Update(sys, step, code, deltaTime).bullets ==>
      !b.dead && (b in UpdateAll(sys.bullets, step).0 || b in Queue(sys, step))
  {
    UpdateEffects(sys, step, code, deltaTime);
    if sys.begun {
      FlushedAreLive(UpdateAll(sys.bullets, step).0, Queue(sys, step));
    }
  }

  /** What stays on screen after the flush is alive and was on screen or queued. */
  lemma FlushedAreLive(updated: seq<Bullet>, queue: seq<Bullet>)
    ensures forall b :: b in RemoveDead(Flush(updated, queue)) ==> !b.dead && (b in updated || b in queue)
  {
    var flushed := Flush(updated, queue);
    forall b | b in RemoveDead(flushed)
      ensures !b.dead && (b in updated || b in queue)
    {
      assert multiset(RemoveDead(flushed))[b] > 0;
      assert b in flushed;
      var k := |flushed| - |updated|;
      assert flushed == updated + queue[..k];
    }
  }

  /**
   * While there is room, no bullet is lost: when everything queued fits under
   * the cap, every queued bullet that is alive is on screen after the frame.
   */
  lemma QueuedBulletsJoinWhenThereIsRoom(sys: DmlSystem, step: Step, code: TimelineCode, deltaTime: int, b: Bullet)
    requires sys.begun && |sys.bullets| + |Queue(sys, step)| <= BulletCap
    requires b in Queue(sys, step) && !b.dead
    ensures b in Update(sys, step, code, deltaTime).bullets
  {
    UpdateEffects(sys, step, code, deltaTime);
    LiveQueuedAreFlushed(UpdateAll(sys.bullets, step).0, Queue(sys, step), b);
  }

  /** A live queued bullet stays on screen after a flush that has room for the whole queue. */
  lemma LiveQueuedAreFlushed(updated: seq<Bullet>, queue: seq<Bullet>, b: Bullet)
    requires |updated| + |queue| <= BulletCap && b in queue && !b.dead
    ensures b in RemoveDead(Flush(updated, queue))
  {
    var flushed := Flush(updated, queue);
    assert flushed == updated + queue;
    assert b in flushed;
    assert multiset(RemoveDead(flushed))[b] > 0;
  }

  /**
   * A full screen spawns nothing: bullets spawned during a frame that begins
   * at the cap are never queued, and only the earlier queue is flushed.
   */
  lemma FullScreenDropsSpawns(sys: DmlSystem, step: Step, code: TimelineCode, deltaTime: int)
    requires sys.begun && |sys.bullets| == BulletCap
    ensures Update(sys, step, code, deltaTime).bullets == RemoveDead(UpdateAll(sys.bullets, step).0)
  {
    UpdateEffects(sys, step, code, deltaTime);
  }
}
