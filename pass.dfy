/**
 * The frame update of the entities manager (entities.manager.ts): the
 * for-of over the entity array that updates every entity and removes the
 * ones whose `shouldRemove` holds, and the two spawners that follow it.
 *
 * The for-of iterates over the array object `this.entities` held when the
 * loop began. `addEntity` pushes onto and sorts that same object, so flames
 * a rocket emits are visited later in the same loop; `removeEntity`
 * assigns a fresh filtered array, so after the first removal the loop goes
 * on over the old array, which nothing changes any more.
 */
module Passes {
  import opened Wrappers
  import opened Vectors
  import opened Chance
  import N = Numerics
  import opened Bodies
  import opened EntityList
  import opened Scenes
  import opened Draws
  import Config
  import Ships
  import Asteroids
  import Bullets
  import Rockets
  import Sparks
  import Flames
  import Indicators
  import Flammable

  /** The canvas size, the supplied numerics and the random draws of a frame. */
  datatype Env = Env(width: real, height: real, num: N.Numerics, dice: Dice)

  // ---------------------------------------------------------------- one entity

  /** What a rocket sees of the manager's ship, which always exists. */
  function TargetOf(s: Scene): Rockets.Target
    requires s.ship in s.heap && s.heap[s.ship].ShipBody?
  {
    var ship := s.heap[s.ship].ship;
    if ship.isDead then Rockets.DeadShip else Rockets.LiveShip(ship.t.position)
  }

  /** The frame `tracking` computes, with the factors of `setMag(7)` and `limit(0.08)`. */
  function RocketFrame(r: Rockets.RocketState, target: Rockets.Target, num: N.Numerics): (f: Rockets.Frame)
    requires N.Exact(num)
    ensures f.target == target
  {
    if target.LiveShip? then
      var toTarget := Sub(target.position, r.t.position);
      var k1 := N.SetMagBy(num, toTarget, Config.ROCKET_MAX_SPEED);
      var k2 := N.LimitBy(num, Sub(Scale(toTarget, k1), r.t.velocity), Config.ROCKET_STEER_FORCE);
      N.SetMagByIsFactor(num, toTarget, Config.ROCKET_MAX_SPEED);
      N.LimitByIsFactor(num, Sub(Scale(toTarget, k1), r.t.velocity), Config.ROCKET_STEER_FORCE);
      Rockets.FrameOf(r, target, k1, k2)
    else
      Rockets.FrameOf(r, target, 0.0, 0.0)
  }

  /**
   * The flames `createFlames` makes in that update: behind the steered
   * velocity, drawn for the identities from `s.nextId` on.
   */
  function RocketBurst(s: Scene, r: Rockets.RocketState, f: Rockets.Frame, e: Env): seq<Flames.FlameState> {
    var velocity := Vectors.Add(r.t.velocity, f.steer);
    var heading := e.num.heading(velocity);
    var back := e.num.fromAngle(heading + N.PI);
    Rockets.ExhaustFlames(Rockets.Exhaust(r, f, back, heading), FlameDraws(e.num, e.dice, s.nextId, heading))
  }

  function FlameBodies(fs: seq<Flames.FlameState>): (r: seq<Body>)
    ensures |r| == |fs| && forall k :: 0 <= k < |fs| ==> r[k] == FlameBody(fs[k])
  {
    seq(|fs|, k requires 0 <= k < |fs| => FlameBody(fs[k]))
  }

  /** `update` of an entity of any class but the rocket: its own step function. */
  function Aged(b: Body, width: real, height: real): Body
    requires !b.RocketBody?
  {
    match b
    case ShipBody(x) => ShipBody(Ships.Step(x, width, height))
    case AsteroidBody(a) => AsteroidBody(Asteroids.Step(a, width, height))
    case BulletBody(u) => BulletBody(Bullets.Step(u, width, height))
    case SparkBody(p) => SparkBody(Sparks.Step(p, width, height))
    case FlameBody(f) => FlameBody(Flames.Step(f, width, height))
    case IndicatorBody(i) => IndicatorBody(Indicators.Step(i))
  }

  /**
   * `entity.update()` for the entity `id`: its new state, and the flames it
   * adds to the manager (a launched rocket, while the ship lives).
   */
  function Advance(s: Scene, id: Id, e: Env): (r: (Body, seq<Body>))
    requires WellFormed(s) && id in s.heap && N.Exact(e.num)
    ensures SameClass(r.0, s.heap[id]) && Sound(r.0)
    ensures |r.1| == if s.heap[id].RocketBody? && s.heap[id].rocket.allowLaunch && !s.heap[s.ship].ship.isDead
                     then Rockets.FLAME_COUNT else 0
    ensures forall k :: 0 <= k < |r.1| ==> r.1[k].FlameBody? && Admissible(r.1[k]) && !Expired(r.1[k])
  {
    var b := s.heap[id];
    if b.RocketBody? then
      var f := RocketFrame(b.rocket, TargetOf(s), e.num);
      var flames := RocketBurst(s, b.rocket, f, e);
      FlamesLive(s, b.rocket, f, e);
      (RocketBody(Rockets.Step(b.rocket, f, e.width, e.height)), FlameBodies(flames))
    else
      assert b.AsteroidBody? ==> Asteroids.Step(b.asteroid, e.width, e.height).t.radius == b.asteroid.t.radius by {
        if b.AsteroidBody? {
          Transformable.IntegrateLinear(b.asteroid.t, e.width, e.height);
        }
      }
      (Aged(b, e.width, e.height), [])
  }

  /** A burst is five live flames exactly when the rocket is launched and sees a live ship. */
  lemma FlamesLive(s: Scene, r: Rockets.RocketState, f: Rockets.Frame, e: Env)
    ensures |RocketBurst(s, r, f, e)| == if f.target.LiveShip? && r.allowLaunch then Rockets.FLAME_COUNT else 0
    ensures forall k :: 0 <= k < |RocketBurst(s, r, f, e)| ==> !Flames.Expired(RocketBurst(s, r, f, e)[k])
  {
    var velocity := Vectors.Add(r.t.velocity, f.steer);
    var heading := e.num.heading(velocity);
    var back := e.num.fromAngle(heading + N.PI);
    var em := Rockets.Exhaust(r, f, back, heading);
    var draws := FlameDraws(e.num, e.dice, s.nextId, heading);
    if em.Some? {
      var p := em.value;
      Flammable.BurstShape(p.position, p.velocity, p.heading, Rockets.FLAME_COUNT, Rockets.FLAME_COLORS, draws);
      forall k | 0 <= k < Rockets.FLAME_COUNT
        ensures !Flames.Expired(Rockets.ExhaustFlames(em, draws)[k])
      {
        Flammable.FlameInRange(p.position, p.velocity, p.heading, Rockets.FLAME_COLORS, draws(k));
      }
    }
  }

  /** An entity's update, as far as the manager's loop is concerned. */
  ghost predicate UpdatedFrom(b: Body, c: Body, e: Env) {
    if b.RocketBody? then
      exists f: Rockets.Frame :: c == RocketBody(Rockets.Step(b.rocket, f, e.width, e.height))
    else c == Aged(b, e.width, e.height)
  }

  lemma AdvanceUpdates(s: Scene, id: Id, e: Env)
    requires WellFormed(s) && id in s.heap && N.Exact(e.num)
    ensures UpdatedFrom(s.heap[id], Advance(s, id, e).0, e)
  {
    var b := s.heap[id];
    if b.RocketBody? {
      var f := RocketFrame(b.rocket, TargetOf(s), e.num);
      assert Advance(s, id, e).0 == RocketBody(Rockets.Step(b.rocket, f, e.width, e.height));
    }
  }

  // ---------------------------------------------------------------- the update as the loop sees it

  /** `entity.update()` for the entity `id` of a scene: its new state and the entities it adds. */
  type Update = (Scene, Id) --> (Body, seq<Body>)

  /**
   * What the loop relies on of one update of an entity in state `b`: the
   * class is kept and the state stays sound; only a rocket adds entities,
   * at most five flames, each live.
   */
  ghost predicate Fits(b: Body, r: (Body, seq<Body>)) {
    SameClass(r.0, b) && Sound(r.0)
    && |r.1| <= (if b.RocketBody? then Rockets.FLAME_COUNT else 0)
    && forall k :: 0 <= k < |r.1| ==> r.1[k].FlameBody? && Admissible(r.1[k]) && !Expired(r.1[k])
  }

  /** An update defined on every entity of every well-formed scene, and fitting there. */
  ghost predicate Proper(upd: Update) {
    forall s: Scene, id: Id {:trigger upd.requires(s, id)} :: WellFormed(s) && id in s.heap ==> upd.requires(s, id) && Fits(s.heap[id], upd(s, id))
  }

  /** The entities' own `update` methods, under the frame's canvas, numerics and draws. */
  function Entities(e: Env): Update {
    (s: Scene, id: Id) requires WellFormed(s) && id in s.heap && N.Exact(e.num) => Advance(s, id, e)
  }

  lemma EntitiesProper(e: Env)
    requires N.Exact(e.num)
    ensures Proper(Entities(e))
  {
    forall s: Scene, id: Id | WellFormed(s) && id in s.heap
      ensures Entities(e).requires(s, id) && Fits(s.heap[id], Entities(e)(s, id))
    {
      assert Entities(e)(s, id) == Advance(s, id, e);
    }
  }

  /** Entity `x` went from state `b` to `c` by one update, in some scene where it had state `b`. */
  ghost predicate UpdatedBy(upd: Update, x: Id, b: Body, c: Body) {
    exists v: Scene :: WellFormed(v) && x in v.heap && v.heap[x] == b && upd.requires(v, x) && upd(v, x).0 == c
  }

  /** One pass of the loop body: `update`, with the flames it adds to the array. */
  function Visit(s: Scene, id: Id, upd: Update): (r: Scene)
    requires WellFormed(s) && id in s.heap && Proper(upd)
    ensures Changes(s, r, {}, {id})
    ensures id in r.heap && r.heap[id] == upd(s, id).0
    ensures r.nextId == s.nextId + |upd(s, id).1|
    ensures forall x :: s.nextId <= x < r.nextId ==> x in r.heap && r.heap[x].FlameBody? && !Expired(r.heap[x])
  {
    ApplyChanges(s, id, upd(s, id));
    AddAll(SetBody(s, id, upd(s, id).0), upd(s, id).1)
  }

  /** Setting one entity's state and adding entities after it. */
  lemma ApplyChanges(s: Scene, id: Id, u: (Body, seq<Body>))
    requires WellFormed(s) && id in s.heap && Fits(s.heap[id], u)
    ensures var r := AddAll(SetBody(s, id, u.0), u.1);
      Changes(s, r, {}, {id}) && id in r.heap && r.heap[id] == u.0 && r.nextId == s.nextId + |u.1|
      && forall x :: s.nextId <= x < r.nextId ==> x in r.heap && r.heap[x].FlameBody? && !Expired(r.heap[x])
  {
    SetBodyChanges(s, id, u.0);
    var s0 := SetBody(s, id, u.0);
    AddAllChanges(s0, u.1);
    ChangesCompose(s, s0, AddAll(s0, u.1), {}, {id}, {}, {});
  }

  // ---------------------------------------------------------------- measure

  /** A rocket may leave five flames behind it in the array; every entity is visited once. */
  function Cost(b: Body): nat {
    if b.RocketBody? then 1 + Rockets.FLAME_COUNT else 1
  }

  /** The visits an array can still cause. */
  function Weight(ids: seq<Id>, heap: Heap): nat
    requires Stored(ids, heap)
    decreases |ids|
  {
    if |ids| == 0 then 0 else Weight(ids[..|ids| - 1], heap) + Cost(heap[ids[|ids| - 1]])
  }

  lemma {:induction false} WeightAppend(a: seq<Id>, b: seq<Id>, heap: Heap)
    requires Stored(a, heap) && Stored(b, heap)
    ensures Stored(a + b, heap) && Weight(a + b, heap) == Weight(a, heap) + Weight(b, heap)
    decreases |b|
  {
    if |b| == 0 {
      assert a + b == a;
    } else {
      WeightAppend(a, b[..|b| - 1], heap);
      assert (a + b)[..|a + b| - 1] == a + b[..|b| - 1];
    }
  }

  lemma {:induction false} WeightAgree(ids: seq<Id>, h1: Heap, h2: Heap)
    requires Stored(ids, h1) && Stored(ids, h2)
    requires forall k :: 0 <= k < |ids| ==> Cost(h1[ids[k]]) == Cost(h2[ids[k]])
    ensures Weight(ids, h1) == Weight(ids, h2)
    decreases |ids|
  {
    if |ids| > 0 {
      WeightAgree(ids[..|ids| - 1], h1, h2);
    }
  }

  lemma WeightFrom(ids: seq<Id>, heap: Heap, i: nat)
    requires Stored(ids, heap) && i < |ids|
    ensures Weight(ids[i..], heap) == Cost(heap[ids[i]]) + Weight(ids[i + 1..], heap)
  {
    assert ids[i..] == [ids[i]] + ids[i + 1..];
    WeightAppend([ids[i]], ids[i + 1..], heap);
    assert [ids[i]][..0] == [];
  }

  lemma InsertWeight(ids: seq<Id>, heap: Heap, id: Id)
    requires Stored(ids, heap) && id in heap
    ensures Weight(Insert(ids, heap, id), heap) == Weight(ids, heap) + Cost(heap[id])
  {
    InsertSplits(ids, heap, id);
    var k := InsertAt(ids, heap, id);
    WeightAppend(ids[..k], [id], heap);
    WeightAppend(ids[..k] + [id], ids[k..], heap);
    WeightAppend(ids[..k], ids[k..], heap);
    assert ids == ids[..k] + ids[k..];
    assert [id][..0] == [];
  }

  /** An entity inserted at or above the draw order of entry `i` lands after it. */
  lemma InsertTail(ids: seq<Id>, heap: Heap, id: Id, i: nat)
    requires Stored(ids, heap) && id in heap && i < |ids|
    requires ZIndex(heap[ids[i]]) <= ZIndex(heap[id])
    ensures Insert(ids, heap, id)[..i + 1] == ids[..i + 1]
    ensures Weight(Insert(ids, heap, id)[i + 1..], heap) == Weight(ids[i + 1..], heap) + Cost(heap[id])
  {
    InsertKeepsPrefix(ids, heap, id, i);
    InsertWeight(ids, heap, id);
    var r := Insert(ids, heap, id);
    assert r == r[..i + 1] + r[i + 1..];
    WeightAppend(r[..i + 1], r[i + 1..], heap);
    assert ids == ids[..i + 1] + ids[i + 1..];
    WeightAppend(ids[..i + 1], ids[i + 1..], heap);
  }

  /** Flames added while entry `i` draws at order 0 all land after it, one visit each. */
  lemma {:induction false} AddFlamesTail(s: Scene, fs: seq<Body>, i: nat)
    requires Stored(s.entities, s.heap) && forall id :: id in s.heap ==> id < s.nextId
    requires i < |s.entities| && ZIndex(s.heap[s.entities[i]]) == 0
    requires forall k :: 0 <= k < |fs| ==> fs[k].FlameBody?
    ensures var r := AddAll(s, fs);
      |r.entities| == |s.entities| + |fs| && r.entities[..i + 1] == s.entities[..i + 1]
      && Weight(r.entities[i + 1..], r.heap) == Weight(s.entities[i + 1..], s.heap) + |fs|
    decreases |fs|
  {
    if |fs| > 0 {
      var heap := s.heap[s.nextId := fs[0]];
      var s1 := Scenes.Add(s, fs[0]);
      var tail := s.entities[i + 1..];
      assert Stored(tail, heap) && Stored(s.entities, heap);
      WeightAgree(tail, s.heap, heap);
      InsertTail(s.entities, heap, s.nextId, i);
      assert s1.entities[i] == s.entities[i];
      AddFlamesTail(s1, fs[1..], i);
      assert AddAll(s, fs) == AddAll(s1, fs[1..]);
    }
  }


  /**
   * Visiting entry `i` of the live array keeps the entries up to `i`, never
   * shrinks the array, and lowers the visits still to come.
   */
  lemma VisitTail(s: Scene, i: nat, upd: Update)
    requires WellFormed(s) && Proper(upd) && i < |s.entities|
    ensures var r := Visit(s, s.entities[i], upd);
      |r.entities| >= |s.entities| && r.entities[..i + 1] == s.entities[..i + 1]
      && Weight(r.entities[i + 1..], r.heap) < Weight(s.entities[i..], s.heap)
  {
    var id := s.entities[i];
    var u := upd(s, id);
    var s0 := SetBody(s, id, u.0);
    SetBodyWellFormed(s, id, u.0);
    var tail := s.entities[i + 1..];
    assert forall k :: 0 <= k < |tail| ==> SameClass(s.heap[tail[k]], s0.heap[tail[k]]);
    WeightAgree(tail, s.heap, s0.heap);
    WeightFrom(s.entities, s.heap, i);
    if |u.1| > 0 {
      AddFlamesTail(s0, u.1, i);
    } else {
      assert AddAll(s0, u.1) == s0;
    }
  }

  // ---------------------------------------------------------------- the loop

  /** The array the for-of walks: the manager's own while `live`, else the one it held at the first removal. */
  function Walked(s: Scene, frozen: seq<Id>, live: bool): seq<Id> {
    if live then s.entities else frozen
  }

  /** Where the loop is: a well-formed scene, a position within the walked array, and a frozen array of stored, distinct entities. */
  predicate At(s: Scene, frozen: seq<Id>, live: bool, i: nat) {
    WellFormed(s) && i <= |Walked(s, frozen, live)| && (!live ==> Stored(frozen, s.heap) && Distinct(frozen))
  }

  /** The loop's state after a visit. */
  datatype Cursor = Cursor(scene: Scene, frozen: seq<Id>, live: bool)

  /**
   * After visiting `id`: `removeEntity` when its new state asks for removal,
   * which leaves the loop walking the array it held.
   */
  function After(s1: Scene, id: Id, frozen: seq<Id>, live: bool): (c: Cursor)
    requires id in s1.heap
  {
    if Expired(s1.heap[id]) then Cursor(Remove(s1, id), Walked(s1, frozen, live), false)
    else Cursor(s1, frozen, live)
  }

  /** What the loop relies on about visiting `id` in `s`, giving `s1`: only `id` changes, and new entities are live. */
  ghost predicate Visited(s: Scene, s1: Scene, id: Id) {
    id in s.heap && id in s1.heap && Changes(s, s1, {}, {id})
    && forall x :: x in s1.heap && s.nextId <= x ==> !Expired(s1.heap[x])
  }

  /** Visiting entry `i` of the live array leaves the entries up to `i` where they were. */
  ghost predicate KeepsPrefix(s: Scene, s1: Scene, i: nat) {
    i < |s.entities| && i < |s1.entities| && s1.entities[..i + 1] == s.entities[..i + 1]
  }

  lemma VisitVisited(s: Scene, id: Id, upd: Update)
    requires WellFormed(s) && id in s.heap && Proper(upd)
    ensures Visited(s, Visit(s, id, upd), id)
    ensures UpdatedBy(upd, id, s.heap[id], Visit(s, id, upd).heap[id])
  {
  }

  lemma AfterAt(s: Scene, s1: Scene, frozen: seq<Id>, live: bool, i: nat)
    requires At(s, frozen, live, i) && i < |Walked(s, frozen, live)|
    requires Visited(s, s1, Walked(s, frozen, live)[i])
    requires live ==> KeepsPrefix(s, s1, i)
    ensures var c := After(s1, Walked(s, frozen, live)[i], frozen, live);
      At(c.scene, c.frozen, c.live, i + 1) && Later(s, c.scene) && c.scene.heap == s1.heap
  {
    var id := Walked(s, frozen, live)[i];
    if Expired(s1.heap[id]) {
      RemoveChanges(s1, id);
    }
  }

  /** `r` is a well-formed later state of `s`. */
  ghost predicate Later(s: Scene, r: Scene) {
    WellFormed(r) && Grows(s, r) && s.nextId <= r.nextId
  }

  lemma LaterTransitive(s: Scene, r: Scene, q: Scene)
    requires Later(s, r) && Later(r, q)
    ensures Later(s, q)
  {
    GrowsTransitive(s, r, q);
  }

  /** The visits the live loop still owes from index `i`; it measures the sweep's progress. */
  function Rank(s: Scene, i: nat): nat
    requires WellFormed(s) && i <= |s.entities|
  {
    Weight(s.entities[i..], s.heap)
  }

  /**
   * The for-of from index `i`. While `live`, the loop walks the manager's
   * own array; once an entity has been removed it walks `frozen`, the array
   * the loop started on as it stood at that removal.
   */
  function Sweep(s: Scene, frozen: seq<Id>, live: bool, i: nat, upd: Update): (r: Scene)
    requires At(s, frozen, live, i) && Proper(upd)
    ensures Later(s, r)
    decreases if live then 1 else 0, if live then Rank(s, i) else |frozen| - i
  {
    if i == |Walked(s, frozen, live)| then s
    else
      var c := Pass(s, frozen, live, i, upd);
      var r := Sweep(c.scene, c.frozen, c.live, i + 1, upd);
      LaterTransitive(s, c.scene, r);
      r
  }

  /**
   * One turn of the loop body at index `i`: the loop moves on, and while it
   * walks the live array the visits still to come go down.
   */
  function Pass(s: Scene, frozen: seq<Id>, live: bool, i: nat, upd: Update): (c: Cursor)
    requires At(s, frozen, live, i) && i < |Walked(s, frozen, live)| && Proper(upd)
    ensures At(c.scene, c.frozen, c.live, i + 1) && Later(s, c.scene)
    ensures !live ==> !c.live && c.frozen == frozen
    ensures live && c.live ==> Rank(c.scene, i + 1) < Rank(s, i)
  {
    var id := Walked(s, frozen, live)[i];
    var s1 := Visit(s, id, upd);
    VisitFacts(s, frozen, live, i, upd);
    AfterAt(s, s1, frozen, live, i);
    After(s1, id, frozen, live)
  }

  /** What visiting entry `i` of the walked array does, as the loop's lemmas use it. */
  lemma VisitFacts(s: Scene, frozen: seq<Id>, live: bool, i: nat, upd: Update)
    requires At(s, frozen, live, i) && i < |Walked(s, frozen, live)| && Proper(upd)
    ensures var id := Walked(s, frozen, live)[i];
      var s1 := Visit(s, id, upd);
      Visited(s, s1, id) && UpdatedBy(upd, id, s.heap[id], s1.heap[id])
      && (live ==> KeepsPrefix(s, s1, i) && Weight(s1.entities[i + 1..], s1.heap) < Weight(s.entities[i..], s.heap))
  {
    var id := Walked(s, frozen, live)[i];
    VisitVisited(s, id, upd);
    if live {
      VisitTail(s, i, upd);
    }
  }

  // ---------------------------------------------------------------- what the loop does

  /** In an array without repeats, the entries from `i` on are the members not before `i`. */
  lemma DistinctSuffix(a: seq<Id>, i: nat, x: Id)
    requires Distinct(a) && i <= |a|
    ensures x in a[i..] <==> x in a && x !in a[..i]
  {
    assert a == a[..i] + a[i..];
    if x in a[i..] {
      var k :| 0 <= k < |a| - i && a[i..][k] == x;
      assert a[i + k] == x;
      assert forall j :: 0 <= j < i ==> a[..i][j] != x;
    }
  }

  /** Two distinct arrays that agree up to `i`: an entity other than the `i`-th is after `i` in both or in neither. */
  lemma TailMember(a: seq<Id>, b: seq<Id>, i: nat, x: Id)
    requires Distinct(a) && Distinct(b) && i < |a| && i < |b| && b[..i + 1] == a[..i + 1]
    requires x != a[i] && (x in b <==> x in a)
    ensures x in b[i + 1..] <==> x in a[i..]
  {
    DistinctSuffix(a, i, x);
    DistinctSuffix(b, i + 1, x);
    assert a[..i + 1] == a[..i] + [a[i]];
    assert x in a[..i + 1] <==> x in a[..i];
  }

  lemma InSuffix(a: seq<Id>, i: nat, x: Id)
    requires i <= |a| && x in a && x !in a[..i]
    ensures x in a[i..]
  {
    assert a == a[..i] + a[i..];
  }

  lemma DistinctAfter(a: seq<Id>, i: nat)
    requires Distinct(a) && i < |a|
    ensures a[i] !in a[i + 1..]
  {
    DistinctSuffix(a, i + 1, a[i]);
    assert a[..i + 1][i] == a[i];
  }

  /** No entity the loop has already walked past asks for removal. */
  ghost predicate Clean(s: Scene, frozen: seq<Id>, live: bool, i: nat)
    requires At(s, frozen, live, i)
  {
    if live then forall x :: x in s.entities[..i] ==> !Expired(s.heap[x])
    else forall x :: x in s.entities && Expired(s.heap[x]) ==> x in frozen[i..]
  }

  lemma CleanLiveAfter(s: Scene, s1: Scene, i: nat)
    requires At(s, [], true, i) && i < |s.entities| && Clean(s, [], true, i)
    requires Visited(s, s1, s.entities[i]) && KeepsPrefix(s, s1, i)
    ensures var c := After(s1, s.entities[i], [], true);
      At(c.scene, c.frozen, c.live, i + 1) && Clean(c.scene, c.frozen, c.live, i + 1)
  {
    var id := s.entities[i];
    AfterAt(s, s1, [], true, i);
    assert s1.entities[..i + 1] == s.entities[..i] + [id];
    if Expired(s1.heap[id]) {
      RemoveChanges(s1, id);
      forall x | x in s1.entities && x != id && Expired(s1.heap[x])
        ensures x in s1.entities[i + 1..]
      {
        InSuffix(s1.entities, i + 1, x);
      }
    }
  }

  lemma CleanFrozenAfter(s: Scene, s1: Scene, frozen: seq<Id>, i: nat)
    requires At(s, frozen, false, i) && i < |frozen| && Clean(s, frozen, false, i)
    requires Visited(s, s1, frozen[i])
    ensures var c := After(s1, frozen[i], frozen, false);
      At(c.scene, c.frozen, c.live, i + 1) && Clean(c.scene, c.frozen, c.live, i + 1)
  {
    var id := frozen[i];
    AfterAt(s, s1, frozen, false, i);
    assert frozen[i..] == [id] + frozen[i + 1..];
    if Expired(s1.heap[id]) {
      RemoveChanges(s1, id);
    }
  }

  /** No entity in the array asks for removal. */
  ghost predicate NoneExpired(s: Scene) {
    forall x :: x in s.entities ==> x in s.heap && !Expired(s.heap[x])
  }

  /** Every entity left in the array after the loop has `shouldRemove` false. */
  lemma {:induction false} SweepLeavesNoExpired(s: Scene, frozen: seq<Id>, live: bool, i: nat, upd: Update)
    requires At(s, frozen, live, i) && Proper(upd) && Clean(s, frozen, live, i)
    ensures NoneExpired(Sweep(s, frozen, live, i, upd))
    decreases if live then 1 else 0, if live then Rank(s, i) else |frozen| - i
  {
    var walked := Walked(s, frozen, live);
    if i == |walked| {
      if live {
        assert s.entities[..i] == s.entities;
      }
    } else {
      var id := walked[i];
      var s1 := Visit(s, id, upd);
      VisitFacts(s, frozen, live, i, upd);
      if live {
        CleanLiveAfter(s, s1, i);
      } else {
        CleanFrozenAfter(s, s1, frozen, i);
      }
      var c := After(s1, id, frozen, live);
      SweepLeavesNoExpired(c.scene, c.frozen, c.live, i + 1, upd);
    }
  }

  /** `r` holds every state of `s` but those of `pending`. */
  ghost predicate KeepsOutside(s: Scene, r: Scene, pending: seq<Id>) {
    forall x :: x in s.heap && x !in pending ==> x in r.heap && r.heap[x] == s.heap[x]
  }

  lemma KeepsOutsideAfter(s: Scene, s1: Scene, r: Scene, frozen: seq<Id>, i: nat)
    requires i < |frozen| && Visited(s, s1, frozen[i])
    requires KeepsOutside(After(s1, frozen[i], frozen, false).scene, r, frozen[i + 1..])
    ensures KeepsOutside(s, r, frozen[i..])
  {
    var id := frozen[i];
    assert frozen[i..] == [id] + frozen[i + 1..];
    if Expired(s1.heap[id]) {
      assert After(s1, id, frozen, false).scene.heap == s1.heap;
    }
  }

  /** After the first removal the loop updates only the entities of the old array it still has to walk. */
  lemma {:induction false} SweepFrozenKeeps(s: Scene, frozen: seq<Id>, i: nat, upd: Update)
    requires At(s, frozen, false, i) && Proper(upd)
    ensures KeepsOutside(s, Sweep(s, frozen, false, i, upd), frozen[i..])
    decreases |frozen| - i
  {
    if i < |frozen| {
      var id := frozen[i];
      var s1 := Visit(s, id, upd);
      VisitFacts(s, frozen, false, i, upd);
      AfterAt(s, s1, frozen, false, i);
      var c := After(s1, id, frozen, false);
      SweepFrozenKeeps(c.scene, frozen, i + 1, upd);
      KeepsOutsideAfter(s, s1, Sweep(c.scene, frozen, false, i + 1, upd), frozen, i);
    }
  }

  /** The states and array membership of the entities `o` the loop started with. */
  ghost predicate Tracks(s: Scene, pending: seq<Id>, o: seq<Id>, h0: Heap, upd: Update) {
    forall x :: x in o ==>
      (x in h0 && x in s.heap
       && (x in pending ==> x in s.entities && s.heap[x] == h0[x])
       && (x !in pending ==> UpdatedBy(upd, x, h0[x], s.heap[x]) && (x in s.entities <==> !Expired(s.heap[x]))))
  }

  /** The entities still to be visited after a visit are those before it, less the one visited. */
  lemma PendingAfter(s: Scene, s1: Scene, frozen: seq<Id>, live: bool, i: nat, o: seq<Id>)
    requires At(s, frozen, live, i) && i < |Walked(s, frozen, live)|
    requires Visited(s, s1, Walked(s, frozen, live)[i])
    requires live ==> KeepsPrefix(s, s1, i)
    requires forall x :: x in o ==> x in s.heap
    ensures var id := Walked(s, frozen, live)[i];
      var c := After(s1, id, frozen, live);
      var w := Walked(s, frozen, live);
      var w2 := Walked(c.scene, c.frozen, c.live);
      i + 1 <= |w2| && id in w[i..] && id !in w2[i + 1..]
      && forall x :: x in o && x != id ==> (x in w2[i + 1..] <==> x in w[i..])
  {
    var w := Walked(s, frozen, live);
    var id := w[i];
    var c := After(s1, id, frozen, live);
    AfterAt(s, s1, frozen, live, i);
    assert w[i..][0] == id;
    if live {
      assert Walked(c.scene, c.frozen, c.live) == s1.entities;
      assert s1.entities[i] == s.entities[..i + 1][i];
      DistinctAfter(s1.entities, i);
      forall x | x in o && x != id
        ensures x in s1.entities[i + 1..] <==> x in s.entities[i..]
      {
        TailMember(s.entities, s1.entities, i, x);
      }
    } else {
      DistinctAfter(frozen, i);
      assert frozen[i..] == [id] + frozen[i + 1..];
    }
  }

  lemma TracksAfter(s: Scene, s1: Scene, id: Id, frozen: seq<Id>, live: bool,
                    pending: seq<Id>, pending2: seq<Id>, o: seq<Id>, h0: Heap, upd: Update)
    requires WellFormed(s) && Visited(s, s1, id) && UpdatedBy(upd, id, s.heap[id], s1.heap[id])
    requires Tracks(s, pending, o, h0, upd) && id in pending && id !in pending2
    requires forall x :: x in o && x != id ==> (x in pending2 <==> x in pending)
    ensures Tracks(After(s1, id, frozen, live).scene, pending2, o, h0, upd)
  {
    if Expired(s1.heap[id]) {
      RemoveChanges(s1, id);
    }
  }

  /**
   * Each entity still to be visited is updated exactly once, and stays in
   * the array exactly when its new state does not ask for removal.
   */
  lemma {:induction false} SweepTracks(s: Scene, frozen: seq<Id>, live: bool, i: nat, upd: Update, o: seq<Id>, h0: Heap)
    requires At(s, frozen, live, i) && Proper(upd)
    requires Tracks(s, Walked(s, frozen, live)[i..], o, h0, upd)
    ensures Tracks(Sweep(s, frozen, live, i, upd), [], o, h0, upd)
    decreases if live then 1 else 0, if live then Rank(s, i) else |frozen| - i
  {
    var walked := Walked(s, frozen, live);
    if i == |walked| {
      assert walked[i..] == [];
    } else {
      var id := walked[i];
      var s1 := Visit(s, id, upd);
      VisitFacts(s, frozen, live, i, upd);
      AfterAt(s, s1, frozen, live, i);
      PendingAfter(s, s1, frozen, live, i, o);
      var c := After(s1, id, frozen, live);
      TracksAfter(s, s1, id, frozen, live, walked[i..], Walked(c.scene, c.frozen, c.live)[i + 1..], o, h0, upd);
      SweepTracks(c.scene, c.frozen, c.live, i + 1, upd, o, h0);
    }
  }

  /**
   * `update`'s loop, from the manager's own array: every entity it starts
   * with is updated exactly once and stays exactly when it does not ask for
   * removal; no entity left in the array asks for removal.
   */
  lemma SweepEffect(s: Scene, upd: Update)
    requires WellFormed(s) && Proper(upd)
    ensures var r := Sweep(s, [], true, 0, upd);
      (forall x :: x in s.entities ==> x in r.heap && UpdatedBy(upd, x, s.heap[x], r.heap[x])
                                       && (x in r.entities <==> !Expired(r.heap[x])))
      && NoneExpired(r)
  {
    assert s.entities[0..] == s.entities;
    SweepTracks(s, [], true, 0, upd, s.entities, s.heap);
    SweepLeavesNoExpired(s, [], true, 0, upd);
  }

  /**
   * The same for the entities' own updates: each entity the loop starts with
   * gets the new state its class's `update` gives it.
   */
  lemma LoopEffect(s: Scene, e: Env)
    requires WellFormed(s) && N.Exact(e.num)
    ensures Proper(Entities(e))
    ensures var r := Sweep(s, [], true, 0, Entities(e));
      (forall x :: x in s.entities ==> x in r.heap && UpdatedFrom(s.heap[x], r.heap[x], e)
                                       && (x in r.entities <==> !Expired(r.heap[x])))
      && NoneExpired(r)
  {
    EntitiesProper(e);
    var upd := Entities(e);
    var r := Sweep(s, [], true, 0, upd);
    SweepEffect(s, upd);
    forall x | x in s.entities
      ensures UpdatedFrom(s.heap[x], r.heap[x], e)
    {
      var v :| WellFormed(v) && x in v.heap && v.heap[x] == s.heap[x] && upd.requires(v, x) && upd(v, x).0 == r.heap[x];
      AdvanceUpdates(v, x, e);
    }
  }
}
