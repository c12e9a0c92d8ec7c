/**
 * The manager's spawners and its starting population (entities.manager.ts):
 * `createAsteroid`, `createRocket`, `spawnAsteroid`, `spawnRocket`, the
 * constructor's ship, eight asteroids and four rockets, and the frame update
 * that runs the entity loop and then both spawners.
 */
module Spawns {
  import opened Vectors
  import N = Numerics
  import opened Bodies
  import opened EntityList
  import opened Scenes
  import opened Draws
  import opened Passes
  import Config
  import Ships
  import Asteroids
  import Rockets

  const INITIAL_ROCKETS: nat := 4
  const MIN_ROCKET_INTERVAL: int := 60
  const ROCKET_INTERVAL_STEP: int := 60

  /** A JavaScript value, as far as a strict comparison with `undefined` can tell. */
  datatype JsValue = Undefined | Number(value: real)

  /**
   * The near-ship retry test of `createAsteroid`: the ship lives, the drawn
   * point is closer than 300 to it, and the drawn `x` is `undefined`.
   */
  predicate Retries(shipDead: bool, shipDist: real, x: JsValue) {
    !shipDead && shipDist < Config.MIN_SPAWN_DISTANCE && x == Undefined
  }

  /** The drawn `x` is a number, so the retry never happens, however close the ship is. */
  lemma RetryNeverFires(shipDead: bool, shipDist: real, x: real)
    ensures !Retries(shipDead, shipDist, Number(x))
  {
  }

  // ---------------------------------------------------------------- creation

  /** `addEntity` of a new object moves the asteroid count by one exactly when it adds an asteroid. */
  lemma AddCount(s: Scene, b: Body)
    requires WellFormed(s)
    ensures CountAsteroids(Scenes.Add(s, b).entities, Scenes.Add(s, b).heap)
         == CountAsteroids(s.entities, s.heap) + (if b.AsteroidBody? then 1 else 0)
    ensures |Scenes.Add(s, b).entities| == |s.entities| + 1
  {
    var heap := s.heap[s.nextId := b];
    assert Stored(s.entities, heap);
    LayerAgree(s.entities, s.heap, heap, Asteroids.Z_INDEX);
    CountIsLayer(s.entities, s.heap);
    CountIsLayer(s.entities, heap);
    InsertCount(s.entities, heap, s.nextId);
  }

  /**
   * `r` follows from `s` by adding the identities from `s.nextId` up to
   * `r.nextId` to the array; nothing is removed and no state changes.
   */
  ghost predicate Extends(s: Scene, r: Scene) {
    r.ship == s.ship && s.nextId <= r.nextId
    && (forall x :: x in r.entities <==> x in s.entities || s.nextId <= x < r.nextId)
    && (forall id :: id in s.heap ==> id in r.heap && r.heap[id] == s.heap[id])
  }

  lemma ExtendsTransitive(s: Scene, r: Scene, q: Scene)
    requires Extends(s, r) && Extends(r, q)
    ensures Extends(s, q)
  {
  }

  /** Adding an admissible object to a well-formed scene extends it. */
  lemma AddExtends(s: Scene, b: Body)
    requires WellFormed(s) && Admissible(b)
    ensures var r := Scenes.Add(s, b);
      WellFormed(r) && Extends(s, r) && r.nextId == s.nextId + 1 && s.nextId in r.heap && r.heap[s.nextId] == b
      && |r.entities| == |s.entities| + 1
      && CountAsteroids(r.entities, r.heap) == CountAsteroids(s.entities, s.heap) + (if b.AsteroidBody? then 1 else 0)
  {
    AddChanges(s, b);
    AddCount(s, b);
  }

  /** The asteroid `createAsteroid` makes for the next identity. */
  function SpawnedAsteroid(s: Scene, e: Env): Body {
    AsteroidBody(NewAsteroid(e.width, e.height, e.dice.asteroid(s.nextId)))
  }

  /** The rocket `createRocket` makes for the next identity. */
  function SpawnedRocket(s: Scene, e: Env): Body {
    RocketBody(NewRocket(e.width, e.height, e.dice.rocket(s.nextId)))
  }

  /**
   * `createAsteroid`: a random point and radius; the near-ship test is
   * computed and always false; the asteroid joins the array.
   */
  function CreateAsteroid(s: Scene, e: Env): (r: Scene)
    requires WellFormed(s)
    ensures WellFormed(r) && Extends(s, r) && r.nextId == s.nextId + 1
    ensures s.nextId in r.heap && r.heap[s.nextId] == SpawnedAsteroid(s, e)
    ensures |r.entities| == |s.entities| + 1
    ensures CountAsteroids(r.entities, r.heap) == CountAsteroids(s.entities, s.heap) + 1
  {
    var a := NewAsteroid(e.width, e.height, e.dice.asteroid(s.nextId));
    var ship := s.heap[s.ship].ship;
    var shipDist := N.Mag(e.num, Sub(a.t.position, ship.t.position));
    assert !Retries(ship.isDead, shipDist, Number(a.t.position.x));
    AddExtends(s, AsteroidBody(a));
    Scenes.Add(s, AsteroidBody(a))
  }

  /** `createRocket`: a random point, the default lifespan; the rocket joins the array. */
  function CreateRocket(s: Scene, e: Env): (r: Scene)
    requires WellFormed(s)
    ensures WellFormed(r) && Extends(s, r) && r.nextId == s.nextId + 1
    ensures s.nextId in r.heap && r.heap[s.nextId] == SpawnedRocket(s, e)
    ensures |r.entities| == |s.entities| + 1
    ensures CountAsteroids(r.entities, r.heap) == CountAsteroids(s.entities, s.heap)
  {
    AddExtends(s, SpawnedRocket(s, e));
    Scenes.Add(s, SpawnedRocket(s, e))
  }

  /** `n` calls of `createAsteroid`: `n` more entities, all of them asteroids, with nothing removed. */
  function CreateAsteroids(s: Scene, n: nat, e: Env): (r: Scene)
    requires WellFormed(s)
    ensures WellFormed(r) && Extends(s, r)
    ensures |r.entities| == |s.entities| + n && r.nextId == s.nextId + n
    ensures CountAsteroids(r.entities, r.heap) == CountAsteroids(s.entities, s.heap) + n
    decreases n
  {
    if n == 0 then s
    else
      var s1 := CreateAsteroid(s, e);
      var r := CreateAsteroids(s1, n - 1, e);
      ExtendsTransitive(s, s1, r);
      r
  }

  /** `n` calls of `createRocket`: `n` more entities, none of them an asteroid, with nothing removed. */
  function CreateRockets(s: Scene, n: nat, e: Env): (r: Scene)
    requires WellFormed(s)
    ensures WellFormed(r) && Extends(s, r)
    ensures |r.entities| == |s.entities| + n && r.nextId == s.nextId + n
    ensures CountAsteroids(r.entities, r.heap) == CountAsteroids(s.entities, s.heap)
    decreases n
  {
    if n == 0 then s
    else
      var s1 := CreateRocket(s, e);
      var r := CreateRockets(s1, n - 1, e);
      ExtendsTransitive(s, s1, r);
      r
  }

  /** The array before the constructor's first `addEntity`. */
  function Empty(): Scene {
    Scene([], map[], 0, 0)
  }

  /** `addEntity(this.ship)` on the empty array: the ship gets the first identity. */
  function WithShip(e: Env): (s: Scene)
    ensures WellFormed(s) && s.entities == [s.ship] && s.nextId == 1
    ensures s.heap[s.ship] == ShipBody(Ships.Create(e.width, e.height))
    ensures CountAsteroids(s.entities, s.heap) == 0
  {
    var s := Scenes.Add(Empty(), ShipBody(Ships.Create(e.width, e.height)));
    assert s.entities == [0];
    assert s.entities[..0] == [];
    s
  }

  /** The ship, then `createInitialAsteroids`: eight asteroids after it. */
  function WithAsteroids(e: Env): (s: Scene)
    ensures WellFormed(s) && Extends(WithShip(e), s)
    ensures |s.entities| == 1 + Config.ASTEROID_INITIAL_COUNT && s.nextId == 1 + Config.ASTEROID_INITIAL_COUNT
    ensures CountAsteroids(s.entities, s.heap) == Config.ASTEROID_INITIAL_COUNT
  {
    CreateAsteroids(WithShip(e), Config.ASTEROID_INITIAL_COUNT, e)
  }

  /** The constructor: the ship, `createInitialAsteroids` (eight), then four `createRocket` calls. */
  function Initial(e: Env): (s: Scene)
    ensures Population(WithShip(e), s)
  {
    var s1 := WithAsteroids(e);
    var s2 := CreateRockets(s1, INITIAL_ROCKETS, e);
    PopulationOf(WithShip(e), s1, s2);
    s2
  }

  /**
   * A new manager holds thirteen entities: the ship it started with, eight
   * asteroids and four rockets.
   */
  ghost predicate Population(s0: Scene, s: Scene) {
    WellFormed(s) && |s.entities| == 1 + Config.ASTEROID_INITIAL_COUNT + INITIAL_ROCKETS
    && CountAsteroids(s.entities, s.heap) == Config.ASTEROID_INITIAL_COUNT
    && s.ship == s0.ship && s.ship in s.entities && s.ship in s.heap && s0.ship in s0.heap && s.heap[s.ship] == s0.heap[s0.ship]
    && s.nextId == |s.entities|
  }

  lemma PopulationOf(s0: Scene, s1: Scene, s2: Scene)
    requires s0.entities == [s0.ship] && s0.ship in s0.heap
    requires WellFormed(s1) && Extends(s0, s1) && |s1.entities| == 1 + Config.ASTEROID_INITIAL_COUNT
    requires s1.nextId == 1 + Config.ASTEROID_INITIAL_COUNT && CountAsteroids(s1.entities, s1.heap) == Config.ASTEROID_INITIAL_COUNT
    requires WellFormed(s2) && Extends(s1, s2) && |s2.entities| == |s1.entities| + INITIAL_ROCKETS
    requires s2.nextId == s1.nextId + INITIAL_ROCKETS && CountAsteroids(s2.entities, s2.heap) == CountAsteroids(s1.entities, s1.heap)
    ensures Population(s0, s2)
  {
    ExtendsTransitive(s0, s1, s2);
    assert s0.ship in s0.entities;
  }

  // ---------------------------------------------------------------- spawners

  /** `spawnAsteroid`: every 300th frame, while fewer than 12 asteroids are in the array. */
  function SpawnAsteroid(s: Scene, frameCount: nat, e: Env): (r: Scene)
    requires WellFormed(s)
    ensures WellFormed(r) && Extends(s, r)
  {
    if frameCount % Config.ASTEROID_SPAWN_INTERVAL == 0
       && CountAsteroids(s.entities, s.heap) < Config.ASTEROID_MAX_GENERATE
    then CreateAsteroid(s, e)
    else s
  }

  /** Whether `spawnAsteroid` fires. */
  predicate AsteroidDue(s: Scene, frameCount: nat)
    requires WellFormed(s)
  {
    frameCount % Config.ASTEROID_SPAWN_INTERVAL == 0 && CountAsteroids(s.entities, s.heap) < Config.ASTEROID_MAX_GENERATE
  }

  /**
   * One asteroid more exactly on a due frame, and otherwise no change; the
   * spawner alone never takes the count above 12.
   */
  lemma SpawnAsteroidRule(s: Scene, frameCount: nat, e: Env)
    requires WellFormed(s)
    ensures var r := SpawnAsteroid(s, frameCount, e);
      (AsteroidDue(s, frameCount) ==>
         |r.entities| == |s.entities| + 1 && r.heap[s.nextId] == SpawnedAsteroid(s, e)
         && CountAsteroids(r.entities, r.heap) == CountAsteroids(s.entities, s.heap) + 1)
      && (!AsteroidDue(s, frameCount) ==> r == s)
      && (CountAsteroids(s.entities, s.heap) <= Config.ASTEROID_MAX_GENERATE ==>
            CountAsteroids(r.entities, r.heap) <= Config.ASTEROID_MAX_GENERATE)
  {
  }

  /** `Math.max(60, ROCKET_SPAWN_INTERVAL - level * 60)`. */
  function RocketInterval(level: int): (r: int)
    ensures r >= MIN_ROCKET_INTERVAL
    ensures r == MIN_ROCKET_INTERVAL || r == Config.ROCKET_SPAWN_INTERVAL - level * ROCKET_INTERVAL_STEP
  {
    var adjusted := Config.ROCKET_SPAWN_INTERVAL - level * ROCKET_INTERVAL_STEP;
    if MIN_ROCKET_INTERVAL >= adjusted then MIN_ROCKET_INTERVAL else adjusted
  }

  /** Whether `spawnRocket` fires: the ship lives, the level is at least 2, and the interval has passed. */
  predicate RocketDue(s: Scene, last: int, level: int, frameCount: nat)
    requires WellFormed(s)
  {
    !s.heap[s.ship].ship.isDead && level >= 2 && frameCount - last > RocketInterval(level)
  }

  /**
   * `spawnRocket`, given the manager's `lastSpawnedRocketTime` and the game's
   * level; the new value of `lastSpawnedRocketTime` comes back with the scene.
   * No cap on the number of rockets is applied.
   */
  function SpawnRocket(s: Scene, last: int, level: int, frameCount: nat, e: Env): (r: (Scene, int))
    requires WellFormed(s)
    ensures WellFormed(r.0) && Extends(s, r.0)
  {
    if !s.heap[s.ship].ship.isDead && level >= 2 && frameCount - last > RocketInterval(level)
    then (CreateRocket(s, e), frameCount)
    else (s, last)
  }

  /** One rocket more and the spawn time recorded exactly when due, and otherwise no change. */
  lemma SpawnRocketRule(s: Scene, last: int, level: int, frameCount: nat, e: Env)
    requires WellFormed(s)
    ensures var r := SpawnRocket(s, last, level, frameCount, e);
      (RocketDue(s, last, level, frameCount) ==>
         r.1 == frameCount && |r.0.entities| == |s.entities| + 1 && r.0.heap[s.nextId] == SpawnedRocket(s, e))
      && (!RocketDue(s, last, level, frameCount) ==> r == (s, last))
  {
  }

  /** At levels 0 and 1 no rocket is ever spawned. */
  lemma NoRocketsBelowLevelTwo(s: Scene, last: int, level: int, frameCount: nat, e: Env)
    requires WellFormed(s) && level < 2
    ensures SpawnRocket(s, last, level, frameCount, e) == (s, last)
  {
  }

  /**
   * A spawned rocket comes more than `max(60, 720 - 60 * level)` frames after
   * the previous one, so never within 60 frames of it.
   */
  lemma RocketGap(s: Scene, last: int, level: int, frameCount: nat, e: Env)
    requires WellFormed(s)
    ensures var r := SpawnRocket(s, last, level, frameCount, e);
      r.0 != s ==> r.1 == frameCount && frameCount - last > MIN_ROCKET_INTERVAL
                   && frameCount - last > Config.ROCKET_SPAWN_INTERVAL - level * ROCKET_INTERVAL_STEP
  {
  }

  // ---------------------------------------------------------------- the frame

  /**
   * `update`: the entity loop over the manager's array, then `spawnAsteroid`,
   * then `spawnRocket`; the result carries the new `lastSpawnedRocketTime`.
   */
  function Frame(s: Scene, last: int, level: int, frameCount: nat, e: Env): (r: (Scene, int))
    requires WellFormed(s) && N.Exact(e.num)
    ensures WellFormed(r.0)
  {
    EntitiesProper(e);
    var s1 := Sweep(s, [], true, 0, Passes.Entities(e));
    SpawnRocket(SpawnAsteroid(s1, frameCount, e), last, level, frameCount, e)
  }

  /**
   * Over a whole frame, each entity the array started with gets its class's
   * update once and stays exactly when it does not ask for removal; the
   * spawners add at most one asteroid and one rocket.
   */
  lemma FrameEffect(s: Scene, last: int, level: int, frameCount: nat, e: Env)
    requires WellFormed(s) && N.Exact(e.num)
    ensures Proper(Passes.Entities(e))
    ensures var r := Frame(s, last, level, frameCount, e).0;
      var s1 := Sweep(s, [], true, 0, Passes.Entities(e));
      (forall x :: x in s.entities ==> x in r.heap && UpdatedFrom(s.heap[x], r.heap[x], e)
                                       && (x in r.entities <==> !Expired(r.heap[x])))
      && s1.nextId <= r.nextId <= s1.nextId + 2
  {
    LoopEffect(s, e);
    var s1 := Sweep(s, [], true, 0, Passes.Entities(e));
    var s2 := SpawnAsteroid(s1, frameCount, e);
    var r := SpawnRocket(s2, last, level, frameCount, e).0;
    SpawnAsteroidRule(s1, frameCount, e);
    SpawnRocketRule(s2, last, level, frameCount, e);
    ExtendsTransitive(s1, s2, r);
  }
}
