/**
 * The entities manager object (src/game2/managers/entities.manager.ts): the
 * array of entity references and the state of every entity object, changed
 * in place by its methods. Each method is proved to leave the manager in the
 * scene the function of the same name in `Spawns`, `Passes` or `Collisions`
 * computes, so the properties proved there hold of the object.
 */
module Manager {
  import opened Vectors
  import N = Numerics
  import opened Bodies
  import opened EntityList
  import opened Scenes
  import opened Draws
  import opened Passes
  import Spawns
  import Collisions
  import GameStates
  import Collisional
  import Indicators
  import Config
  import Ships

  class EntitiesManager {
    /** The array `entities`, as the identities of the objects it references. */
    var entities: seq<Id>
    /** The state of every entity object created so far, by identity. */
    var heap: Heap
    /** The identity the next object created gets. */
    var nextId: nat
    /** The manager's own ship. */
    const ship: Id
    var lastSpawnedRocketTime: int

    function Scene(): Scenes.Scene
      reads this
    {
      Scenes.Scene(entities, heap, nextId, ship)
    }

    ghost predicate Valid()
      reads this
    {
      WellFormed(Scene())
    }

    /**
     * The constructor: the ship is created and added first, then
     * `createInitialAsteroids`, then four `createRocket` calls.
     */
    constructor (e: Env)
      ensures Valid() && Scene() == Spawns.Initial(e) && lastSpawnedRocketTime == 0
    {
      entities := [];
      heap := map[];
      nextId := 0;
      ship := 0;
      lastSpawnedRocketTime := 0;
      new;
      AddEntity(ShipBody(Ships.Create(e.width, e.height)));
      assert Scene() == Spawns.WithShip(e);
      CreateInitialAsteroids(e);
      ghost var s1 := Scene();
      CreateRocket(e);
      CreateRocket(e);
      CreateRocket(e);
      CreateRocket(e);
      assert Spawns.CreateRockets(s1, 4, e) == Scene() by {
        var r1 := Spawns.CreateRocket(s1, e);
        var r2 := Spawns.CreateRocket(r1, e);
        var r3 := Spawns.CreateRocket(r2, e);
        assert Spawns.CreateRockets(r3, 1, e) == Spawns.CreateRocket(r3, e);
        assert Spawns.CreateRockets(r2, 2, e) == Spawns.CreateRockets(r3, 1, e);
        assert Spawns.CreateRockets(r1, 3, e) == Spawns.CreateRockets(r2, 2, e);
      }
    }

    /**
     * `addEntity`: `push`, then the stable sort by `zIndex`, which on the
     * sorted array moves the new entity behind every entity of its draw
     * order or lower (`EntityList.Insert`).
     */
    method AddEntity(b: Body)
      requires Stored(entities, heap)
      modifies this
      ensures Scene() == Scenes.Add(old(Scene()), b)
      ensures lastSpawnedRocketTime == old(lastSpawnedRocketTime)
    {
      heap := heap[nextId := b];
      entities := Insert(entities, heap, nextId);
      nextId := nextId + 1;
    }

    /** `removeEntity`: the array without the object; its state stays in the heap. */
    method RemoveEntity(id: Id)
      modifies this
      ensures Scene() == Scenes.Remove(old(Scene()), id)
      ensures lastSpawnedRocketTime == old(lastSpawnedRocketTime)
    {
      entities := Without(entities, id);
    }

    /** `createAsteroid`: the near-ship retry condition is evaluated and never holds. */
    method CreateAsteroid(e: Env)
      requires Valid()
      modifies this
      ensures Valid() && Scene() == Spawns.CreateAsteroid(old(Scene()), e)
      ensures lastSpawnedRocketTime == old(lastSpawnedRocketTime)
    {
      var a := NewAsteroid(e.width, e.height, e.dice.asteroid(nextId));
      var own := heap[ship].ship;
      if !own.isDead {
        var shipDist := N.Mag(e.num, Sub(a.t.position, own.t.position));
        if Spawns.Retries(own.isDead, shipDist, Spawns.Number(a.t.position.x)) {
          assert false;
        }
      }
      ghost var s0 := Scene();
      AddEntity(AsteroidBody(a));
      assert Scene() == Spawns.CreateAsteroid(s0, e);
    }

    /** `createRocket`. */
    method CreateRocket(e: Env)
      requires Valid()
      modifies this
      ensures Valid() && Scene() == Spawns.CreateRocket(old(Scene()), e)
      ensures lastSpawnedRocketTime == old(lastSpawnedRocketTime)
    {
      ghost var s0 := Scene();
      AddEntity(RocketBody(NewRocket(e.width, e.height, e.dice.rocket(nextId))));
      assert Scene() == Spawns.CreateRocket(s0, e);
    }

    /** `createInitialAsteroids`: eight calls of `createAsteroid`. */
    method CreateInitialAsteroids(e: Env)
      requires Valid()
      modifies this
      ensures Valid() && Scene() == Spawns.CreateAsteroids(old(Scene()), Config.ASTEROID_INITIAL_COUNT, e)
      ensures lastSpawnedRocketTime == old(lastSpawnedRocketTime)
    {
      var count := Config.ASTEROID_INITIAL_COUNT;
      for i := 0 to count
        invariant Valid() && lastSpawnedRocketTime == old(lastSpawnedRocketTime)
        invariant Spawns.CreateAsteroids(Scene(), count - i, e) == Spawns.CreateAsteroids(old(Scene()), count, e)
      {
        ghost var s1 := Scene();
        CreateAsteroid(e);
        assert Spawns.CreateAsteroids(s1, count - i, e) == Spawns.CreateAsteroids(Scene(), count - (i + 1), e);
      }
    }

    /** `spawnAsteroid`, on frame `frameCount`. */
    method SpawnAsteroid(frameCount: nat, e: Env)
      requires Valid()
      modifies this
      ensures Valid() && Scene() == Spawns.SpawnAsteroid(old(Scene()), frameCount, e)
      ensures lastSpawnedRocketTime == old(lastSpawnedRocketTime)
    {
      var asteroidCount := CountAsteroids(entities, heap);
      if frameCount % Config.ASTEROID_SPAWN_INTERVAL == 0 && asteroidCount < Config.ASTEROID_MAX_GENERATE {
        CreateAsteroid(e);
      }
    }

    /** `spawnRocket`, at the game's level `level` on frame `frameCount`. */
    method SpawnRocket(level: int, frameCount: nat, e: Env)
      requires Valid()
      modifies this
      ensures Valid()
      ensures (Scene(), lastSpawnedRocketTime)
           == Spawns.SpawnRocket(old(Scene()), old(lastSpawnedRocketTime), level, frameCount, e)
    {
      var adjusted := Config.ROCKET_SPAWN_INTERVAL - level * Spawns.ROCKET_INTERVAL_STEP;
      var interval := if Spawns.MIN_ROCKET_INTERVAL >= adjusted then Spawns.MIN_ROCKET_INTERVAL else adjusted;
      var isSpawnTimeElapsed := frameCount - lastSpawnedRocketTime > interval;
      if !heap[ship].ship.isDead && level >= 2 && isSpawnTimeElapsed {
        CreateRocket(e);
        lastSpawnedRocketTime := frameCount;
      }
    }

    /** `addEntity` of each object in turn, as `createFlames` and `createExplosion` do. */
    method AddEntities(bs: seq<Body>)
      requires Stored(entities, heap)
      modifies this
      ensures Scene() == AddAll(old(Scene()), bs)
      ensures lastSpawnedRocketTime == old(lastSpawnedRocketTime)
    {
      for k := 0 to |bs|
        invariant Stored(entities, heap) && lastSpawnedRocketTime == old(lastSpawnedRocketTime)
        invariant AddAll(Scene(), bs[k..]) == AddAll(old(Scene()), bs)
      {
        assert bs[k..] == [bs[k]] + bs[k + 1..];
        AddEntity(bs[k]);
      }
    }

    /**
     * `entity.update()` of the entity `id`: its new state, and the flames a
     * launched rocket adds to the array through its flammable extension.
     */
    method UpdateEntity(id: Id, e: Env)
      requires Valid() && id in heap && N.Exact(e.num)
      modifies this
      ensures var u := Advance(old(Scene()), id, e);
        Scene() == AddAll(SetBody(old(Scene()), id, u.0), u.1)
      ensures lastSpawnedRocketTime == old(lastSpawnedRocketTime)
    {
      var u := Advance(Scene(), id, e);
      heap := heap[id := u.0];
      AddEntities(u.1);
    }

    /**
     * One turn of the for-of at index `i` of the walked array: the entity's
     * update, then its removal when it asks for it; the first removal leaves
     * the loop walking the array it held.
     */
    method Turn(frozen: seq<Id>, live: bool, i: nat, e: Env) returns (frozen': seq<Id>, live': bool)
      requires N.Exact(e.num) && Proper(Passes.Entities(e))
      requires At(Scene(), frozen, live, i) && i < |Walked(Scene(), frozen, live)|
      modifies this
      ensures Cursor(Scene(), frozen', live') == Pass(old(Scene()), frozen, live, i, Passes.Entities(e))
      ensures lastSpawnedRocketTime == old(lastSpawnedRocketTime)
    {
      ghost var s := Scene();
      var id := if live then entities[i] else frozen[i];
      UpdateEntity(id, e);
      assert Scene() == Visit(s, id, Passes.Entities(e));
      frozen', live' := frozen, live;
      if Expired(heap[id]) {
        if live {
          frozen' := entities;
          live' := false;
        }
        RemoveEntity(id);
      }
    }

    /**
     * `update`: the entity loop, then `spawnAsteroid` and `spawnRocket`.
     */
    method Update(level: int, frameCount: nat, e: Env)
      requires Valid() && N.Exact(e.num)
      modifies this
      ensures Valid()
      ensures (Scene(), lastSpawnedRocketTime)
           == Spawns.Frame(old(Scene()), old(lastSpawnedRocketTime), level, frameCount, e)
    {
      EntitiesProper(e);
      UpdateEntities(e);
      SpawnAsteroid(frameCount, e);
      SpawnRocket(level, frameCount, e);
    }

    /**
     * The for-of of `update`: each entity updated in turn (a rocket's flames
     * are added as it updates) and removed when it asks for removal. The
     * for-of walks the array object it started on: `live` while that is
     * still `entities`, and `frozen` once the first removal has given
     * `entities` a new array.
     */
    method UpdateEntities(e: Env)
      requires Valid() && N.Exact(e.num) && Proper(Passes.Entities(e))
      modifies this
      ensures Valid() && Scene() == Sweep(old(Scene()), [], true, 0, Passes.Entities(e))
      ensures lastSpawnedRocketTime == old(lastSpawnedRocketTime)
    {
      ghost var upd := Passes.Entities(e);
      var frozen: seq<Id> := [];
      var live := true;
      var i := 0;
      while i < if live then |entities| else |frozen|
        invariant At(Scene(), frozen, live, i) && lastSpawnedRocketTime == old(lastSpawnedRocketTime)
        invariant Sweep(Scene(), frozen, live, i, upd) == Sweep(old(Scene()), [], true, 0, upd)
        decreases if live then 1 else 0, if live then Rank(Scene(), i) else |frozen| - i
      {
        frozen, live := Turn(frozen, live, i, e);
        i := i + 1;
      }
    }

    // ---------------------------------------------------------------- collisions

    /** The manager's scene together with the counters of the game state it reports to. */
    function World(gs: GameStates.GameState): Collisions.World
      reads this, gs
    {
      Collisions.World(Scene(), gs.View())
    }

    /** `createExplosion`: all sparks are made first, then added one by one. */
    method CreateExplosion(position: Vec, velocity: Vec, count: nat, num: N.Numerics, dice: Dice)
      requires Stored(entities, heap)
      modifies this
      ensures Scene() == Collisions.Explosion(old(Scene()), num, position, velocity, count, dice)
      ensures lastSpawnedRocketTime == old(lastSpawnedRocketTime)
    {
      var sparks: seq<Body> := [];
      for i := 0 to count
        invariant |sparks| == i
        invariant forall k :: 0 <= k < i ==> sparks[k] == Collisions.Debris(num, position, velocity, count, nextId, dice)[k]
      {
        sparks := sparks + [SparkBody(Spark(num, position, velocity, count, dice.spark(nextId + i)))];
      }
      assert sparks == Collisions.Debris(num, position, velocity, count, nextId, dice);
      AddEntities(sparks);
    }

    /** `handleAsteroidAsteroidCollision`: the collisional extension's elastic response. */
    method HandleAsteroidAsteroid(a: Id, b: Id, gs: GameStates.GameState, num: N.Numerics)
      requires Collisions.Pair(World(gs), a, b) && heap[a].AsteroidBody? && heap[b].AsteroidBody?
      modifies this
      ensures World(gs) == Collisions.HandleAsteroidAsteroid(old(World(gs)), a, b, num)
      ensures lastSpawnedRocketTime == old(lastSpawnedRocketTime)
    {
      var ta, tb := TransformOf(heap[a]), TransformOf(heap[b]);
      var d := N.Mag(num, Sub(tb.position, ta.position));
      if d > 0.0 {
        assert Sound(heap[a]) && Sound(heap[b]);
        var moved := Collisional.Collide(ta, tb, d);
        heap := heap[a := WithTransform(heap[a], moved.0)];
        heap := heap[b := WithTransform(heap[b], moved.1)];
      }
    }

    /** Both objects leave the array, the asteroid's pieces join it, then the sparks. */
    method Shatter(hitter: Id, asteroid: Id, at: Vec, aim: Vec, num: N.Numerics, dice: Dice)
      requires Stored(entities, heap) && hitter in heap && asteroid in heap
      requires heap[asteroid].AsteroidBody? && Movable(heap[hitter])
      modifies this
      ensures Scene() == Collisions.Shatter(old(Scene()), hitter, asteroid, at, aim, num, dice)
      ensures lastSpawnedRocketTime == old(lastSpawnedRocketTime)
    {
      var rock, impact := heap[asteroid].asteroid, heap[hitter];
      RemoveEntity(hitter);
      RemoveEntity(asteroid);
      var newAsteroids := Collisions.AsBodies(Collisions.Pieces(num, rock, impact, nextId, dice));
      AddEntities(newAsteroids);
      CreateExplosion(at, aim, Collisions.EXPLOSION_SPARKS, num, dice);
    }

    /** `handleBulletAsteroidCollision`. */
    method HandleBulletAsteroid(a: Id, b: Id, gs: GameStates.GameState, num: N.Numerics, dice: Dice)
      requires Collisions.Pair(World(gs), a, b)
      requires (heap[a].BulletBody? && heap[b].AsteroidBody?) || (heap[b].BulletBody? && heap[a].AsteroidBody?)
      modifies this, gs
      ensures World(gs) == Collisions.HandleBulletAsteroid(old(World(gs)), a, b, num, dice)
      ensures lastSpawnedRocketTime == old(lastSpawnedRocketTime)
    {
      var bullet := if heap[a].BulletBody? then a else b;
      var asteroid := if heap[a].AsteroidBody? then a else b;
      var rock := heap[asteroid].asteroid;
      var bt := TransformOf(heap[bullet]);
      assert Sound(heap[asteroid]);
      var points := Collisions.AsteroidPoints(rock.t.radius);
      gs.AddScore(points);
      AddEntity(IndicatorBody(Indicators.Create(Collisions.Label(points), rock.t.position, Collisions.LABEL_SIZE)));
      var aim := Scale(bt.velocity, N.LimitBy(num, bt.velocity, Collisions.DEBRIS_SPEED));
      Shatter(bullet, asteroid, bt.position, aim, num, dice);
    }

    /** `handleBulletRocketCollision`. */
    method HandleBulletRocket(a: Id, b: Id, gs: GameStates.GameState, num: N.Numerics, dice: Dice)
      requires Collisions.Pair(World(gs), a, b)
      requires (heap[a].BulletBody? && heap[b].RocketBody?) || (heap[b].BulletBody? && heap[a].RocketBody?)
      modifies this, gs
      ensures World(gs) == Collisions.HandleBulletRocket(old(World(gs)), a, b, num, dice)
      ensures lastSpawnedRocketTime == old(lastSpawnedRocketTime)
    {
      var bullet := if heap[a].BulletBody? then a else b;
      var rocket := if heap[a].RocketBody? then a else b;
      var bt, rt := TransformOf(heap[bullet]), TransformOf(heap[rocket]);
      gs.AddScore(Collisions.ROCKET_POINTS);
      AddEntity(IndicatorBody(Indicators.Create(Collisions.Label(Collisions.ROCKET_POINTS), rt.position, Collisions.LABEL_SIZE)));
      RemoveEntity(bullet);
      RemoveEntity(rocket);
      CreateExplosion(rt.position, Scale(bt.velocity, N.SetMagBy(num, bt.velocity, Collisions.DEBRIS_SPEED)),
                      Collisions.ROCKET_EXPLOSION_SPARKS, num, dice);
    }

    /**
     * `destroyShip`: the sparks, `ship.die()`, and a life lost. The
     * `setTimeout` that calls `ship.reborn()` half a second later is
     * `RebornShip`, a separate event.
     */
    method DestroyShip(ship: Id, force: Vec, gs: GameStates.GameState, num: N.Numerics, dice: Dice)
      requires Collisions.Pair(World(gs), ship, ship) && heap[ship].ShipBody?
      modifies this, gs
      ensures World(gs) == Collisions.DestroyShip(old(World(gs)), ship, force, num, dice)
      ensures lastSpawnedRocketTime == old(lastSpawnedRocketTime)
    {
      var st := heap[ship].ship;
      var explosionVel := Vectors.Add(st.t.velocity, force);
      if N.Mag(num, explosionVel) < Collisions.DEBRIS_SPEED {
        explosionVel := Scale(explosionVel, N.SetMagBy(num, explosionVel, Collisions.DEBRIS_SPEED));
      }
      CreateExplosion(st.t.position, explosionVel, Collisions.EXPLOSION_SPARKS, num, dice);
      heap := heap[ship := ShipBody(Ships.Killed(st))];
      gs.DecrementLives();
    }

    /** `handleShipAsteroidCollision`: the guard reads the manager's own ship. */
    method HandleShipAsteroid(a: Id, b: Id, gs: GameStates.GameState, num: N.Numerics, dice: Dice)
      requires Collisions.Pair(World(gs), a, b)
      requires (heap[a].ShipBody? && heap[b].AsteroidBody?) || (heap[b].ShipBody? && heap[a].AsteroidBody?)
      modifies this, gs
      ensures World(gs) == Collisions.HandleShipAsteroid(old(World(gs)), a, b, num, dice)
      ensures lastSpawnedRocketTime == old(lastSpawnedRocketTime)
    {
      var own := heap[this.ship].ship;
      if own.isDead || own.invincible {
        return;
      }
      var ship := if heap[a].ShipBody? then a else b;
      var asteroid := if heap[a].AsteroidBody? then a else b;
      var force := TransformOf(heap[asteroid]).velocity;
      DestroyShip(ship, force, gs, num, dice);
      RemoveEntity(asteroid);
    }

    /** `handleShipRocketCollision`: the guard reads the pair's ship. */
    method HandleShipRocket(a: Id, b: Id, gs: GameStates.GameState, num: N.Numerics, dice: Dice)
      requires Collisions.Pair(World(gs), a, b)
      requires (heap[a].ShipBody? && heap[b].RocketBody?) || (heap[b].ShipBody? && heap[a].RocketBody?)
      modifies this, gs
      ensures World(gs) == Collisions.HandleShipRocket(old(World(gs)), a, b, num, dice)
      ensures lastSpawnedRocketTime == old(lastSpawnedRocketTime)
    {
      var ship := if heap[a].ShipBody? then a else b;
      var rocket := if heap[a].RocketBody? then a else b;
      var st := heap[ship].ship;
      if st.isDead || st.invincible {
        return;
      }
      var rv := TransformOf(heap[rocket]).velocity;
      var sum := Vectors.Add(rv, st.t.velocity);
      var force := Scale(sum, N.SetMagBy(num, sum, N.Mag(num, rv)));
      DestroyShip(ship, force, gs, num, dice);
      RemoveEntity(rocket);
    }

    /** `handleRocketAsteroidCollision`: no points. */
    method HandleRocketAsteroid(a: Id, b: Id, gs: GameStates.GameState, num: N.Numerics, dice: Dice)
      requires Collisions.Pair(World(gs), a, b)
      requires (heap[a].RocketBody? && heap[b].AsteroidBody?) || (heap[b].RocketBody? && heap[a].AsteroidBody?)
      modifies this
      ensures World(gs) == Collisions.HandleRocketAsteroid(old(World(gs)), a, b, num, dice)
      ensures lastSpawnedRocketTime == old(lastSpawnedRocketTime)
    {
      var rocket := if heap[a].RocketBody? then a else b;
      var asteroid := if heap[a].AsteroidBody? then a else b;
      var at := TransformOf(heap[asteroid]);
      var force := Vectors.Add(at.velocity, TransformOf(heap[rocket]).velocity);
      var aim := Scale(force, N.LimitBy(num, force, Collisions.ROCKET_DEBRIS_SPEED));
      Shatter(rocket, asteroid, at.position, aim, num, dice);
    }

    /** `collision(entityA, entityB)`: the first handler whose class test the pair passes. */
    method Collision(a: Id, b: Id, gs: GameStates.GameState, num: N.Numerics, dice: Dice)
      requires Collisions.Pair(World(gs), a, b)
      modifies this, gs
      ensures World(gs) == Collisions.Collision(old(World(gs)), a, b, num, dice)
      ensures lastSpawnedRocketTime == old(lastSpawnedRocketTime)
    {
      match Collisions.Pick(heap[a], heap[b])
      case IsBothAsteroids => HandleAsteroidAsteroid(a, b, gs, num);
      case IsBulletAsteroid => HandleBulletAsteroid(a, b, gs, num, dice);
      case IsBulletRocket => HandleBulletRocket(a, b, gs, num, dice);
      case IsShipAsteroid => HandleShipAsteroid(a, b, gs, num, dice);
      case IsShipRocket => HandleShipRocket(a, b, gs, num, dice);
      case IsRocketAsteroid => HandleRocketAsteroid(a, b, gs, num, dice);
      case NoHandler =>
    }

    /**
     * `checkCollisions`: every pair (i, j), i < j, of the collisional
     * entities the array held when the scan began, checked against the
     * current states.
     */
    method CheckCollisions(gs: GameStates.GameState, num: N.Numerics, dice: Dice)
      requires Valid()
      modifies this, gs
      ensures Valid() && World(gs) == Collisions.CheckCollisions(old(World(gs)), num, dice)
      ensures lastSpawnedRocketTime == old(lastSpawnedRocketTime)
    {
      var c := Colliders(entities, heap);
      CollidersMembers(entities, heap);
      assert forall k :: 0 <= k < |c| ==> c[k] in c;
      ghost var w0 := World(gs);
      assert Collisions.CheckCollisions(w0, num, dice) == Collisions.Scan(w0, c, 0, 1, num, dice);
      ScanAll(c, gs, num, dice);
    }

    /** The outer loop of `checkCollisions`, over the snapshot `c` of the collisional entities. */
    method ScanAll(c: seq<Id>, gs: GameStates.GameState, num: N.Numerics, dice: Dice)
      requires Valid() && forall k :: 0 <= k < |c| ==> c[k] in heap && Collidable(heap[c[k]])
      modifies this, gs
      ensures Valid() && World(gs) == Collisions.Scan(old(World(gs)), c, 0, 1, num, dice)
      ensures lastSpawnedRocketTime == old(lastSpawnedRocketTime)
    {
      for i := 0 to |c|
        invariant Valid() && lastSpawnedRocketTime == old(lastSpawnedRocketTime)
        invariant forall k :: 0 <= k < |c| ==> c[k] in heap && Collidable(heap[c[k]])
        invariant Collisions.Scan(World(gs), c, i, i + 1, num, dice) == Collisions.Scan(old(World(gs)), c, 0, 1, num, dice)
      {
        ScanFrom(i, c, gs, num, dice);
      }
    }

    /** The inner loop of `checkCollisions`: entity `i` against every later one. */
    method ScanFrom(i: nat, c: seq<Id>, gs: GameStates.GameState, num: N.Numerics, dice: Dice)
      requires Valid() && i < |c| && forall k :: 0 <= k < |c| ==> c[k] in heap && Collidable(heap[c[k]])
      modifies this, gs
      ensures Valid() && forall k :: 0 <= k < |c| ==> c[k] in heap && Collidable(heap[c[k]])
      ensures Collisions.Scan(World(gs), c, i + 1, i + 2, num, dice) == Collisions.Scan(old(World(gs)), c, i, i + 1, num, dice)
      ensures lastSpawnedRocketTime == old(lastSpawnedRocketTime)
    {
      for j := i + 1 to |c|
        invariant Valid() && lastSpawnedRocketTime == old(lastSpawnedRocketTime)
        invariant forall k :: 0 <= k < |c| ==> c[k] in heap && Collidable(heap[c[k]])
        invariant Collisions.Scan(World(gs), c, i, j, num, dice) == Collisions.Scan(old(World(gs)), c, i, i + 1, num, dice)
      {
        ghost var w := World(gs);
        if Collisional.Overlaps(TransformOf(heap[c[i]]), TransformOf(heap[c[j]])) {
          Collision(c[i], c[j], gs, num, dice);
          Collisions.CollisionKeeps(w, c[i], c[j], num, dice);
          forall k | 0 <= k < |c|
            ensures c[k] in heap && Collidable(heap[c[k]])
          {
            assert c[k] in w.scene.heap && Collidable(w.scene.heap[c[k]]);
            assert SameClass(w.scene.heap[c[k]], heap[c[k]]);
          }
        }
      }
    }

    /** A change the game makes to the manager's ship in place (`addRotation`, `shoot`, `boost`). */
    method SetShip(st: Ships.ShipState)
      requires Valid()
      modifies this
      ensures Valid() && Scene() == SetBody(old(Scene()), ship, ShipBody(st))
      ensures lastSpawnedRocketTime == old(lastSpawnedRocketTime)
    {
      SetBodyWellFormed(Scene(), ship, ShipBody(st));
      heap := heap[ship := ShipBody(st)];
    }

    /** The `setTimeout` of `destroyShip`, when it fires: `ship.reborn()`. */
    method RebornShip(e: Env)
      requires Valid()
      modifies this
      ensures Valid()
      ensures Scene() == SetBody(old(Scene()), ship, ShipBody(Ships.Revived(old(heap[ship]).ship, e.width, e.height)))
      ensures lastSpawnedRocketTime == old(lastSpawnedRocketTime)
    {
      var st := heap[ship].ship;
      SetBodyWellFormed(Scene(), ship, ShipBody(Ships.Revived(st, e.width, e.height)));
      heap := heap[ship := ShipBody(Ships.Revived(st, e.width, e.height))];
    }
  }
}
