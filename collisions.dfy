/**
 * The collision pass of the entities manager (entities.manager.ts): the
 * snapshot of collisional entities, the pairwise scan, the dispatch on the
 * classes of a pair, the six handlers, explosions and ship destruction.
 */
module Collisions {
  import opened Wrappers
  import opened Vectors
  import opened Reals
  import opened Chance
  import N = Numerics
  import opened Bodies
  import opened EntityList
  import opened Scenes
  import opened Draws
  import GameStates
  import Entities
  import Transformable
  import Collisional
  import Ships
  import Asteroids
  import Indicators

  /** The manager's scene and the counters of the game state it reports to. */
  datatype World = World(scene: Scene, counters: GameStates.Counters)

  const EXPLOSION_SPARKS: nat := 100
  const ROCKET_EXPLOSION_SPARKS: nat := 150
  const ROCKET_POINTS: int := 150
  const LABEL_SIZE: real := 16.0
  /** The speed `limit` or `setMag` gives the velocity an explosion is aimed along. */
  const DEBRIS_SPEED: real := 5.0
  const ROCKET_DEBRIS_SPEED: real := 6.0

  // ---------------------------------------------------------------- points and labels

  /** `Math.floor(100 / radius) * 15`. */
  function AsteroidPoints(radius: real): int
    requires radius > 0.0
  {
    (100.0 / radius).Floor * 15
  }

  function Digit(d: int): char
    requires 0 <= d < 10
  {
    "0123456789"[d]
  }

  /** The decimal numeral of a number. */
  function Decimal(n: nat): string
    decreases n
  {
    if n < 10 then [Digit(n)] else Decimal(n / 10) + [Digit(n % 10)]
  }

  /** The value of a numeral; the partner of `Decimal`. */
  function Value(s: string): int
    decreases |s|
  {
    if |s| == 0 then 0 else Value(s[..|s| - 1]) * 10 + ((s[|s| - 1] as int) - ('0' as int))
  }

  /** The template `+${points}`. */
  function Label(points: int): string {
    if points >= 0 then "+" + Decimal(points) else "+-" + Decimal(-points)
  }

  // ---------------------------------------------------------------- explosions and splits

  /** The sparks of `createExplosion`, the first of which gets identity `first`. */
  function Debris(num: N.Numerics, position: Vec, velocity: Vec, count: nat, first: int, dice: Dice): seq<Body> {
    seq(count, i => SparkBody(Spark(num, position, velocity, count, dice.spark(first + i))))
  }

  /** `createExplosion`: all sparks are made first, then added one by one. */
  function Explosion(s: Scene, num: N.Numerics, position: Vec, velocity: Vec, count: nat, dice: Dice): Scene
    requires Stored(s.entities, s.heap)
  {
    AddAll(s, Debris(num, position, velocity, count, s.nextId, dice))
  }

  /**
   * The factors `split` computes: the parent's speed, then those of
   * `setMag(speed * 1.5)` and `limit(10)` on the sum of the two velocities,
   * with the square roots taken by `num`.
   */
  function SplitFactors(num: N.Numerics, a: Asteroids.AsteroidState, impact: Body): (real, real, real)
    requires Movable(impact)
  {
    var combined := Vectors.Add(a.t.velocity, TransformOf(impact).velocity);
    var oldMag := N.Mag(num, a.t.velocity);
    var k1 := N.SetMagBy(num, combined, oldMag * Asteroids.SPLIT_SPEEDUP);
    (oldMag, k1, N.LimitBy(num, Scale(combined, k1), Asteroids.SPLIT_MAX_SPEED))
  }

  /** The velocity both pieces share before their tilt. */
  function SplitVelocity(num: N.Numerics, a: Asteroids.AsteroidState, impact: Body): Vec
    requires Movable(impact)
  {
    var f := SplitFactors(num, a, impact);
    Asteroids.Combined(a, TransformOf(impact), f.1, f.2)
  }

  /** Piece `k` of a split gets identity `first + k` and reads its draws from it. */
  function PieceDraws(dice: Dice, first: int): int -> Asteroids.SplitDraw {
    k => dice.piece(first + k)
  }

  /** `asteroid.split(impact)`; the first piece gets identity `first`. */
  function Pieces(num: N.Numerics, a: Asteroids.AsteroidState, impact: Body, first: int, dice: Dice)
    : seq<Asteroids.AsteroidState>
    requires Movable(impact)
  {
    var f := SplitFactors(num, a, impact);
    Asteroids.Fragments(a, Extensions(impact), f.0, f.1, f.2, PieceDraws(dice, first))
  }

  function AsBodies(pieces: seq<Asteroids.AsteroidState>): seq<Body> {
    seq(|pieces|, k requires 0 <= k < |pieces| => AsteroidBody(pieces[k]))
  }

  // ---------------------------------------------------------------- dispatch

  /** Which handler `collision` picks, in the order it tests. */
  datatype Handler =
    | IsBothAsteroids | IsBulletAsteroid | IsBulletRocket
    | IsShipAsteroid | IsShipRocket | IsRocketAsteroid | NoHandler

  function Pick(a: Body, b: Body): Handler {
    if a.AsteroidBody? && b.AsteroidBody? then IsBothAsteroids
    else if (a.BulletBody? && b.AsteroidBody?) || (b.BulletBody? && a.AsteroidBody?) then IsBulletAsteroid
    else if (a.BulletBody? && b.RocketBody?) || (b.BulletBody? && a.RocketBody?) then IsBulletRocket
    else if (a.ShipBody? && b.AsteroidBody?) || (b.ShipBody? && a.AsteroidBody?) then IsShipAsteroid
    else if (a.ShipBody? && b.RocketBody?) || (b.ShipBody? && a.RocketBody?) then IsShipRocket
    else if (a.RocketBody? && b.AsteroidBody?) || (b.RocketBody? && a.AsteroidBody?) then IsRocketAsteroid
    else NoHandler
  }

  /** The pair the scan found, with the invariant of the scene. */
  predicate Pair(w: World, a: Id, b: Id) {
    WellFormed(w.scene) && a in w.scene.heap && b in w.scene.heap
  }

  // ---------------------------------------------------------------- handlers

  /** `handleAsteroidAsteroidCollision`: the elastic response; coincident centres are left alone. */
  function HandleAsteroidAsteroid(w: World, a: Id, b: Id, num: N.Numerics): World
    requires Pair(w, a, b) && w.scene.heap[a].AsteroidBody? && w.scene.heap[b].AsteroidBody?
  {
    var s := w.scene;
    var ta, tb := TransformOf(s.heap[a]), TransformOf(s.heap[b]);
    var d := N.Mag(num, Sub(tb.position, ta.position));
    if d > 0.0 then
      assert Sound(s.heap[a]) && Sound(s.heap[b]);
      var moved := Collisional.Collide(ta, tb, d);
      var s1 := SetBody(s, a, WithTransform(s.heap[a], moved.0));
      w.(scene := SetBody(s1, b, WithTransform(s1.heap[b], moved.1)))
    else w
  }

  /**
   * The common tail of the bullet and rocket hits on an asteroid: both objects
   * leave the array, the asteroid's pieces join it, then the sparks.
   */
  function Shatter(s: Scene, hitter: Id, asteroid: Id, at: Vec, aim: Vec, num: N.Numerics, dice: Dice): Scene
    requires Stored(s.entities, s.heap) && hitter in s.heap && asteroid in s.heap
    requires s.heap[asteroid].AsteroidBody? && Movable(s.heap[hitter])
  {
    var s1 := Remove(Remove(s, hitter), asteroid);
    Place(s1, AsBodies(Pieces(num, s.heap[asteroid].asteroid, s.heap[hitter], s1.nextId, dice)), at, aim, num, dice)
  }

  /** The pieces `bs` join the array one by one, then the sparks at `at`. */
  function Place(s: Scene, bs: seq<Body>, at: Vec, aim: Vec, num: N.Numerics, dice: Dice): Scene
    requires Stored(s.entities, s.heap)
  {
    Explosion(AddAll(s, bs), num, at, aim, EXPLOSION_SPARKS, dice)
  }

  /**
   * `handleBulletAsteroidCollision`: score by size, a label at the asteroid,
   * bullet and asteroid removed, the pieces added, sparks along the bullet.
   */
  function HandleBulletAsteroid(w: World, a: Id, b: Id, num: N.Numerics, dice: Dice): World
    requires Pair(w, a, b)
    requires (w.scene.heap[a].BulletBody? && w.scene.heap[b].AsteroidBody?)
          || (w.scene.heap[b].BulletBody? && w.scene.heap[a].AsteroidBody?)
  {
    var s := w.scene;
    var bullet := if s.heap[a].BulletBody? then a else b;
    var asteroid := if s.heap[a].AsteroidBody? then a else b;
    var rock := s.heap[asteroid].asteroid;
    var bt := TransformOf(s.heap[bullet]);
    assert Sound(s.heap[asteroid]);
    var points := AsteroidPoints(rock.t.radius);
    var s1 := Scenes.Add(s, IndicatorBody(Indicators.Create(Label(points), rock.t.position, LABEL_SIZE)));
    var aim := Scale(bt.velocity, N.LimitBy(num, bt.velocity, DEBRIS_SPEED));
    World(Shatter(s1, bullet, asteroid, bt.position, aim, num, dice), GameStates.Scored(w.counters, points))
  }

  /** `handleBulletRocketCollision`: 150 points, a label at the rocket, both removed, 150 sparks. */
  function HandleBulletRocket(w: World, a: Id, b: Id, num: N.Numerics, dice: Dice): World
    requires Pair(w, a, b)
    requires (w.scene.heap[a].BulletBody? && w.scene.heap[b].RocketBody?)
          || (w.scene.heap[b].BulletBody? && w.scene.heap[a].RocketBody?)
  {
    var s := w.scene;
    var bullet := if s.heap[a].BulletBody? then a else b;
    var rocket := if s.heap[a].RocketBody? then a else b;
    var bt, rt := TransformOf(s.heap[bullet]), TransformOf(s.heap[rocket]);
    var s1 := Scenes.Add(s, IndicatorBody(Indicators.Create(Label(ROCKET_POINTS), rt.position, LABEL_SIZE)));
    var s2 := Remove(Remove(s1, bullet), rocket);
    var s3 := Explosion(s2, num, rt.position, Scale(bt.velocity, N.SetMagBy(num, bt.velocity, DEBRIS_SPEED)),
                        ROCKET_EXPLOSION_SPARKS, dice);
    World(s3, GameStates.Scored(w.counters, ROCKET_POINTS))
  }

  /**
   * `destroyShip`: sparks along the ship's velocity plus `force` (sped up to
   * 5 when slower), the ship dies, a life is lost. The rebirth half a second
   * later is a separate event.
   */
  function DestroyShip(w: World, ship: Id, force: Vec, num: N.Numerics, dice: Dice): World
    requires Pair(w, ship, ship) && w.scene.heap[ship].ShipBody?
  {
    var st := w.scene.heap[ship].ship;
    var v := Vectors.Add(st.t.velocity, force);
    var aim := if N.Mag(num, v) < DEBRIS_SPEED then Scale(v, N.SetMagBy(num, v, DEBRIS_SPEED)) else v;
    var s1 := Explosion(w.scene, num, st.t.position, aim, EXPLOSION_SPARKS, dice);
    World(SetBody(s1, ship, ShipBody(Ships.Killed(st))), GameStates.LifeLost(w.counters))
  }

  /** `handleShipAsteroidCollision`: the guard reads the manager's own ship. */
  function HandleShipAsteroid(w: World, a: Id, b: Id, num: N.Numerics, dice: Dice): World
    requires Pair(w, a, b)
    requires (w.scene.heap[a].ShipBody? && w.scene.heap[b].AsteroidBody?)
          || (w.scene.heap[b].ShipBody? && w.scene.heap[a].AsteroidBody?)
  {
    var s := w.scene;
    var own := s.heap[s.ship].ship;
    if own.isDead || own.invincible then w
    else
      var ship := if s.heap[a].ShipBody? then a else b;
      var asteroid := if s.heap[a].AsteroidBody? then a else b;
      var w1 := DestroyShip(w, ship, TransformOf(s.heap[asteroid]).velocity, num, dice);
      w1.(scene := Remove(w1.scene, asteroid))
  }

  /** `handleShipRocketCollision`: the guard reads the pair's ship; the push has the rocket's speed. */
  function HandleShipRocket(w: World, a: Id, b: Id, num: N.Numerics, dice: Dice): World
    requires Pair(w, a, b)
    requires (w.scene.heap[a].ShipBody? && w.scene.heap[b].RocketBody?)
          || (w.scene.heap[b].ShipBody? && w.scene.heap[a].RocketBody?)
  {
    var s := w.scene;
    var ship := if s.heap[a].ShipBody? then a else b;
    var rocket := if s.heap[a].RocketBody? then a else b;
    var st := s.heap[ship].ship;
    if st.isDead || st.invincible then w
    else
      var rv := TransformOf(s.heap[rocket]).velocity;
      var sum := Vectors.Add(rv, st.t.velocity);
      var w1 := DestroyShip(w, ship, Scale(sum, N.SetMagBy(num, sum, N.Mag(num, rv))), num, dice);
      w1.(scene := Remove(w1.scene, rocket))
  }

  /** `handleRocketAsteroidCollision`: both removed, the pieces added, sparks; no points. */
  function HandleRocketAsteroid(w: World, a: Id, b: Id, num: N.Numerics, dice: Dice): World
    requires Pair(w, a, b)
    requires (w.scene.heap[a].RocketBody? && w.scene.heap[b].AsteroidBody?)
          || (w.scene.heap[b].RocketBody? && w.scene.heap[a].AsteroidBody?)
  {
    var s := w.scene;
    var rocket := if s.heap[a].RocketBody? then a else b;
    var asteroid := if s.heap[a].AsteroidBody? then a else b;
    var at := TransformOf(s.heap[asteroid]);
    var f := Vectors.Add(at.velocity, TransformOf(s.heap[rocket]).velocity);
    var aim := Scale(f, N.LimitBy(num, f, ROCKET_DEBRIS_SPEED));
    w.(scene := Shatter(s, rocket, asteroid, at.position, aim, num, dice))
  }

  /** `collision(entityA, entityB)`. */
  function Collision(w: World, a: Id, b: Id, num: N.Numerics, dice: Dice): World
    requires Pair(w, a, b)
  {
    var h := w.scene.heap;
    match Pick(h[a], h[b])
    case IsBothAsteroids => HandleAsteroidAsteroid(w, a, b, num)
    case IsBulletAsteroid => HandleBulletAsteroid(w, a, b, num, dice)
    case IsBulletRocket => HandleBulletRocket(w, a, b, num, dice)
    case IsShipAsteroid => HandleShipAsteroid(w, a, b, num, dice)
    case IsShipRocket => HandleShipRocket(w, a, b, num, dice)
    case IsRocketAsteroid => HandleRocketAsteroid(w, a, b, num, dice)
    case NoHandler => w
  }

  /** The test `intersects` of the scan: the current states of snapshot entries `i` and `j` overlap. */
  predicate Touching(w: World, c: seq<Id>, i: nat, j: nat)
    requires forall k :: 0 <= k < |c| ==> c[k] in w.scene.heap && Collidable(w.scene.heap[c[k]])
    requires i < |c| && j < |c|
  {
    var h := w.scene.heap;
    assert Collidable(h[c[i]]) && Collidable(h[c[j]]);
    Collisional.Overlaps(TransformOf(h[c[i]]), TransformOf(h[c[j]]))
  }

  /**
   * The body of the inner loop of `checkCollisions` for pair (i, j) of the
   * snapshot `c`: `collision` exactly when the two current states overlap.
   * Whether `c[i]` or `c[j]` is still in the array is not consulted, so an
   * entity removed earlier in the pass is still checked against the rest.
   */
  function ScanStep(w: World, c: seq<Id>, i: nat, j: nat, num: N.Numerics, dice: Dice): (r: World)
    requires WellFormed(w.scene) && forall k :: 0 <= k < |c| ==> c[k] in w.scene.heap && Collidable(w.scene.heap[c[k]])
    requires i < |c| && j < |c|
    ensures WellFormed(r.scene) && forall k :: 0 <= k < |c| ==> c[k] in r.scene.heap && Collidable(r.scene.heap[c[k]])
    ensures Grows(w.scene, r.scene) && w.scene.nextId <= r.scene.nextId
    ensures r.counters.score >= w.counters.score && r.counters.level == w.counters.level && r.counters.isPaused == w.counters.isPaused
    ensures w.counters.lives >= 0 ==> 0 <= r.counters.lives <= w.counters.lives
  {
    var h := w.scene.heap;
    var r := if Touching(w, c, i, j) then Collision(w, c[i], c[j], num, dice) else w;
    CollisionKeeps(w, c[i], c[j], num, dice);
    forall k | 0 <= k < |c|
      ensures c[k] in r.scene.heap && Collidable(r.scene.heap[c[k]])
    {
      assert c[k] in h && Collidable(h[c[k]]);
      assert SameClass(h[c[k]], r.scene.heap[c[k]]);
    }
    r
  }

  /**
   * The step for pair (i, j) runs `collision` on the two stored states
   * exactly when they overlap, and changes nothing otherwise, whether or not
   * either entity is still in the array.
   */
  lemma ScanStepChecks(w: World, c: seq<Id>, i: nat, j: nat, num: N.Numerics, dice: Dice)
    requires WellFormed(w.scene) && forall k :: 0 <= k < |c| ==> c[k] in w.scene.heap && Collidable(w.scene.heap[c[k]])
    requires i < |c| && j < |c|
    ensures Touching(w, c, i, j) ==> ScanStep(w, c, i, j, num, dice) == Collision(w, c[i], c[j], num, dice)
    ensures !Touching(w, c, i, j) ==> ScanStep(w, c, i, j, num, dice) == w
  {
  }

  /**
   * `checkCollisions` from pair (i, j) on: every later pair of the snapshot
   * `c` is checked against the current states, so a collision handled earlier
   * in the pass (a bounce, a death) is seen by the later checks.
   */
  function Scan(w: World, c: seq<Id>, i: nat, j: nat, num: N.Numerics, dice: Dice): (r: World)
    requires WellFormed(w.scene) && forall k :: 0 <= k < |c| ==> c[k] in w.scene.heap && Collidable(w.scene.heap[c[k]])
    ensures WellFormed(r.scene) && Grows(w.scene, r.scene) && w.scene.nextId <= r.scene.nextId
    ensures r.counters.score >= w.counters.score && r.counters.level == w.counters.level && r.counters.isPaused == w.counters.isPaused
    ensures w.counters.lives >= 0 ==> 0 <= r.counters.lives <= w.counters.lives
    decreases |c| - i, |c| - j
  {
    if i >= |c| then w
    else if j >= |c| then Scan(w, c, i + 1, i + 2, num, dice)
    else
      var h := w.scene.heap;
      assert Collidable(h[c[i]]) && Collidable(h[c[j]]);
      var w1 := if Collisional.Overlaps(TransformOf(h[c[i]]), TransformOf(h[c[j]])) then Collision(w, c[i], c[j], num, dice) else w;
      CollisionKeeps(w, c[i], c[j], num, dice);
      forall k | 0 <= k < |c|
        ensures c[k] in w1.scene.heap && Collidable(w1.scene.heap[c[k]])
      {
        assert c[k] in h && Collidable(h[c[k]]);
        assert SameClass(h[c[k]], w1.scene.heap[c[k]]);
      }
      var r := Scan(w1, c, i, j + 1, num, dice);
      GrowsTransitive(w.scene, w1.scene, r.scene);
      r
  }

  /** The whole pass: every pair of the collisional entities, in array order. */
  function CheckCollisions(w: World, num: N.Numerics, dice: Dice): (r: World)
    requires WellFormed(w.scene)
    ensures WellFormed(r.scene) && Grows(w.scene, r.scene) && w.scene.nextId <= r.scene.nextId
    ensures r.counters.score >= w.counters.score && r.counters.level == w.counters.level && r.counters.isPaused == w.counters.isPaused
    ensures w.counters.lives >= 0 ==> 0 <= r.counters.lives <= w.counters.lives
  {
    var c := Colliders(w.scene.entities, w.scene.heap);
    CollidersMembers(w.scene.entities, w.scene.heap);
    assert forall k :: 0 <= k < |c| ==> c[k] in c;
    Scan(w, c, 0, 1, num, dice)
  }

  // ---------------------------------------------------------------- the pairs of the scan

  /** Every pair of `ps` indexes a list of length `n`, the smaller index first. */
  predicate Below(ps: seq<(nat, nat)>, n: nat) {
    forall k :: 0 <= k < |ps| ==> ps[k].0 < ps[k].1 < n
  }

  /** The index pairs the two loops of `checkCollisions` visit from (i, j) on, in visiting order. */
  function PairsFrom(n: nat, i: nat, j: nat): (ps: seq<(nat, nat)>)
    requires i < j
    ensures Below(ps, n)
    decreases n - i, n - j
  {
    if i >= n then []
    else if j >= n then PairsFrom(n, i + 1, i + 2)
    else [(i, j)] + PairsFrom(n, i, j + 1)
  }

  /** Every pair of indices below `n` with the smaller first, in the order the scan visits them. */
  function Pairs(n: nat): seq<(nat, nat)> {
    PairsFrom(n, 0, 1)
  }

  /** The scan as a fold of its pair step over a list of index pairs. */
  function ScanList(w: World, c: seq<Id>, ps: seq<(nat, nat)>, num: N.Numerics, dice: Dice): (r: World)
    requires WellFormed(w.scene) && forall k :: 0 <= k < |c| ==> c[k] in w.scene.heap && Collidable(w.scene.heap[c[k]])
    requires Below(ps, |c|)
    ensures WellFormed(r.scene) && forall k :: 0 <= k < |c| ==> c[k] in r.scene.heap && Collidable(r.scene.heap[c[k]])
    decreases |ps|
  {
    if ps == [] then w
    else ScanList(ScanStep(w, c, ps[0].0, ps[0].1, num, dice), c, ps[1..], num, dice)
  }

  /** From (i, j) on, the pairs still to come are the rest of row `i` and every later row. */
  lemma {:induction false} PairsFromMembers(n: nat, i: nat, j: nat, p: (nat, nat))
    requires i < j
    ensures p in PairsFrom(n, i, j) <==> (p.0 == i && j <= p.1 < n) || (i < p.0 < p.1 < n)
    decreases n - i, n - j
  {
    if i >= n {
      assert PairsFrom(n, i, j) == [];
    } else if j >= n {
      assert PairsFrom(n, i, j) == PairsFrom(n, i + 1, i + 2);
      PairsFromMembers(n, i + 1, i + 2, p);
    } else {
      var t := PairsFrom(n, i, j + 1);
      assert PairsFrom(n, i, j) == [(i, j)] + t;
      assert p in [(i, j)] + t <==> p == (i, j) || p in t;
      PairsFromMembers(n, i, j + 1, p);
    }
  }

  /** The scan meets every pair i < j below `n`, and no other. */
  lemma PairsMembers(n: nat, p: (nat, nat))
    ensures p in Pairs(n) <==> p.0 < p.1 < n
  {
    PairsFromMembers(n, 0, 1, p);
  }

  /** No pair comes twice. */
  lemma {:induction false} PairsFromDistinct(n: nat, i: nat, j: nat)
    requires i < j
    ensures var ps := PairsFrom(n, i, j); forall k, l :: 0 <= k < l < |ps| ==> ps[k] != ps[l]
    decreases n - i, n - j
  {
    if i >= n {
    } else if j >= n {
      assert PairsFrom(n, i, j) == PairsFrom(n, i + 1, i + 2);
      PairsFromDistinct(n, i + 1, i + 2);
    } else {
      var t := PairsFrom(n, i, j + 1);
      PairsFromDistinct(n, i, j + 1);
      PairsFromMembers(n, i, j + 1, (i, j));
      var ps := [(i, j)] + t;
      forall k, l | 0 <= k < l < |ps|
        ensures ps[k] != ps[l]
      {
        if k == 0 {
          assert ps[l] == t[l - 1];
        } else {
          assert ps[k] == t[k - 1] && ps[l] == t[l - 1];
        }
      }
    }
  }

  /** Each pair i < j of the snapshot is visited exactly once. */
  lemma PairsOnce(n: nat)
    ensures forall p :: p in Pairs(n) <==> p.0 < p.1 < n
    ensures forall k, l :: 0 <= k < l < |Pairs(n)| ==> Pairs(n)[k] != Pairs(n)[l]
  {
    forall p: (nat, nat)
      ensures p in Pairs(n) <==> p.0 < p.1 < n
    {
      PairsMembers(n, p);
    }
    PairsFromDistinct(n, 0, 1);
    assert Pairs(n) == PairsFrom(n, 0, 1);
  }

  /** The nested loops are the fold of the pair step over the pairs from (i, j) on. */
  lemma {:induction false} ScanIsFold(w: World, c: seq<Id>, i: nat, j: nat, num: N.Numerics, dice: Dice)
    requires WellFormed(w.scene) && forall k :: 0 <= k < |c| ==> c[k] in w.scene.heap && Collidable(w.scene.heap[c[k]])
    requires i < j
    ensures Scan(w, c, i, j, num, dice) == ScanList(w, c, PairsFrom(|c|, i, j), num, dice)
    decreases |c| - i, |c| - j
  {
    if i >= |c| {
      assert PairsFrom(|c|, i, j) == [];
    } else if j >= |c| {
      ScanIsFold(w, c, i + 1, i + 2, num, dice);
      assert PairsFrom(|c|, i, j) == PairsFrom(|c|, i + 1, i + 2);
    } else {
      ScanIsFold(ScanStep(w, c, i, j, num, dice), c, i, j + 1, num, dice);
      FoldStep(w, c, i, j, num, dice);
    }
  }

  /** One pair of the loops and one element of the fold agree. */
  lemma FoldStep(w: World, c: seq<Id>, i: nat, j: nat, num: N.Numerics, dice: Dice)
    requires WellFormed(w.scene) && forall k :: 0 <= k < |c| ==> c[k] in w.scene.heap && Collidable(w.scene.heap[c[k]])
    requires i < j < |c|
    requires var w1 := ScanStep(w, c, i, j, num, dice);
      Scan(w1, c, i, j + 1, num, dice) == ScanList(w1, c, PairsFrom(|c|, i, j + 1), num, dice)
    ensures Scan(w, c, i, j, num, dice) == ScanList(w, c, PairsFrom(|c|, i, j), num, dice)
  {
    ScanUnfold(w, c, i, j, num, dice);
    ScanListUnfold(w, c, i, j, num, dice);
  }

  lemma ScanUnfold(w: World, c: seq<Id>, i: nat, j: nat, num: N.Numerics, dice: Dice)
    requires WellFormed(w.scene) && forall k :: 0 <= k < |c| ==> c[k] in w.scene.heap && Collidable(w.scene.heap[c[k]])
    requires i < |c| && j < |c|
    ensures Scan(w, c, i, j, num, dice) == Scan(ScanStep(w, c, i, j, num, dice), c, i, j + 1, num, dice)
  {
    ScanStepChecks(w, c, i, j, num, dice);
  }

  lemma ScanListUnfold(w: World, c: seq<Id>, i: nat, j: nat, num: N.Numerics, dice: Dice)
    requires WellFormed(w.scene) && forall k :: 0 <= k < |c| ==> c[k] in w.scene.heap && Collidable(w.scene.heap[c[k]])
    requires i < j < |c|
    ensures ScanList(w, c, PairsFrom(|c|, i, j), num, dice)
         == ScanList(ScanStep(w, c, i, j, num, dice), c, PairsFrom(|c|, i, j + 1), num, dice)
  {
    var ps := PairsFrom(|c|, i, j);
    assert ps[0] == (i, j) && ps[1..] == PairsFrom(|c|, i, j + 1);
  }

  /** The `k`-th pair of the fold is checked against the world the first `k` pairs left. */
  lemma {:induction false} ScanListSplit(w: World, c: seq<Id>, ps: seq<(nat, nat)>, k: nat, num: N.Numerics, dice: Dice)
    requires WellFormed(w.scene) && forall m :: 0 <= m < |c| ==> c[m] in w.scene.heap && Collidable(w.scene.heap[c[m]])
    requires Below(ps, |c|)
    requires k < |ps|
    ensures var before := ScanList(w, c, ps[..k], num, dice);
      ScanList(w, c, ps, num, dice)
      == ScanList(ScanStep(before, c, ps[k].0, ps[k].1, num, dice), c, ps[k + 1..], num, dice)
    decreases k
  {
    if k > 0 {
      var w1 := ScanStep(w, c, ps[0].0, ps[0].1, num, dice);
      ScanListSplit(w1, c, ps[1..], k - 1, num, dice);
      assert ps[1..][..k - 1] == ps[..k][1..];
      assert ps[1..][k - 1] == ps[k] && ps[1..][k..] == ps[k + 1..];
    }
  }

  /**
   * `checkCollisions` visits each pair i < j of its snapshot exactly once,
   * in row order, each against the states the earlier pairs left.
   */
  lemma CheckCollisionsPairs(w: World, num: N.Numerics, dice: Dice)
    requires WellFormed(w.scene)
    ensures var c := Colliders(w.scene.entities, w.scene.heap);
      (forall k :: 0 <= k < |c| ==> c[k] in w.scene.heap && Collidable(w.scene.heap[c[k]]))
      && CheckCollisions(w, num, dice) == ScanList(w, c, Pairs(|c|), num, dice)
  {
    var c := Colliders(w.scene.entities, w.scene.heap);
    CollidersMembers(w.scene.entities, w.scene.heap);
    assert forall k :: 0 <= k < |c| ==> c[k] in c;
    ScanIsFold(w, c, 0, 1, num, dice);
  }

  // ---------------------------------------------------------------- points and labels: lemmas

  /** `a r <= 100 < b r` places `100 / r` in [a, b). */
  lemma RatioBand(radius: real, a: real, b: real)
    requires radius > 0.0 && a * radius <= 100.0 < b * radius
    ensures a <= 100.0 / radius < b
  {
    var q := 100.0 / radius;
    QuotientTimesDivisor(100.0, radius);
    DivideOut(a, q, radius, 100.0);
    DivideOutStrict(q, b, radius, 100.0);
  }

  /**
   * The score for a rock is 15 times the number of whole radii in 100: a rock
   * with k r <= 100 < (k + 1) r is worth 15 k.
   */
  lemma PointsBand(radius: real, k: int)
    requires radius > 0.0 && k >= 0
    requires (k as real) * radius <= 100.0 < ((k + 1) as real) * radius
    ensures AsteroidPoints(radius) == 15 * k
  {
    RatioBand(radius, k as real, (k + 1) as real);
    FloorBetween(100.0 / radius, k);
  }

  /** A score is a non-negative multiple of 15, and smaller rocks are worth at least as much. */
  lemma PointsMonotone(r1: real, r2: real)
    requires 0.0 < r1 <= r2
    ensures AsteroidPoints(r2) >= 0 && AsteroidPoints(r2) % 15 == 0
    ensures AsteroidPoints(r1) >= AsteroidPoints(r2)
  {
    var q1, q2 := 100.0 / r1, 100.0 / r2;
    QuotientTimesDivisor(100.0, r1);
    QuotientTimesDivisor(100.0, r2);
    DivideOut(0.0, q2, r2, 100.0);
    ScaleMonotone(r1, r2, q2);
    DivideOut(q2, q1, r1, 100.0);
  }

  /** A freshly spawned rock (radius 30 to 50) is worth 30 or 45; its pieces (15 to 25) 60 to 90. */
  lemma SpawnedRockPoints(radius: real)
    requires SPAWN_RADIUS_MIN <= radius <= SPAWN_RADIUS_MAX
    ensures AsteroidPoints(radius) == 30 || AsteroidPoints(radius) == 45
    ensures 60 <= AsteroidPoints(radius / 2.0) <= 90
  {
    if 3.0 * radius > 100.0 {
      PointsBand(radius, 2);
    } else {
      PointsBand(radius, 3);
    }
    var h := radius / 2.0;
    if 5.0 * h > 100.0 {
      PointsBand(h, 4);
    } else if 6.0 * h > 100.0 {
      PointsBand(h, 5);
    } else {
      PointsBand(h, 6);
    }
  }

  lemma DigitValue(d: int)
    requires 0 <= d < 10
    ensures (Digit(d) as int) - ('0' as int) == d
  {
  }

  /** A numeral is a non-empty string of digits without a leading zero. */
  lemma {:induction false} DecimalDigits(n: nat)
    ensures |Decimal(n)| >= 1
    ensures forall i :: 0 <= i < |Decimal(n)| ==> '0' <= Decimal(n)[i] <= '9'
    ensures n > 0 ==> Decimal(n)[0] != '0'
    decreases n
  {
    if n >= 10 {
      DecimalDigits(n / 10);
      assert Decimal(n)[0] == Decimal(n / 10)[0];
    }
  }

  /** Reading a numeral back gives the number: the label shows exactly the points awarded. */
  lemma {:induction false} DecimalValue(n: nat)
    ensures Value(Decimal(n)) == n
    decreases n
  {
    if n < 10 {
      DigitValue(n);
      assert Decimal(n)[..0] == [];
    } else {
      DecimalValue(n / 10);
      DigitValue(n % 10);
      var s := Decimal(n);
      assert s[..|s| - 1] == Decimal(n / 10);
    }
  }

  /** `+${points}`: a plus sign followed by the numeral of the points. */
  lemma LabelShape(points: int)
    requires points >= 0
    ensures |Label(points)| >= 2 && Label(points)[0] == '+'
    ensures Value(Label(points)[1..]) == points
  {
    DecimalDigits(points);
    DecimalValue(points);
    assert Label(points)[1..] == Decimal(points);
  }

  /** A rocket's label reads "+150". */
  lemma RocketLabel()
    ensures Label(ROCKET_POINTS) == "+150"
  {
    assert Decimal(1) == "1";
    assert Decimal(15) == "15";
    assert Decimal(150) == "150";
  }

  // ---------------------------------------------------------------- dispatch: lemmas

  /** The pair's order does not change which handler runs. */
  lemma PickSymmetric(a: Body, b: Body)
    ensures Pick(a, b) == Pick(b, a)
  {
  }

  /**
   * Each handler runs for exactly its pair of classes; every other pair (one
   * without a collisional extension, two bullets, two ships, two rockets, a
   * ship and a bullet) has no effect.
   */
  lemma PickTable(a: Body, b: Body)
    ensures Pick(a, b) == IsBothAsteroids <==> a.AsteroidBody? && b.AsteroidBody?
    ensures Pick(a, b) == IsBulletAsteroid <==> (a.BulletBody? && b.AsteroidBody?) || (a.AsteroidBody? && b.BulletBody?)
    ensures Pick(a, b) == IsBulletRocket <==> (a.BulletBody? && b.RocketBody?) || (a.RocketBody? && b.BulletBody?)
    ensures Pick(a, b) == IsShipAsteroid <==> (a.ShipBody? && b.AsteroidBody?) || (a.AsteroidBody? && b.ShipBody?)
    ensures Pick(a, b) == IsShipRocket <==> (a.ShipBody? && b.RocketBody?) || (a.RocketBody? && b.ShipBody?)
    ensures Pick(a, b) == IsRocketAsteroid <==> (a.RocketBody? && b.AsteroidBody?) || (a.AsteroidBody? && b.RocketBody?)
    ensures Pick(a, b) == NoHandler <==>
      !Collidable(a) || !Collidable(b) || (a.BulletBody? && b.BulletBody?) || (a.ShipBody? && b.ShipBody?)
      || (a.RocketBody? && b.RocketBody?) || (a.ShipBody? && b.BulletBody?) || (a.BulletBody? && b.ShipBody?)
  {
  }

  // ---------------------------------------------------------------- splits and explosions: lemmas

  /**
   * Every entity that can hit a rock carries a transformable, so a rock of
   * radius at least 20 always breaks into two sound pieces of half its radius,
   * and a smaller one into none.
   */
  lemma PiecesShape(num: N.Numerics, a: Asteroids.AsteroidState, impact: Body, first: int, dice: Dice)
    requires Movable(impact) && Sound(AsteroidBody(a))
    ensures var p := Pieces(num, a, impact, first, dice);
      (|p| == 2 <==> a.radius >= Asteroids.MIN_SPLIT_RADIUS) && (|p| == 0 <==> a.radius < Asteroids.MIN_SPLIT_RADIUS)
      && forall k :: 0 <= k < |p| ==> p[k].radius == a.radius / 2.0 && Admissible(AsteroidBody(p[k]))
  {
    var f := SplitFactors(num, a, impact);
    var draws := PieceDraws(dice, first);
    var exts := Extensions(impact);
    var rest := exts[1..];
    assert exts == [Entities.TransformableExt(TransformOf(impact))] + rest;
    assert Entities.ClassOf(exts[0]) == Entities.TransformableClass;
    Asteroids.SplitArity(a, exts, f.0, f.1, f.2, draws);
    if a.radius >= Asteroids.MIN_SPLIT_RADIUS {
      Asteroids.SplitPieces(a, TransformOf(impact), rest, f.0, f.1, f.2, draws, 0);
      Asteroids.SplitPieces(a, TransformOf(impact), rest, f.0, f.1, f.2, draws, 1);
    }
  }

  /**
   * With exact square roots the pieces move at the shared velocity tilted by
   * plus or minus PI/5, which is never faster than 10 and is 1.5 times the
   * rock's speed when that is within 10 and the velocities do not cancel.
   */
  lemma PiecesSpeed(num: N.Numerics, a: Asteroids.AsteroidState, impact: Body, first: int, dice: Dice)
    requires N.Exact(num) && Movable(impact) && Sound(AsteroidBody(a))
    ensures SqLen(SplitVelocity(num, a, impact)) <= 100.0
    ensures SqLen(Vectors.Add(a.t.velocity, TransformOf(impact).velocity)) > 0.0 && 2.25 * SqLen(a.t.velocity) <= 100.0
      ==> SqLen(SplitVelocity(num, a, impact)) == 2.25 * SqLen(a.t.velocity)
    ensures var p := Pieces(num, a, impact, first, dice);
      forall k :: 0 <= k < |p| ==> p[k].t.velocity == Vectors.Add(SplitVelocity(num, a, impact), Asteroids.Tilt(k))
  {
    var it := TransformOf(impact);
    var combined := Vectors.Add(a.t.velocity, it.velocity);
    var f := SplitFactors(num, a, impact);
    N.MagExact(num, a.t.velocity);
    N.SetMagByIsFactor(num, combined, f.0 * Asteroids.SPLIT_SPEEDUP);
    N.LimitByIsFactor(num, Scale(combined, f.1), Asteroids.SPLIT_MAX_SPEED);
    assert Asteroids.Rescaled(a.t.velocity, it.velocity, f.0, f.1, f.2);
    Asteroids.SplitSpeed(a, it, f.0, f.1, f.2);
    var p := Pieces(num, a, impact, first, dice);
    var exts := Extensions(impact);
    assert exts == [Entities.TransformableExt(it)] + exts[1..];
    PiecesShape(num, a, impact, first, dice);
    if |p| > 0 {
      Asteroids.SplitPieces(a, it, exts[1..], f.0, f.1, f.2, PieceDraws(dice, first), 0);
      Asteroids.SplitPieces(a, it, exts[1..], f.0, f.1, f.2, PieceDraws(dice, first), 1);
    }
  }

  /** Every spark of an explosion starts at its centre. */
  lemma DebrisAt(num: N.Numerics, position: Vec, velocity: Vec, count: nat, first: int, dice: Dice)
    ensures var d := Debris(num, position, velocity, count, first, dice);
      |d| == count && forall k :: 0 <= k < count ==> d[k].SparkBody? && d[k].spark.t.position == position
  {
    var d := Debris(num, position, velocity, count, first, dice);
    forall k | 0 <= k < count
      ensures d[k].SparkBody? && d[k].spark.t.position == position
    {
      SparkShape(num, position, velocity, count, dice.spark(first + k));
    }
  }

  /** `createExplosion` adds `count` sparks at `position`, spark `id` reading its draws from its identity. */
  lemma ExplosionChanges(s: Scene, num: N.Numerics, position: Vec, velocity: Vec, count: nat, dice: Dice)
    requires WellFormed(s)
    ensures var r := Explosion(s, num, position, velocity, count, dice);
      Changes(s, r, {}, {}) && r.nextId == s.nextId + count
      && forall id :: s.nextId <= id < r.nextId ==>
           id in r.heap && r.heap[id] == SparkBody(Spark(num, position, velocity, count, dice.spark(id)))
  {
    var bs := Debris(num, position, velocity, count, s.nextId, dice);
    AddAllChanges(s, bs);
    var r := AddAll(s, bs);
    forall id | s.nextId <= id < r.nextId
      ensures id in r.heap && r.heap[id] == SparkBody(Spark(num, position, velocity, count, dice.spark(id)))
    {
      assert r.heap[id] == bs[id - s.nextId];
    }
  }

  /** `removeEntity` twice: the array loses both, nothing else changes. */
  lemma RemoveBothChanges(s: Scene, x: Id, y: Id)
    requires WellFormed(s) && y in s.heap
    ensures var r := Remove(Remove(s, x), y);
      Changes(s, r, {x, y}, {}) && r.nextId == s.nextId && r.heap == s.heap
  {
    RemoveChanges(s, x);
    RemoveChanges(Remove(s, x), y);
    ChangesCompose(s, Remove(s, x), Remove(Remove(s, x), y), {x}, {}, {y}, {});
  }

  /** Both objects leave the array; the pieces and then 100 sparks join it. */
  lemma ShatterChanges(s: Scene, hitter: Id, asteroid: Id, at: Vec, aim: Vec, num: N.Numerics, dice: Dice)
    requires WellFormed(s) && hitter in s.heap && asteroid in s.heap
    requires s.heap[asteroid].AsteroidBody? && Movable(s.heap[hitter])
    ensures var r := Shatter(s, hitter, asteroid, at, aim, num, dice);
      var p := Pieces(num, s.heap[asteroid].asteroid, s.heap[hitter], s.nextId, dice);
      Changes(s, r, {hitter, asteroid}, {}) && r.nextId == s.nextId + |p| + EXPLOSION_SPARKS
  {
    var s1 := Remove(Remove(s, hitter), asteroid);
    RemoveBothChanges(s, hitter, asteroid);
    var p := Pieces(num, s.heap[asteroid].asteroid, s.heap[hitter], s1.nextId, dice);
    PiecesShape(num, s.heap[asteroid].asteroid, s.heap[hitter], s1.nextId, dice);
    var s2 := AddAll(s1, AsBodies(p));
    AddAllChanges(s1, AsBodies(p));
    ChangesCompose(s, s1, s2, {hitter, asteroid}, {}, {}, {});
    ExplosionChanges(s2, num, at, aim, EXPLOSION_SPARKS, dice);
    ChangesCompose(s, s2, Shatter(s, hitter, asteroid, at, aim, num, dice), {hitter, asteroid}, {}, {}, {});
  }

  /** The pieces get the first new identities and the sparks, placed at `at`, the rest. */
  lemma ShatterCreates(s: Scene, hitter: Id, asteroid: Id, at: Vec, aim: Vec, num: N.Numerics, dice: Dice)
    requires Stored(s.entities, s.heap) && (forall id :: id in s.heap ==> id < s.nextId)
    requires hitter in s.heap && asteroid in s.heap
    requires s.heap[asteroid].AsteroidBody? && Movable(s.heap[hitter])
    ensures var r := Shatter(s, hitter, asteroid, at, aim, num, dice);
      var p := Pieces(num, s.heap[asteroid].asteroid, s.heap[hitter], s.nextId, dice);
      r.nextId == s.nextId + |p| + EXPLOSION_SPARKS
      && (forall id :: id in s.heap ==> id in r.heap && r.heap[id] == s.heap[id])
      && (forall id :: s.nextId <= id < s.nextId + |p| ==> id in r.heap && r.heap[id] == AsteroidBody(p[id - s.nextId]))
      && (forall id :: s.nextId + |p| <= id < r.nextId ==>
            id in r.heap && r.heap[id].SparkBody? && r.heap[id].spark.t.position == at)
  {
    var s1 := Remove(Remove(s, hitter), asteroid);
    var p := Pieces(num, s.heap[asteroid].asteroid, s.heap[hitter], s.nextId, dice);
    PlaceCreates(s1, AsBodies(p), at, aim, num, dice);
  }

  /**
   * What `Place` leaves after `s`: the heap so far unchanged, the pieces `bs`
   * at the next identities and sparks at `at` at the ones after them.
   */
  ghost predicate Placed(s: Scene, r: Scene, bs: seq<Body>, at: Vec) {
    r.nextId == s.nextId + |bs| + EXPLOSION_SPARKS
    && (forall id :: id in s.heap ==> id in r.heap && r.heap[id] == s.heap[id])
    && (forall id :: s.nextId <= id < s.nextId + |bs| ==> id in r.heap && r.heap[id] == bs[id - s.nextId])
    && (forall id :: s.nextId + |bs| <= id < r.nextId ==>
          id in r.heap && r.heap[id].SparkBody? && r.heap[id].spark.t.position == at)
  }

  lemma PlaceCreates(s: Scene, bs: seq<Body>, at: Vec, aim: Vec, num: N.Numerics, dice: Dice)
    requires Stored(s.entities, s.heap) && (forall id :: id in s.heap ==> id < s.nextId)
    ensures Placed(s, Place(s, bs, at, aim, num, dice), bs, at)
  {
    var first := s.nextId + |bs|;
    var d := Debris(num, at, aim, EXPLOSION_SPARKS, first, dice);
    var r := Place(s, bs, at, aim, num, dice);
    AddAllHeap(s, bs);
    assert r == AddAll(AddAll(s, bs), d);
    AddAllTwice(s, bs, d);
    DebrisAt(num, at, aim, EXPLOSION_SPARKS, first, dice);
    forall id | s.nextId <= id < s.nextId + |bs|
      ensures id in r.heap && r.heap[id] == bs[id - s.nextId]
    {
      assert r.heap[id] == (bs + d)[id - s.nextId];
    }
    forall id | s.nextId + |bs| <= id < r.nextId
      ensures id in r.heap && r.heap[id].SparkBody? && r.heap[id].spark.t.position == at
    {
      assert r.heap[id] == (bs + d)[id - s.nextId] == d[id - first];
    }
  }

  /** A label at identity `s.nextId` followed by a placement of the pieces `p` is laid out in that order. */
  lemma LabelThenPlaced(s: Scene, s2: Scene, r: Scene, m: Body, p: seq<Asteroids.AsteroidState>, at: Vec)
    requires s2.nextId == s.nextId + 1 && s.nextId in s2.heap && s2.heap[s.nextId] == m
    requires Placed(s2, r, AsBodies(p), at)
    ensures LaidOut(s, r, m, AsBodies(p), EXPLOSION_SPARKS, at)
  {
    var bs := AsBodies(p);
    assert forall id :: s.nextId <= id < r.nextId ==> id in r.heap by {
      forall id | s.nextId <= id < r.nextId
        ensures id in r.heap
      {
        if id == s.nextId {
        } else if id < s2.nextId + |bs| {
          assert s2.nextId <= id;
        }
      }
    }
    var slice := Slice(r.heap, s.nextId + 1, |bs|);
    forall k | 0 <= k < |bs|
      ensures slice[k] == bs[k]
    {
      assert r.heap[s2.nextId + k] == bs[s2.nextId + k - s2.nextId];
    }
  }

  lemma PiecesSame(num: N.Numerics, a1: Asteroids.AsteroidState, a2: Asteroids.AsteroidState, i1: Body, i2: Body, f1: int, f2: int, dice: Dice)
    requires a1 == a2 && i1 == i2 && f1 == f2 && Movable(i1)
    ensures Pieces(num, a1, i1, f1, dice) == Pieces(num, a2, i2, f2, dice)
  {
  }

  /**
   * A shatter of a scene that already changed from `s0`: the two struck, both
   * older than `s0`, leave the array on top of what had gone before.
   */
  lemma ShatterChangesFrom(s0: Scene, gone: set<Id>, s: Scene, hitter: Id, asteroid: Id, at: Vec, aim: Vec, num: N.Numerics, dice: Dice)
    requires WellFormed(s0) && Changes(s0, s, gone, {}) && (forall x :: x in gone ==> x < s0.nextId)
    requires hitter in s0.heap && asteroid in s0.heap
    requires s.heap[asteroid].AsteroidBody? && Movable(s.heap[hitter])
    ensures Changes(s0, Shatter(s, hitter, asteroid, at, aim, num, dice), gone + {hitter, asteroid}, {})
  {
    var s1 := Remove(Remove(s, hitter), asteroid);
    RemoveBothChanges(s, hitter, asteroid);
    ChangesCompose(s0, s, s1, gone, {}, {hitter, asteroid}, {});
    var p := Pieces(num, s.heap[asteroid].asteroid, s.heap[hitter], s1.nextId, dice);
    PiecesShape(num, s.heap[asteroid].asteroid, s.heap[hitter], s1.nextId, dice);
    var s2 := AddAll(s1, AsBodies(p));
    AddAllChanges(s1, AsBodies(p));
    ChangesCompose(s0, s1, s2, gone + {hitter, asteroid}, {}, {}, {});
    ExplosionChanges(s2, num, at, aim, EXPLOSION_SPARKS, dice);
    ChangesCompose(s0, s2, Shatter(s, hitter, asteroid, at, aim, num, dice), gone + {hitter, asteroid}, {}, {}, {});
  }

  /** A label added just before a shatter is one more new identity; the two struck leave the array. */
  lemma AddThenShatterChanges(s: Scene, m: Body, hitter: Id, asteroid: Id, at: Vec, aim: Vec, num: N.Numerics, dice: Dice)
    requires WellFormed(s) && Admissible(m) && hitter in s.heap && asteroid in s.heap
    requires s.heap[asteroid].AsteroidBody? && Movable(s.heap[hitter])
    ensures Stored(Scenes.Add(s, m).entities, Scenes.Add(s, m).heap)
    ensures Changes(s, Shatter(Scenes.Add(s, m), hitter, asteroid, at, aim, num, dice), {hitter, asteroid}, {})
  {
    AddChanges(s, m);
    AddWellFormed(s, m);
    ShatterChangesFrom(s, {}, Scenes.Add(s, m), hitter, asteroid, at, aim, num, dice);
    assert {} + {hitter, asteroid} == {hitter, asteroid};
  }

  /** A label added just before a shatter keeps its place, ahead of the pieces and the sparks. */
  lemma AddThenShatter(s: Scene, m: Body, hitter: Id, asteroid: Id, at: Vec, aim: Vec, num: N.Numerics, dice: Dice, r: Scene)
    requires WellFormed(s) && hitter in s.heap && asteroid in s.heap
    requires s.heap[asteroid].AsteroidBody? && Movable(s.heap[hitter])
    requires r == Shatter(Scenes.Add(s, m), hitter, asteroid, at, aim, num, dice)
    ensures LaidOut(s, r, m, AsBodies(Pieces(num, s.heap[asteroid].asteroid, s.heap[hitter], s.nextId + 1, dice)), EXPLOSION_SPARKS, at)
  {
    var s1 := Scenes.Add(s, m);
    AddEffect(s, m);
    var s2 := Remove(Remove(s1, hitter), asteroid);
    assert s2.heap == s1.heap && s2.nextId == s1.nextId;
    var p := Pieces(num, s.heap[asteroid].asteroid, s.heap[hitter], s.nextId + 1, dice);
    PiecesSame(num, s1.heap[asteroid].asteroid, s.heap[asteroid].asteroid, s1.heap[hitter], s.heap[hitter], s2.nextId, s.nextId + 1, dice);
    assert r == Place(s2, AsBodies(p), at, aim, num, dice);
    PlaceCreates(s2, AsBodies(p), at, aim, num, dice);
    LabelThenPlaced(s, s2, r, m, p, at);
  }

  // ---------------------------------------------------------------- handlers: lemmas

  /** The order in which the scan meets a pair matters only for two rocks. */
  lemma CollisionSymmetric(w: World, a: Id, b: Id, num: N.Numerics, dice: Dice)
    requires Pair(w, a, b) && Pick(w.scene.heap[a], w.scene.heap[b]) != IsBothAsteroids
    ensures Collision(w, a, b, num, dice) == Collision(w, b, a, num, dice)
  {
    PickSymmetric(w.scene.heap[a], w.scene.heap[b]);
  }

  /**
   * Two rocks bounce in place: only their states change, no score, and with
   * distinct rocks whose centres differ the total momentum is kept.
   */
  lemma AsteroidAsteroidEffect(w: World, a: Id, b: Id, num: N.Numerics)
    requires Pair(w, a, b) && w.scene.heap[a].AsteroidBody? && w.scene.heap[b].AsteroidBody?
    ensures var s, r := w.scene, HandleAsteroidAsteroid(w, a, b, num);
      r.counters == w.counters && Changes(s, r.scene, {}, {a, b}) && r.scene.nextId == s.nextId
      && (a != b ==> Collisional.Momentum(TransformOf(r.scene.heap[a]), TransformOf(r.scene.heap[b]))
                     == Collisional.Momentum(TransformOf(s.heap[a]), TransformOf(s.heap[b])))
  {
    var s := w.scene;
    var ta, tb := TransformOf(s.heap[a]), TransformOf(s.heap[b]);
    var d := N.Mag(num, Sub(tb.position, ta.position));
    if d > 0.0 {
      assert Sound(s.heap[a]) && Sound(s.heap[b]);
      var moved := Collisional.Collide(ta, tb, d);
      Collisional.CollideFrame(ta, tb, d);
      Collisional.CollideConservesMomentum(ta, tb, d);
      var s1 := SetBody(s, a, WithTransform(s.heap[a], moved.0));
      SetBodyChanges(s, a, WithTransform(s.heap[a], moved.0));
      var s2 := SetBody(s1, b, WithTransform(s1.heap[b], moved.1));
      assert Sound(s1.heap[b]);
      SetBodyChanges(s1, b, WithTransform(s1.heap[b], moved.1));
      ChangesCompose(s, s1, s2, {}, {a}, {}, {b});
    } else {
      assert Changes(s, s, {}, {});
    }
  }

  /**
   * A bullet hitting a rock: the score grows by the rock's points, one label
   * is added, bullet and rock leave the array, and the pieces and 100 sparks
   * join it.
   */
  lemma BulletAsteroidEffect(w: World, bullet: Id, asteroid: Id, num: N.Numerics, dice: Dice)
    requires Pair(w, bullet, asteroid) && w.scene.heap[bullet].BulletBody? && w.scene.heap[asteroid].AsteroidBody?
    ensures var s, r := w.scene, HandleBulletAsteroid(w, bullet, asteroid, num, dice);
      var rock := s.heap[asteroid].asteroid;
      var p := Pieces(num, rock, s.heap[bullet], s.nextId + 1, dice);
      r.counters == GameStates.Scored(w.counters, 15 * (100.0 / rock.t.radius).Floor)
      && Changes(s, r.scene, {bullet, asteroid}, {})
      && r.scene.nextId == s.nextId + 1 + |p| + EXPLOSION_SPARKS
  {
    var s := w.scene;
    var rock := s.heap[asteroid].asteroid;
    assert Sound(s.heap[asteroid]);
    var bt := TransformOf(s.heap[bullet]);
    var marker := IndicatorBody(Indicators.Create(Label(AsteroidPoints(rock.t.radius)), rock.t.position, LABEL_SIZE));
    var aim := Scale(bt.velocity, N.LimitBy(num, bt.velocity, DEBRIS_SPEED));
    assert AsteroidPoints(rock.t.radius) == 15 * (100.0 / rock.t.radius).Floor;
    AddThenShatterChanges(s, marker, bullet, asteroid, bt.position, aim, num, dice);
    BulletAsteroidUnfold(w, bullet, asteroid, num, dice);
    AddThenShatter(s, marker, bullet, asteroid, bt.position, aim, num, dice, HandleBulletAsteroid(w, bullet, asteroid, num, dice).scene);
  }

  /** The handler, with the bullet and the rock in the order the scan met them. */
  lemma BulletAsteroidUnfold(w: World, bullet: Id, asteroid: Id, num: N.Numerics, dice: Dice)
    requires Pair(w, bullet, asteroid) && w.scene.heap[bullet].BulletBody? && w.scene.heap[asteroid].AsteroidBody?
    ensures var s := w.scene;
      var rock := s.heap[asteroid].asteroid;
      assert Sound(s.heap[asteroid]);
      var bt := TransformOf(s.heap[bullet]);
      var marker := IndicatorBody(Indicators.Create(Label(AsteroidPoints(rock.t.radius)), rock.t.position, LABEL_SIZE));
      var aim := Scale(bt.velocity, N.LimitBy(num, bt.velocity, DEBRIS_SPEED));
      HandleBulletAsteroid(w, bullet, asteroid, num, dice)
        == World(Shatter(Scenes.Add(s, marker), bullet, asteroid, bt.position, aim, num, dice),
                 GameStates.Scored(w.counters, AsteroidPoints(rock.t.radius)))
  {
  }

  /** A bullet hitting a rocket: 150 points, one label, both leave the array, 150 sparks join it. */
  lemma BulletRocketEffect(w: World, bullet: Id, rocket: Id, num: N.Numerics, dice: Dice)
    requires Pair(w, bullet, rocket) && w.scene.heap[bullet].BulletBody? && w.scene.heap[rocket].RocketBody?
    ensures var s, r := w.scene, HandleBulletRocket(w, bullet, rocket, num, dice);
      r.counters == GameStates.Scored(w.counters, 150)
      && Changes(s, r.scene, {bullet, rocket}, {})
      && r.scene.nextId == s.nextId + 1 + ROCKET_EXPLOSION_SPARKS
  {
    var s := w.scene;
    var bt, rt := TransformOf(s.heap[bullet]), TransformOf(s.heap[rocket]);
    var marker := IndicatorBody(Indicators.Create(Label(ROCKET_POINTS), rt.position, LABEL_SIZE));
    var s1 := Scenes.Add(s, marker);
    AddChanges(s, marker);
    var s2 := Remove(Remove(s1, bullet), rocket);
    RemoveBothChanges(s1, bullet, rocket);
    ChangesCompose(s, s1, s2, {}, {}, {bullet, rocket}, {});
    var aim := Scale(bt.velocity, N.SetMagBy(num, bt.velocity, DEBRIS_SPEED));
    ExplosionChanges(s2, num, rt.position, aim, ROCKET_EXPLOSION_SPARKS, dice);
    ChangesCompose(s, s2, Explosion(s2, num, rt.position, aim, ROCKET_EXPLOSION_SPARKS, dice),
                   {bullet, rocket}, {}, {}, {});
  }

  /** What a bullet hitting a rocket creates: the label "+150" at the rocket, then sparks there. */
  lemma BulletRocketCreates(w: World, bullet: Id, rocket: Id, num: N.Numerics, dice: Dice)
    requires Pair(w, bullet, rocket) && w.scene.heap[bullet].BulletBody? && w.scene.heap[rocket].RocketBody?
    ensures var s, r := w.scene, HandleBulletRocket(w, bullet, rocket, num, dice);
      var at := TransformOf(s.heap[rocket]).position;
      s.nextId in r.scene.heap && r.scene.heap[s.nextId] == IndicatorBody(Indicators.Create("+150", at, LABEL_SIZE))
      && (forall id :: s.nextId < id < r.scene.nextId ==>
            id in r.scene.heap && r.scene.heap[id].SparkBody? && r.scene.heap[id].spark.t.position == at)
  {
    var s := w.scene;
    var bt, rt := TransformOf(s.heap[bullet]), TransformOf(s.heap[rocket]);
    RocketLabel();
    var marker := IndicatorBody(Indicators.Create(Label(ROCKET_POINTS), rt.position, LABEL_SIZE));
    var s1 := Scenes.Add(s, marker);
    AddEffect(s, marker);
    var s2 := Remove(Remove(s1, bullet), rocket);
    assert s2.heap == s1.heap && s2.nextId == s.nextId + 1;
    assert forall id :: id in s2.heap ==> id < s2.nextId;
    var aim := Scale(bt.velocity, N.SetMagBy(num, bt.velocity, DEBRIS_SPEED));
    var d := Debris(num, rt.position, aim, ROCKET_EXPLOSION_SPARKS, s2.nextId, dice);
    AddAllHeap(s2, d);
    DebrisAt(num, rt.position, aim, ROCKET_EXPLOSION_SPARKS, s2.nextId, dice);
  }

  /** The ship dies in place, a life is lost, and 100 sparks at the ship are added. */
  lemma DestroyShipEffect(w: World, ship: Id, force: Vec, num: N.Numerics, dice: Dice)
    requires Pair(w, ship, ship) && w.scene.heap[ship].ShipBody?
    ensures var s, r := w.scene, DestroyShip(w, ship, force, num, dice);
      var st := s.heap[ship].ship;
      r.counters == GameStates.LifeLost(w.counters)
      && Changes(s, r.scene, {}, {ship}) && r.scene.heap[ship] == ShipBody(Ships.Killed(st))
      && r.scene.nextId == s.nextId + EXPLOSION_SPARKS
      && (forall id :: s.nextId <= id < r.scene.nextId ==>
            id in r.scene.heap && r.scene.heap[id].SparkBody? && r.scene.heap[id].spark.t.position == st.t.position)
  {
    var s := w.scene;
    var st := s.heap[ship].ship;
    var v := Vectors.Add(st.t.velocity, force);
    var aim := if N.Mag(num, v) < DEBRIS_SPEED then Scale(v, N.SetMagBy(num, v, DEBRIS_SPEED)) else v;
    var s1 := Explosion(s, num, st.t.position, aim, EXPLOSION_SPARKS, dice);
    ExplosionChanges(s, num, st.t.position, aim, EXPLOSION_SPARKS, dice);
    SetBodyChanges(s1, ship, ShipBody(Ships.Killed(st)));
    ChangesCompose(s, s1, SetBody(s1, ship, ShipBody(Ships.Killed(st))), {}, {}, {}, {ship});
    forall id | s.nextId <= id < s1.nextId
      ensures s1.heap[id].SparkBody? && s1.heap[id].spark.t.position == st.t.position
    {
      SparkShape(num, st.t.position, aim, EXPLOSION_SPARKS, dice.spark(id));
    }
  }

  /**
   * A rock hitting a ship that is alive and not invincible destroys the ship
   * and leaves the array; against a dead or invincible ship nothing happens.
   */
  lemma ShipAsteroidEffect(w: World, ship: Id, asteroid: Id, num: N.Numerics, dice: Dice)
    requires Pair(w, ship, asteroid) && w.scene.heap[ship].ShipBody? && w.scene.heap[asteroid].AsteroidBody?
    ensures var s, r := w.scene, HandleShipAsteroid(w, ship, asteroid, num, dice);
      var st := s.heap[ship].ship;
      (st.isDead || st.invincible ==> r == w)
      && (!st.isDead && !st.invincible ==>
            r.counters == GameStates.LifeLost(w.counters)
            && Changes(s, r.scene, {asteroid}, {ship}) && r.scene.heap[ship] == ShipBody(Ships.Killed(st))
            && r.scene.nextId == s.nextId + EXPLOSION_SPARKS)
  {
    var s := w.scene;
    assert ship == s.ship;
    var st := s.heap[ship].ship;
    if !st.isDead && !st.invincible {
      var w1 := DestroyShip(w, ship, TransformOf(s.heap[asteroid]).velocity, num, dice);
      DestroyShipEffect(w, ship, TransformOf(s.heap[asteroid]).velocity, num, dice);
      RemoveChanges(w1.scene, asteroid);
      ChangesCompose(s, w1.scene, Remove(w1.scene, asteroid), {}, {ship}, {asteroid}, {});
    }
  }

  /**
   * A rocket hitting a ship that is alive and not invincible destroys the
   * ship and leaves the array; against a dead or invincible ship nothing happens.
   */
  lemma ShipRocketEffect(w: World, ship: Id, rocket: Id, num: N.Numerics, dice: Dice)
    requires Pair(w, ship, rocket) && w.scene.heap[ship].ShipBody? && w.scene.heap[rocket].RocketBody?
    ensures var s, r := w.scene, HandleShipRocket(w, ship, rocket, num, dice);
      var st := s.heap[ship].ship;
      (st.isDead || st.invincible ==> r == w)
      && (!st.isDead && !st.invincible ==>
            r.counters == GameStates.LifeLost(w.counters)
            && Changes(s, r.scene, {rocket}, {ship}) && r.scene.heap[ship] == ShipBody(Ships.Killed(st))
            && r.scene.nextId == s.nextId + EXPLOSION_SPARKS)
  {
    var s := w.scene;
    var st := s.heap[ship].ship;
    if !st.isDead && !st.invincible {
      var rv := TransformOf(s.heap[rocket]).velocity;
      var sum := Vectors.Add(rv, st.t.velocity);
      var force := Scale(sum, N.SetMagBy(num, sum, N.Mag(num, rv)));
      var w1 := DestroyShip(w, ship, force, num, dice);
      DestroyShipEffect(w, ship, force, num, dice);
      RemoveChanges(w1.scene, rocket);
      ChangesCompose(s, w1.scene, Remove(w1.scene, rocket), {}, {ship}, {rocket}, {});
    }
  }

  /** A rocket hitting a rock: no points, both leave the array, the pieces and 100 sparks join it. */
  lemma RocketAsteroidEffect(w: World, rocket: Id, asteroid: Id, num: N.Numerics, dice: Dice)
    requires Pair(w, rocket, asteroid) && w.scene.heap[rocket].RocketBody? && w.scene.heap[asteroid].AsteroidBody?
    ensures var s, r := w.scene, HandleRocketAsteroid(w, rocket, asteroid, num, dice);
      var rock := s.heap[asteroid].asteroid;
      var p := Pieces(num, rock, s.heap[rocket], s.nextId, dice);
      r.counters == w.counters
      && Changes(s, r.scene, {rocket, asteroid}, {})
      && r.scene.nextId == s.nextId + |p| + EXPLOSION_SPARKS
      && (forall id :: s.nextId <= id < s.nextId + |p| ==>
            id in r.scene.heap && r.scene.heap[id] == AsteroidBody(p[id - s.nextId]))
      && (forall id :: s.nextId + |p| <= id < r.scene.nextId ==>
            id in r.scene.heap && r.scene.heap[id].SparkBody? && r.scene.heap[id].spark.t.position == rock.t.position)
  {
    var s := w.scene;
    var at := TransformOf(s.heap[asteroid]);
    var f := Vectors.Add(at.velocity, TransformOf(s.heap[rocket]).velocity);
    var aim := Scale(f, N.LimitBy(num, f, ROCKET_DEBRIS_SPEED));
    ShatterChanges(s, rocket, asteroid, at.position, aim, num, dice);
    ShatterCreates(s, rocket, asteroid, at.position, aim, num, dice);
  }

  /**
   * Whatever the pair, a collision keeps the invariant, lets the scene only
   * grow, never lowers the score, never raises a non-negative life count, and
   * leaves the level alone.
   */
  lemma CollisionKeeps(w: World, a: Id, b: Id, num: N.Numerics, dice: Dice)
    requires Pair(w, a, b)
    ensures var r := Collision(w, a, b, num, dice);
      WellFormed(r.scene) && Grows(w.scene, r.scene) && w.scene.nextId <= r.scene.nextId
      && r.counters.score >= w.counters.score && r.counters.level == w.counters.level && r.counters.isPaused == w.counters.isPaused
      && (w.counters.lives >= 0 ==> 0 <= r.counters.lives <= w.counters.lives)
  {
    var h := w.scene.heap;
    PickTable(h[a], h[b]);
    var (x, y) := if h[b].AsteroidBody? || (h[b].RocketBody? && !h[a].AsteroidBody?) then (a, b) else (b, a);
    if Pick(h[a], h[b]) != IsBothAsteroids {
      CollisionSymmetric(w, a, b, num, dice);
    }
    assert Collision(w, a, b, num, dice) == Collision(w, x, y, num, dice);
    match Pick(h[a], h[b])
    case IsBothAsteroids => AsteroidAsteroidEffect(w, a, b, num);
    case IsBulletAsteroid =>
      BulletAsteroidEffect(w, x, y, num, dice);
      assert Sound(h[y]);
      PointsMonotone(h[y].asteroid.t.radius, h[y].asteroid.t.radius);
    case IsBulletRocket => BulletRocketEffect(w, x, y, num, dice);
    case IsShipAsteroid => ShipAsteroidEffect(w, x, y, num, dice);
    case IsShipRocket => ShipRocketEffect(w, x, y, num, dice);
    case IsRocketAsteroid => RocketAsteroidEffect(w, x, y, num, dice);
    case NoHandler =>
  }
}
