/**
 * The entities the manager holds, as values: one case per entity class, with
 * the draw order, the type tag, the attached extensions and the removal test
 * each class defines (the files under src/game2/entities).
 */
module Bodies {
  import opened Transformable
  import Entities
  import Ships
  import Asteroids
  import Bullets
  import Rockets
  import Sparks
  import Flames
  import Indicators

  /** The state of one entity object of the given class. */
  datatype Body =
    | ShipBody(ship: Ships.ShipState)
    | AsteroidBody(asteroid: Asteroids.AsteroidState)
    | BulletBody(bullet: Bullets.BulletState)
    | RocketBody(rocket: Rockets.RocketState)
    | SparkBody(spark: Sparks.SparkState)
    | FlameBody(flame: Flames.FlameState)
    | IndicatorBody(indicator: Indicators.IndicatorState)

  /** `zIndex`: 0 unless the class overrides it. */
  function ZIndex(b: Body): int {
    match b
    case ShipBody(_) => 0
    case AsteroidBody(_) => Asteroids.Z_INDEX
    case BulletBody(_) => 0
    case RocketBody(_) => 0
    case SparkBody(_) => 100
    case FlameBody(_) => 0
    case IndicatorBody(_) => Indicators.Z_INDEX
  }

  /** `type`; the rocket is tagged as a flame. */
  function KindOf(b: Body): Entities.Kind {
    match b
    case ShipBody(_) => Entities.Ship
    case AsteroidBody(_) => Entities.Asteroid
    case BulletBody(_) => Entities.Bullet
    case RocketBody(_) => Rockets.KIND
    case SparkBody(_) => Entities.ExplosionSpark
    case FlameBody(_) => Entities.Flame
    case IndicatorBody(_) => Entities.PointIndicator
  }

  /** Two states of the same entity class. */
  predicate SameClass(a: Body, b: Body) {
    (a.ShipBody? <==> b.ShipBody?) && (a.AsteroidBody? <==> b.AsteroidBody?)
    && (a.BulletBody? <==> b.BulletBody?) && (a.RocketBody? <==> b.RocketBody?)
    && (a.SparkBody? <==> b.SparkBody?) && (a.FlameBody? <==> b.FlameBody?)
    && (a.IndicatorBody? <==> b.IndicatorBody?)
  }

  /** An asteroid's size field and its transformable's radius agree and are positive. */
  predicate Sound(b: Body) {
    b.AsteroidBody? ==> b.asteroid.radius == b.asteroid.t.radius > 0.0
  }

  /** Every class but the point indicator carries a transformable. */
  predicate Movable(b: Body) {
    !b.IndicatorBody?
  }

  /** The classes that attach a collisional extension. */
  predicate Collidable(b: Body) {
    b.ShipBody? || b.AsteroidBody? || b.BulletBody? || b.RocketBody?
  }

  /** The state of the entity's transformable extension. */
  function TransformOf(b: Body): Transform
    requires Movable(b)
  {
    match b
    case ShipBody(s) => s.t
    case AsteroidBody(a) => a.t
    case BulletBody(u) => u.t
    case RocketBody(r) => r.t
    case SparkBody(s) => s.t
    case FlameBody(f) => f.t
  }

  /** The same entity with its transformable replaced. */
  function WithTransform(b: Body, t: Transform): (r: Body)
    requires Movable(b)
    ensures SameClass(r, b) && TransformOf(r) == t
  {
    match b
    case ShipBody(s) => ShipBody(s.(t := t))
    case AsteroidBody(a) => AsteroidBody(a.(t := t))
    case BulletBody(u) => BulletBody(u.(t := t))
    case RocketBody(r) => RocketBody(r.(t := t))
    case SparkBody(s) => SparkBody(s.(t := t))
    case FlameBody(f) => FlameBody(f.(t := t))
  }

  /** The extension list, in the order each constructor attaches them. */
  function Extensions(b: Body): seq<Entities.Extension> {
    match b
    case ShipBody(s) =>
      [Entities.TransformableExt(s.t), Entities.CollisionalExt,
       Entities.FlammableExt(Ships.FLAME_COUNT, Ships.FLAME_COLORS)]
    case AsteroidBody(a) => Asteroids.Extensions(a)
    case BulletBody(u) => [Entities.TransformableExt(u.t), Entities.CollisionalExt]
    case RocketBody(r) =>
      [Entities.TransformableExt(r.t), Entities.CollisionalExt,
       Entities.FlammableExt(Rockets.FLAME_COUNT, Rockets.FLAME_COLORS)]
    case SparkBody(s) => [Entities.TransformableExt(s.t)]
    case FlameBody(f) => [Entities.TransformableExt(f.t)]
    case IndicatorBody(_) => []
  }

  /** `shouldRemove`; ships and asteroids keep the default `false`. */
  predicate Expired(b: Body) {
    match b
    case ShipBody(_) => false
    case AsteroidBody(_) => false
    case BulletBody(u) => Bullets.Expired(u)
    case RocketBody(r) => Rockets.Expired(r)
    case SparkBody(s) => Sparks.Expired(s)
    case FlameBody(f) => Flames.Expired(f)
    case IndicatorBody(i) => Indicators.Expired(i)
  }

  // ---------------------------------------------------------------- lemmas

  /** The draw order and the type tag depend on the class alone. */
  lemma SameClassSameOrder(a: Body, b: Body)
    requires SameClass(a, b)
    ensures ZIndex(a) == ZIndex(b) && KindOf(a) == KindOf(b)
  {
  }

  /** The collision filter `hasExtension(CollisionalExtension)` selects exactly ships, asteroids, bullets and rockets. */
  lemma CollidableIffCollisional(b: Body)
    ensures Collidable(b) <==> Entities.Includes(Extensions(b), Entities.CollisionalClass)
  {
    var exts := Extensions(b);
    if Collidable(b) {
      assert Entities.ClassOf(exts[1]) == Entities.CollisionalClass;
    } else {
      assert forall i :: 0 <= i < |exts| ==> Entities.ClassOf(exts[i]) == Entities.TransformableClass;
    }
  }

  /** `getExtension(TransformableExtension)` finds the transformable of every class but the indicator, which throws. */
  lemma TransformableLookup(b: Body)
    ensures Movable(b) ==> Entities.Find(Extensions(b), Entities.TransformableClass)
                           == Entities.Find([Entities.TransformableExt(TransformOf(b))], Entities.TransformableClass)
    ensures Movable(b) ==> Entities.Find(Extensions(b), Entities.TransformableClass).Ok?
    ensures !Movable(b) ==> Entities.Find(Extensions(b), Entities.TransformableClass).Err?
  {
  }

  /** Ships, bullets and rockets draw at the bottom with flames, asteroids above them, sparks and labels on top. */
  lemma DrawLayers(b: Body)
    ensures ZIndex(b) == 0 <==> b.ShipBody? || b.BulletBody? || b.RocketBody? || b.FlameBody?
    ensures ZIndex(b) == 1 <==> b.AsteroidBody?
    ensures ZIndex(b) == 100 <==> b.SparkBody? || b.IndicatorBody?
  {
  }

  /** The rocket shares its tag with the flame particle, so a tag test cannot tell them apart. */
  lemma RocketTaggedFlame(r: Rockets.RocketState, f: Flames.FlameState)
    ensures KindOf(RocketBody(r)) == KindOf(FlameBody(f))
    ensures Entities.Tag(KindOf(RocketBody(r))) == "flame"
  {
  }
}
