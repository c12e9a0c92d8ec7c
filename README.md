# Asteroids simulation kernel in Dafny

This project models the frame-stepped simulation kernel of a p5.js Asteroids clone (`src/game2`, with the constants of `src/game/config.ts`). It does not model drawing. The model has these layers:

- **Values and per-kind objects.** Each entity kind has a value-level state and a step function on it: `Ships`, `Bullets`, `Rockets`, `Asteroids`, `Sparks`, `Flames`, `Indicators`. Each kind also has a class with the source's fields, whose `Update` method is proved equal to that step function. The transform integrator with its toroidal wrap (`Transformable`) and the elastic circle collision (`Collisional`) are also modelled this way, over exact reals.
- **Extension composition** (`Entities`). An entity keeps an ordered list of attached extensions. `GetExtension` returns the first match and throws when there is none. `Update` visits the extensions in attachment order.
- **The scene.** `EntityList` is the z-ordered array: stable insertion by `zIndex`, and removal by identity. `Scenes` pairs that array of ids with a heap of body states, so removed objects can still be reached during a scan, as JavaScript references can. `Passes` is the per-frame update-then-cull pass. `Spawns` holds the frame-gated asteroid and rocket spawners. `Collisions` holds the pairwise scan over a snapshot and the type-pair dispatch with its scoring, splitting, sparks and lives.
- **The entities manager** (`Manager.EntitiesManager`). A class over that scene. Each method is proved to leave the scene the corresponding function computes.
- **The game state** (`GameStates`). Score, lives, level and flags. Change events go to an appended event log.
- **The top-level game** (`Games`). The pause gate, the order of the frame steps, and the keyboard and key-press handling.
- **Three HUD state machines.** Toasts (character reveal and expiry sweep), the lives flash timer, and the bounded FPS history.

Randomness, `sqrt`, trigonometry, the clock and `nanoid` are supplied as parameters (`Chance`, `Numerics`, `Draws`).

Where the design description and the code disagree, the model follows the code:

- The level is `floor(score / 1000) + 1` (`src/game2/managers/game-state.ts:42`). It is not derived from per-level score thresholds. `POINTS_PER_LEVEL` in `src/game/config.ts:19` is not used by this code.
- A rocket is tagged with the FLAME kind (`src/game2/entities/rocket.entity.ts:29`).
- The near-ship retry in `createAsteroid` never fires, because `x === undefined` is always false (`src/game2/managers/entities.manager.ts:92`). `Spawns.RetryNeverFires` states this.
- `removeExtension` deletes a property that no lookup reads, so it changes nothing (`src/game2/entities/entity.ts:48-50`). `Entities.Entity.RemoveExtension` has no effect.
- `newGame` rebuilds the entities, the map and the HUD but keeps the `GameState`. A restart after game over therefore keeps `isGameOver` true, and the score and lives stay as they were (`src/game2/game.ts:26-30,114-120`).
- The toast sweep splices while iterating forward. An expired toast's successor is skipped for that frame (`src/game2/hud/toast.hud.ts:21-25`).
- The lives HUD starts with `previousLives` undefined, so the first update never flashes.
- `ROCKET_MAX_GENERATE` is never read, so the number of rockets is not capped.
- The extension classes have no static `type`, so a missing extension throws "Extension undefined not found".
- In the manager's update, the `for … of` loop runs over the live array until the first removal. Until then, flames pushed by rockets are visited in the same frame. After the first removal, `this.entities` is a new array and the loop goes on over the old one. `Passes.Sweep` models this.

## Model

| member | source | states |
|---|---|---|
| Asteroids.CreateMotion | src/game2/entities/asteroid.entity.ts:16-47 | a new rock sits at the given point with the given radius, friction 1 and a spin in [-0.03, 0.03); a supplied velocity is kept, otherwise the velocity has the length its radius maps to |
| Asteroids.SmallerIsFaster | src/game2/entities/asteroid.entity.ts:34 | the speed map gives 2.5 at radius 20 and 1.2 at radius 80, and a smaller rock is strictly faster |
| Asteroids.AsteroidCoasts | src/game2/entities/asteroid.entity.ts:41-54 | with friction 1 an update keeps the rock's velocity and radius |
| Asteroids.SplitArity | src/game2/entities/asteroid.entity.ts:105-151 | a split yields two pieces exactly when the impacting entity has a transformable and the rock's radius is at least 20, and none otherwise |
| Asteroids.SplitPieces | src/game2/entities/asteroid.entity.ts:124-145 | each piece has half the radius, sits `newSize` away from the centre in a drawn direction, and moves at the combined velocity plus the unit vector of its tilt |
| Asteroids.SplitSpeed | src/game2/entities/asteroid.entity.ts:118-122 | the combined velocity is never faster than 10, and is 1.5 times the rock's own speed when that stays within 10 |
| Asteroids.SmallPiecesStay | src/game2/entities/asteroid.entity.ts:114-124 | the pieces of a rock smaller than 40 are below 20 and never split again |
| Asteroids.Asteroid.constructor | src/game2/entities/asteroid.entity.ts:14-50 | the new object's state is the constructor's state, with zIndex 1 and a collisional sharing its transformable |
| Asteroids.Asteroid.Update | src/game2/entities/asteroid.entity.ts:52-54 | the new state is one update of the old |
| Asteroids.Asteroid.Split | src/game2/entities/asteroid.entity.ts:105-152 | returns fresh asteroids whose states are, in order, the computed fragments |
| Bullets.StepsUnfold | src/game2/entities/bullet.entity.ts:33-36 | n updates take n frames off the lifespan and integrate the transform n times |
| Bullets.BulletLifetime | src/game2/entities/bullet.entity.ts:33-69 | a new bullet is removed after exactly 70 updates |
| Bullets.BulletCoasts | src/game2/entities/bullet.entity.ts:23-26 | a bullet keeps its launch velocity and radius 3 for its whole life and, once updated, stays within the canvas margins |
| Bullets.Bullet.constructor | src/game2/entities/bullet.entity.ts:11-31 | the state is radius 3 at the given position and velocity with 70 frames to live; the collisional shares the transformable |
| Bullets.Bullet.Update | src/game2/entities/bullet.entity.ts:33-36 | the new state is one update of the old |
| Sparks.StepsRadius | src/game2/entities/explosion-spark.entity.ts:33-37 | each update lowers the radius by exactly 0.05 |
| Sparks.SparkLifetime | src/game2/entities/explosion-spark.entity.ts:33-57 | a spark of radius r is removed after n updates exactly when r <= 0.05·n |
| Sparks.ExplosionSpark.constructor | src/game2/entities/explosion-spark.entity.ts:10-31 | the state is the given motion with friction 0.95 and rotation friction 0.99 |
| Sparks.ExplosionSpark.Update | src/game2/entities/explosion-spark.entity.ts:33-37 | the new state is one update of the old |
| Flames.CreateDefaults | src/game2/entities/flame.entity.ts:25-36 | a missing or zero size gives radius 5, a missing or zero decrease gives 0.2, and the velocity is zero unless one is given |
| Flames.StepsRadius | src/game2/entities/flame.entity.ts:39-44 | n updates lower the radius by n times `sizeDecrease`, which never changes |
| Flames.FlameLifetime | src/game2/entities/flame.entity.ts:39-62 | a flame is removed after n updates exactly when its radius was below n times its decrease |
| Flames.Flame.constructor | src/game2/entities/flame.entity.ts:12-37 | the state is the constructor's state, with the defaults above |
| Flames.Flame.Update | src/game2/entities/flame.entity.ts:39-44 | the new state is one update of the old |
| Indicators.StepsUnfold | src/game2/entities/point-indicator.entity.ts:32-36 | n updates lower the opacity by 5n and raise the label by n pixels |
| Indicators.IndicatorLifetime | src/game2/entities/point-indicator.entity.ts:25-51 | a new label is removed after exactly 51 updates |
| Indicators.PointIndicator.constructor | src/game2/entities/point-indicator.entity.ts:12-30 | the label stores the given position object itself, opacity 255 and zIndex 100 |
| Indicators.PointIndicator.Update | src/game2/entities/point-indicator.entity.ts:32-36 | the new state is one update of the old |
| Indicators.LabelDragsItsAnchor | src/game2/entities/point-indicator.entity.ts:27-35 | a label built on a transformable's own position object moves that object up by one pixel per update |
| Flammable.FlameInRange | src/game2/extensions/flammable.ext.ts:33-49 | a created flame has size in [2, 6), decrease in [0.05, 0.2), heading within 0.3 of the ship's, lies within 10 of the exhaust point, moves at 1/15 of the ship's velocity, and has a colour from the list |
| Flammable.BurstShape | src/game2/extensions/flammable.ext.ts:28-56 | a burst makes exactly `count` flames (none for a non-positive count), flame i from its own draws |
| Flammable.FlammableExtension.constructor | src/game2/extensions/flammable.ext.ts:12-22 | stores the count and the colours |
| Flammable.FlammableExtension.CreateFlames | src/game2/extensions/flammable.ext.ts:28-56 | returns the burst the draws determine, in creation order |
| Draws.NewAsteroidRange | src/game2/managers/entities.manager.ts:76-98 | a created asteroid lies on the canvas, has a radius in [30, 50) and moves at the speed its radius maps to |
| Draws.NewRocketRange | src/game2/managers/entities.manager.ts:66-74 | a created rocket lies on the canvas, waits on the launch pad and has 850 frames to live |
| Draws.SparkShape | src/game2/managers/entities.manager.ts:396-418 | each explosion spark starts at the explosion's point, spins at a rate in [0.01, 0.1) and moves at 0.7 times a speed in [count/20, 3·count/10) |
| Draws.MotionlessExplosion | src/game2/managers/entities.manager.ts:409-410 | the sparks of a motionless explosion are born with radius 0 and go at their first update |
| Numerics.MagExact | src/game2/entities/asteroid.entity.ts:120 | the supplied magnitude is the non-negative square root of the squared length |
| Numerics.SetMagByIsFactor | src/game2/entities/asteroid.entity.ts:121 | the computed `setMag` factor scales a vector to the requested length |
| Numerics.LimitByIsFactor | src/game2/entities/asteroid.entity.ts:122 | the computed `limit` factor caps a vector's length and leaves a shorter one alone |
| Chance.UniformInRange | src/game2/extensions/flammable.ext.ts:34-35 | a draw of `random(lo, hi)` lies in the half-open range |
| Chance.PickIndexInRange | src/game2/extensions/flammable.ext.ts:40 | `floor(random(0, n))` selects an element of a non-empty list |
| Rockets.SteerToward | src/game2/entities/rocket.entity.ts:115-124 | a correction within the 0.08 tracking force brings the velocity to the desired one at once |
| Rockets.DesiredSpeed | src/game2/entities/rocket.entity.ts:119-120 | the desired velocity has speed 7 unless the rocket sits on its target, where it is zero |
| Rockets.StepsLifespan | src/game2/entities/rocket.entity.ts:52-62 | every update spends exactly one frame, whatever the ship does |
| Rockets.RocketLifetime | src/game2/entities/rocket.entity.ts:31-67 | a new rocket is removed after exactly its lifespan in updates, 850 when none or zero is given |
| Rockets.LaunchLatch | src/game2/entities/rocket.entity.ts:62-66 | the launch flag is on after some updates iff it was on or fewer than 670 frames remain |
| Rockets.DefaultLaunch | src/game2/entities/rocket.entity.ts:31-66 | a rocket with the default lifespan is cleared for launch from its 181st update on |
| Rockets.Grounded | src/game2/entities/rocket.entity.ts:58-60 | until the launch flag is set the rocket's position stays on the pad |
| Rockets.DefaultRocketWaits | src/game2/entities/rocket.entity.ts:58-66 | a default rocket does not move during its first 181 updates |
| Rockets.ExhaustBehind | src/game2/entities/rocket.entity.ts:126-142 | flames come exactly from updates that track a live ship after launch, emitted r + 2 behind the rocket with its steered velocity |
| Rockets.Rocket.constructor | src/game2/entities/rocket.entity.ts:21-50 | radius 6 at the given point, the given lifespan or 850 when it is missing or 0, not launched, tagged FLAME |
| Rockets.Rocket.Update | src/game2/entities/rocket.entity.ts:52-67 | the new state is one update of the old, and the returned flames are the burst of that update |
| Ships.StepsInvincible | src/game2/entities/ship.entity.ts:60-69 | invincibility lasts while the timer counted down once per update stays positive; death and the shot time are untouched |
| Ships.SpawnProtection | src/game2/entities/ship.entity.ts:26-69 | a new ship is invincible during exactly its first 119 updates |
| Ships.RebornProtection | src/game2/entities/ship.entity.ts:47-58 | rebirth restores a live ship at the centre, pointing up, at rest, not spinning, with its pending acceleration kept and the same protection window |
| Ships.ShootCooldown | src/game2/entities/ship.entity.ts:152-177 | a shot happens iff the ship is alive and 300 ms have passed; a refused shot changes nothing; a shot records the time, pushes the ship back by 0.5 and puts a 70-frame bullet on the nose at speed 10 relative to the ship |
| Ships.RapidFireRefused | src/game2/entities/ship.entity.ts:157 | a second shot within 300 ms of a shot is refused |
| Ships.BoostEffect | src/game2/entities/ship.entity.ts:104-129 | a live ship's boost adds 0.15 along its heading and emits flames 0.9 r behind it; a dead ship's boost does nothing |
| Ships.Ship.constructor | src/game2/entities/ship.entity.ts:21-45 | centred, pointing up, radius 24, friction 0.99, rotation friction 0.95, invincible for 120 frames |
| Ships.Ship.Reborn | src/game2/entities/ship.entity.ts:47-58 | the new state is the rebirth of the old |
| Ships.Ship.Update | src/game2/entities/ship.entity.ts:60-69 | the new state is one update of the old |
| Ships.Ship.Boost | src/game2/entities/ship.entity.ts:104-129 | the new state is the boosted one and the returned flames are its burst |
| Ships.Ship.Die | src/game2/entities/ship.entity.ts:131-133 | the ship is marked dead and nothing else changes |
| Ships.Ship.AddRotation | src/game2/entities/ship.entity.ts:135-138 | the rotation impulse is added to the transformable |
| Ships.Ship.CheckIsDead | src/game2/entities/ship.entity.ts:140-142 | reports the death flag |
| Ships.Ship.ApplyKnockback | src/game2/entities/ship.entity.ts:144-150 | a force of 0.5 against the facing is added |
| Ships.Ship.Shoot | src/game2/entities/ship.entity.ts:152-177 | the new state and the bullet returned, if any, are those of the shot rule |
| Transformable.WrapCases | src/game2/extensions/transformable.ext.ts:103-119 | leaving past the low margin re-enters at the high one, leaving past the high margin re-enters at the low one, and a coordinate within the margins is kept |
| Transformable.EdgesInBounds | src/game2/extensions/transformable.ext.ts:103-119 | after wrapping, both coordinates lie within radius of the canvas |
| Transformable.IntegrateLinear | src/game2/extensions/transformable.ext.ts:33-45 | one update adds the acceleration to the velocity and applies friction, moves by the new velocity and wraps, clears the acceleration, and keeps radius and frictions |
| Transformable.IntegrateRotationBounded | src/game2/extensions/transformable.ext.ts:25-37 | the heading turns by at most `maxRotation` per update and the kept rotation speed stays within it |
| Transformable.IntegrateCoasting | src/game2/extensions/transformable.ext.ts:33-45 | with friction 1 and no force an update keeps the velocity and moves by it |
| Transformable.StepsCoasting | src/game2/extensions/transformable.ext.ts:24-46 | in the coasting case the velocity, radius and zero acceleration persist over any number of updates, and after one the body lies within the margins |
| Transformable.Point.constructor | src/game2/extensions/transformable.ext.ts:9 | a position object holds the given coordinates |
| Transformable.TransformableExtension.constructor | src/game2/extensions/transformable.ext.ts:5-22 | the field initialisers: radius 0, at rest at the origin, frictions 1, maximum rotation 0.1 |
| Transformable.TransformableExtension.Update | src/game2/extensions/transformable.ext.ts:24-46 | the new state is one integration step of the old |
| Transformable.TransformableExtension.Turn | src/game2/extensions/transformable.ext.ts:25-31 | the first damping and clamp of the rotation and the turn of the heading |
| Transformable.TransformableExtension.Drift | src/game2/extensions/transformable.ext.ts:33-37 | acceleration and friction act on the velocity and the rotation is damped again |
| Transformable.TransformableExtension.Move | src/game2/extensions/transformable.ext.ts:39-45 | the position moves by the velocity, the acceleration is cleared and the edges wrap |
| Transformable.TransformableExtension.Wrap | src/game2/extensions/transformable.ext.ts:103-119 | the position becomes its wrapped value |
| Transformable.TransformableExtension.AddForce | src/game2/extensions/transformable.ext.ts:48-51 | the force is added to the acceleration only; the extension itself is returned |
| Transformable.TransformableExtension.ApplyImpulse | src/game2/extensions/transformable.ext.ts:53-56 | the impulse is added to the velocity only |
| Transformable.TransformableExtension.AddRotation | src/game2/extensions/transformable.ext.ts:78-81 | the rotation is added to the rotation speed only |
| Transformable.TransformableExtension.SetPosition | src/game2/extensions/transformable.ext.ts:58-61 | the position object is overwritten in place; nothing else changes |
| Transformable.TransformableExtension.SetVelocity | src/game2/extensions/transformable.ext.ts:63-66 | sets the velocity only |
| Transformable.TransformableExtension.SetHeading | src/game2/extensions/transformable.ext.ts:68-71 | sets the heading only |
| Transformable.TransformableExtension.SetRotationSpeed | src/game2/extensions/transformable.ext.ts:73-76 | sets the rotation speed only |
| Transformable.TransformableExtension.SetRotationFriction | src/game2/extensions/transformable.ext.ts:83-86 | sets the rotation friction only |
| Transformable.TransformableExtension.SetFriction | src/game2/extensions/transformable.ext.ts:88-91 | sets the friction only |
| Transformable.TransformableExtension.SetRadius | src/game2/extensions/transformable.ext.ts:98-101 | sets the radius only |
| Entities.FirstIndex | src/game2/entities/entity.ts:52-53 | the index `find` stops at: the first extension of the class, or -1 when there is none |
| Entities.UpdateAll | src/game2/entities/entity.ts:64-70 | every extension is updated in its place, in attachment order |
| Entities.TagInjective | src/game2/entities/entity.ts:8-16 | the seven type tags are pairwise distinct |
| Entities.GetExtensionIsFirst | src/game2/entities/entity.ts:52-58 | `getExtension` returns the first attached extension of the class, or throws when there is none |
| Entities.HasIffFound | src/game2/entities/entity.ts:52-62 | `hasExtension(c)` holds exactly when `getExtension(c)` does not throw |
| Entities.GetMissingThrows | src/game2/entities/entity.ts:54-56 | a missing class gives the "not found" error |
| Entities.GetExtensionClass | src/game2/entities/entity.ts:52-57 | a found extension is of the requested class |
| Entities.AppendLookup | src/game2/entities/entity.ts:44-62 | after attaching one more extension, `has` gains its class and `get` keeps an earlier match |
| Entities.UpdateKeepsClasses | src/game2/entities/entity.ts:64-70 | an update keeps every extension's class in its place, so lookups answer the same |
| Entities.Entity.constructor | src/game2/entities/entity.ts:31-42 | the given id and type, zIndex 0 and no extensions |
| Entities.Entity.AddExtension | src/game2/entities/entity.ts:44-46 | the extension is appended at the end of the list |
| Entities.Entity.RemoveExtension | src/game2/entities/entity.ts:48-50 | the extension list, and with it every `hasExtension` and `getExtension` answer, is unchanged |
| Entities.Entity.GetExtension | src/game2/entities/entity.ts:52-58 | succeeds iff an extension of the class is attached, and then returns the first one |
| Entities.Entity.HasExtension | src/game2/entities/entity.ts:60-62 | true iff some attached extension is of the class |
| Entities.Entity.Update | src/game2/entities/entity.ts:64-70 | the list becomes every extension updated in order |
| Collisional.MassPositive | src/game2/extensions/collisional.ext.ts:40-43 | a body with a non-zero radius has the positive mass r² |
| Collisional.OverlapsSymmetric | src/game2/extensions/collisional.ext.ts:19-26 | `a.intersects(b)` equals `b.intersects(a)` |
| Collisional.OverlapsIffDistance | src/game2/extensions/collisional.ext.ts:19-26 | the test on squared lengths agrees with `distance < r1 + r2` for the true distance |
| Collisional.NormalIsUnit | src/game2/extensions/collisional.ext.ts:35-47 | the contact normal is a unit vector |
| Collisional.SeparationAlongNormal | src/game2/extensions/collisional.ext.ts:35-47 | the centres are `distance` apart along the normal |
| Collisional.CollideSeparatingIsNoop | src/game2/extensions/collisional.ext.ts:56-57 | when the bodies already move apart along the normal, nothing changes |
| Collisional.CollideFrame | src/game2/extensions/collisional.ext.ts:28-85 | `collision` writes only velocities and positions |
| Collisional.CollideVelocities | src/game2/extensions/collisional.ext.ts:59-67 | the first body gains `impulse / m1`, the second loses `impulse / m2` |
| Collisional.CollideConservesMomentum | src/game2/extensions/collisional.ext.ts:59-67 | the total momentum m1·v1 + m2·v2 is conserved exactly |
| Collisional.CollideReversesNormalSpeed | src/game2/extensions/collisional.ext.ts:49-67 | the exchange reverses the normal component of the relative velocity (an elastic collision) |
| Collisional.CollidePositions | src/game2/extensions/collisional.ext.ts:69-84 | while the circles overlap each body is pushed back along the normal in proportion to the other's mass |
| Collisional.CollideSeparates | src/game2/extensions/collisional.ext.ts:69-84 | after the push the centres are exactly r1 + r2 apart along the normal |
| Collisional.CollideKeepsPositionsApart | src/game2/extensions/collisional.ext.ts:70-71 | circles that no longer overlap keep their positions |
| Collisional.CollideOverlapping | src/game2/extensions/collisional.ext.ts:28-85 | the complete result of `collision` for approaching, overlapping bodies |
| Collisional.CollisionalExtension.constructor | src/game2/extensions/collisional.ext.ts:10-13 | keeps a reference to the given transformable |
| Collisional.CollisionalExtension.Intersects | src/game2/extensions/collisional.ext.ts:19-26 | the answer is the overlap test of the two transforms |
| Collisional.CollisionalExtension.Collision | src/game2/extensions/collisional.ext.ts:28-85 | both transformables take the states the collision rule gives |
| Bodies.WithTransform | src/game2/entities/entity.ts:52-57 | replacing an entity's transformable keeps its class |
| Bodies.SameClassSameOrder | src/game2/entities/entity.ts:36 | the draw order and the type tag depend on the class alone |
| Bodies.CollidableIffCollisional | src/game2/managers/entities.manager.ts:155-157 | the filter `hasExtension(CollisionalExtension)` selects exactly ships, asteroids, bullets and rockets |
| Bodies.TransformableLookup | src/game2/entities/entity.ts:52-58 | `getExtension(TransformableExtension)` finds the transformable of every class but the point label, where it throws |
| Bodies.DrawLayers | src/game2/entities/asteroid.entity.ts:14 | ships, bullets, rockets and flames have zIndex 0, asteroids 1, sparks and labels 100 |
| Bodies.RocketTaggedFlame | src/game2/entities/rocket.entity.ts:29 | a rocket carries the flame tag, so a type test cannot tell the two apart |
| Collisions.Scan | src/game2/managers/entities.manager.ts:161-177 | the nested scan over a snapshot of the collisional entities keeps the scene well formed and only growing, never lowers the score, never raises a non-negative life count, and leaves level and pause alone |
| Collisions.CheckCollisions | src/game2/managers/entities.manager.ts:153-178 | the same guarantees for the whole pass over every pair in array order |
| Collisions.ScanStepChecks | src/game2/managers/entities.manager.ts:166-175 | the step for pair (i, j) runs `collision` exactly when the two stored states overlap and changes nothing otherwise, with no test of whether either entity is still in the array |
| Collisions.PairsMembers | src/game2/managers/entities.manager.ts:160-166 | the two loops meet exactly the index pairs i < j below the snapshot's length |
| Collisions.PairsOnce | src/game2/managers/entities.manager.ts:160-166 | every pair i < j is met, and none twice |
| Collisions.ScanIsFold | src/game2/managers/entities.manager.ts:160-176 | the nested loops from (i, j) on are the pair step applied in turn to the pairs from (i, j) on |
| Collisions.ScanListSplit | src/game2/managers/entities.manager.ts:160-176 | the k-th pair is checked against the states the first k pairs left |
| Collisions.CheckCollisionsPairs | src/game2/managers/entities.manager.ts:153-178 | the whole pass applies the pair step to each pair i < j of the snapshot of collisional entities, in row order |
| Collisions.PointsBand | src/game2/managers/entities.manager.ts:234 | a rock with k·r <= 100 < (k + 1)·r is worth 15·k points |
| Collisions.PointsMonotone | src/game2/managers/entities.manager.ts:234 | a score is a non-negative multiple of 15, and smaller rocks are worth at least as much |
| Collisions.SpawnedRockPoints | src/game2/managers/entities.manager.ts:234 | a spawned rock (radius 30 to 50) is worth 30 or 45 points and its pieces 60 to 90 |
| Collisions.DecimalDigits | src/game2/managers/entities.manager.ts:238 | the numeral of a number is a non-empty string of digits without a leading zero |
| Collisions.DecimalValue | src/game2/managers/entities.manager.ts:238 | reading the numeral back gives the number |
| Collisions.LabelShape | src/game2/managers/entities.manager.ts:238 | the label is `+` followed by the numeral of exactly the points awarded |
| Collisions.RocketLabel | src/game2/managers/entities.manager.ts:270-278 | a rocket's label reads "+150" |
| Collisions.PickSymmetric | src/game2/managers/entities.manager.ts:180-197 | the order of the pair does not change which handler runs |
| Collisions.PickTable | src/game2/managers/entities.manager.ts:180-215 | each handler runs for exactly its pair of classes, and every other pair, including any without a collisional extension, has no effect |
| Collisions.PiecesShape | src/game2/managers/entities.manager.ts:247 | a struck rock of radius at least 20 breaks into two sound pieces of half its radius, a smaller one into none |
| Collisions.PiecesSpeed | src/game2/entities/asteroid.entity.ts:118-140 | the pieces move at the shared velocity tilted by ±π/5, which is never faster than 10 and is 1.5 times the rock's speed when that is within 10 |
| Collisions.DebrisAt | src/game2/managers/entities.manager.ts:395-421 | an explosion makes `count` sparks, all starting at its centre |
| Collisions.ExplosionChanges | src/game2/managers/entities.manager.ts:387-426 | `createExplosion` adds `count` sparks at its centre after everything else and changes nothing that was there |
| Collisions.RemoveBothChanges | src/game2/managers/entities.manager.ts:137-139 | removing two entities drops both from the array and changes nothing else |
| Collisions.ShatterChanges | src/game2/managers/entities.manager.ts:245-258 | the hitter and the rock leave the array, the pieces and then 100 sparks join it |
| Collisions.ShatterCreates | src/game2/managers/entities.manager.ts:245-258 | the pieces get the first new identities and the sparks, placed at the impact point, the ones after |
| Collisions.AddThenShatter | src/game2/managers/entities.manager.ts:237-258 | the label added before the shatter keeps its place ahead of the pieces and the sparks |
| Collisions.CollisionSymmetric | src/game2/managers/entities.manager.ts:180-215 | the order in which the scan meets a pair matters only for two rocks |
| Collisions.AsteroidAsteroidEffect | src/game2/managers/entities.manager.ts:217-224 | two rocks bounce in place: only their states change, no score, and the total momentum is kept |
| Collisions.BulletAsteroidEffect | src/game2/managers/entities.manager.ts:226-259 | the score grows by the rock's points, one label is added, bullet and rock leave, the pieces and 100 sparks join |
| Collisions.BulletAsteroidUnfold | src/game2/managers/entities.manager.ts:226-259 | the handler's result in the source's order: score, label at the rock, removals, pieces, sparks along the bullet capped at speed 5 |
| Collisions.BulletRocketEffect | src/game2/managers/entities.manager.ts:261-290 | 150 points, one label, bullet and rocket leave, 150 sparks join |
| Collisions.BulletRocketCreates | src/game2/managers/entities.manager.ts:273-289 | the label "+150" sits at the rocket, and the sparks start there |
| Collisions.DestroyShipEffect | src/game2/managers/entities.manager.ts:349-369 | the ship is killed in place, a life is lost, and 100 sparks start at the ship |
| Collisions.ShipAsteroidEffect | src/game2/managers/entities.manager.ts:292-302 | a rock hitting a live, vulnerable ship destroys it and leaves the array; against a dead or invincible ship nothing happens |
| Collisions.ShipRocketEffect | src/game2/managers/entities.manager.ts:304-318 | a rocket hitting a live, vulnerable ship destroys it and leaves the array; otherwise nothing happens |
| Collisions.RocketAsteroidEffect | src/game2/managers/entities.manager.ts:320-347 | no points; rocket and rock leave, the pieces and then 100 sparks at the rock join |
| Collisions.CollisionKeeps | src/game2/managers/entities.manager.ts:180-215 | any collision keeps the scene well formed and only growing, never lowers the score, never raises a non-negative life count, and leaves level and pause alone |
| EntityList.Insert | src/game2/managers/entities.manager.ts:132-135 | `push` followed by the stable sort on draw order yields an array of the stored objects, one longer |
| EntityList.InsertPermutes | src/game2/managers/entities.manager.ts:132-135 | after `addEntity` the array holds the old entities and the new one, nothing else |
| EntityList.InsertSplits | src/game2/managers/entities.manager.ts:132-135 | the new entity goes in after every entity of its draw order or lower and before every entity of a higher one |
| EntityList.InsertSorted | src/game2/managers/entities.manager.ts:134 | a sorted array stays sorted by draw order |
| EntityList.InsertStable | src/game2/managers/entities.manager.ts:134 | within each draw order the entities keep their relative order and the new one comes last, as the stable sort leaves them |
| EntityList.InsertKeepsPrefix | src/game2/managers/entities.manager.ts:132-135 | the entities up to one that draws no higher than the new one keep their places |
| EntityList.FreshKeepsOrder | src/game2/managers/entities.manager.ts:132-135 | constructing an object that is not yet in the array leaves the array's order alone |
| EntityList.SameClassKeepsOrder | src/game2/managers/entities.manager.ts:40-42 | updating an entity's state in place leaves the order alone |
| EntityList.WithoutMultiset | src/game2/managers/entities.manager.ts:137-139 | `removeEntity` drops every occurrence of the entity and keeps every other one as often as it was there |
| EntityList.WithoutMembers | src/game2/managers/entities.manager.ts:137-139 | the remaining array holds exactly the other entities |
| EntityList.WithoutAbsent | src/game2/managers/entities.manager.ts:137-139 | removing an entity that is not in the array changes nothing |
| EntityList.WithoutIdempotent | src/game2/managers/entities.manager.ts:137-139 | removing twice is removing once |
| EntityList.WithoutKeeps | src/game2/managers/entities.manager.ts:137-139 | the survivors keep their order, so sortedness and distinctness are kept |
| EntityList.WithoutLength | src/game2/managers/entities.manager.ts:137-139 | a present entity that occurs once is removed exactly once |
| EntityList.CollidersMembers | src/game2/managers/entities.manager.ts:156-159 | the collision snapshot holds exactly the stored entities with a collisional extension |
| EntityList.CountIsLayer | src/game2/managers/entities.manager.ts:120-122 | the asteroid count is the length of draw layer 1 |
| EntityList.InsertCount | src/game2/managers/entities.manager.ts:120-135 | `addEntity` raises the asteroid count by one exactly when it adds an asteroid |
| Scenes.Add | src/game2/managers/entities.manager.ts:132-135 | adding a new object keeps every array entry stored |
| Scenes.AddAll | src/game2/managers/entities.manager.ts:248-250 | adding objects one by one keeps every array entry stored |
| Scenes.Remove | src/game2/managers/entities.manager.ts:137-139 | removal keeps every array entry stored |
| Scenes.AddEffect | src/game2/managers/entities.manager.ts:132-135 | the new object gets the next identity, joins the array once, and no other state changes |
| Scenes.AddWellFormed | src/game2/managers/entities.manager.ts:132-135 | adding an object that is not a ship keeps the scene invariant: sorted, distinct, stored, a single ship |
| Scenes.AddAllWellFormed | src/game2/managers/entities.manager.ts:248-250 | adding such objects one by one keeps the invariant and hands out one identity each |
| Scenes.AddAllHeap | src/game2/managers/entities.manager.ts:248-250 | the k-th object added gets identity `nextId + k` and the stored states are untouched |
| Scenes.AddAllMembers | src/game2/managers/entities.manager.ts:248-250 | afterwards the array holds the old entities and exactly the new identities |
| Scenes.RemoveWellFormed | src/game2/managers/entities.manager.ts:137-139 | removal keeps the invariant and drops exactly the removed object from the array |
| Scenes.SetBodyWellFormed | src/game2/managers/entities.manager.ts:40-42 | a same-class change of an object's state keeps the invariant |
| Scenes.AddAllGrows | src/game2/managers/entities.manager.ts:248-250 | adding objects only lets the scene grow |
| Scenes.EditsGrow | src/game2/managers/entities.manager.ts:137-139 | removal keeps every state, and a same-class change keeps every class |
| Scenes.ChangesCompose | src/game2/managers/entities.manager.ts:153-178 | two changes in a row compose into one that removes and edits the union |
| Scenes.AddChanges | src/game2/managers/entities.manager.ts:132-135 | `addEntity` removes and edits nothing and stores the object at the next identity |
| Scenes.AddAllChanges | src/game2/managers/entities.manager.ts:248-250 | a batch removes and edits nothing and stores object k at `nextId + k` |
| Scenes.RemoveChanges | src/game2/managers/entities.manager.ts:137-139 | `removeEntity` removes exactly that object and keeps every state |
| Scenes.SetBodyChanges | src/game2/managers/entities.manager.ts:40-42 | an in-place change edits exactly that object |
| Scenes.AddAllTwice | src/game2/managers/entities.manager.ts:423-425 | two batches in a row number the first batch first and the second after it |
| Passes.RocketFrame | src/game2/entities/rocket.entity.ts:52-56 | the frame a rocket's update runs sees the manager's ship as its target |
| Passes.Advance | src/game2/managers/entities.manager.ts:40-41 | `entity.update()` keeps the entity's class and a sound state, and adds five live flames exactly for a launched rocket while the ship lives |
| Passes.FlamesLive | src/game2/entities/rocket.entity.ts:126-142 | a rocket's burst is five live flames exactly when it is launched and sees a live ship |
| Passes.AdvanceUpdates | src/game2/managers/entities.manager.ts:40-41 | the new state is the one the class's own `update` gives |
| Passes.EntitiesProper | src/game2/managers/entities.manager.ts:40-42 | the entities' own updates are defined everywhere and only rockets add entities, at most five live flames |
| Passes.Visit | src/game2/managers/entities.manager.ts:40-41 | one turn of the loop body edits only the visited entity and adds its flames, all live, at the next identities |
| Passes.ApplyChanges | src/game2/managers/entities.manager.ts:40-41 | setting one entity's state and adding flames after it edits only that entity |
| Passes.VisitTail | src/game2/managers/entities.manager.ts:40-47 | visiting entry i keeps the entries up to i and lowers the visits still to come, so the live loop ends |
| Passes.Sweep | src/game2/managers/entities.manager.ts:40-47 | the for-of over the array, walking the live array until the first removal and the array it held from then on, ends in a well-formed later scene |
| Passes.Pass | src/game2/managers/entities.manager.ts:40-47 | one turn of the loop body moves the loop on, and while it walks the live array the visits still to come go down |
| Passes.SweepLeavesNoExpired | src/game2/managers/entities.manager.ts:43-46 | no entity left in the array after the loop asks for removal |
| Passes.SweepFrozenKeeps | src/game2/managers/entities.manager.ts:40-47 | after the first removal the loop updates only the entities of the old array it still has to walk |
| Passes.SweepTracks | src/game2/managers/entities.manager.ts:40-47 | each entity still to be visited is updated exactly once and stays in the array exactly when its new state does not ask for removal |
| Passes.SweepEffect | src/game2/managers/entities.manager.ts:40-47 | every entity the loop starts with is updated exactly once and stays exactly when it does not ask for removal; none left asks for removal |
| Passes.LoopEffect | src/game2/managers/entities.manager.ts:40-47 | the same for the entities' own `update` methods: each entity gets the new state its class gives it |
| Spawns.RetryNeverFires | src/game2/managers/entities.manager.ts:84-95 | the near-ship retry of `createAsteroid` never fires, since the drawn `x` is a number and never `undefined` |
| Spawns.AddCount | src/game2/managers/entities.manager.ts:120-135 | `addEntity` of a new object raises the asteroid count by one exactly when it adds an asteroid |
| Spawns.AddExtends | src/game2/managers/entities.manager.ts:132-135 | adding an object the manager creates keeps the invariant and only extends the array |
| Spawns.CreateAsteroid | src/game2/managers/entities.manager.ts:76-99 | one more entity, the asteroid drawn for the next identity, and one more asteroid |
| Spawns.CreateRocket | src/game2/managers/entities.manager.ts:66-74 | one more entity, the rocket drawn for the next identity, and the asteroid count unchanged |
| Spawns.CreateAsteroids | src/game2/managers/entities.manager.ts:58-64 | n calls add n entities, all asteroids, removing nothing |
| Spawns.CreateRockets | src/game2/managers/entities.manager.ts:33-36 | n calls add n entities, none an asteroid, removing nothing |
| Spawns.WithShip | src/game2/managers/entities.manager.ts:27-30 | the ship is added first, gets the first identity and is the only entity |
| Spawns.WithAsteroids | src/game2/managers/entities.manager.ts:58-64 | after the ship come eight asteroids |
| Spawns.Initial | src/game2/managers/entities.manager.ts:26-37 | a new manager holds thirteen entities: its ship, eight asteroids and four rockets |
| Spawns.SpawnAsteroid | src/game2/managers/entities.manager.ts:118-130 | `spawnAsteroid` keeps the invariant and only extends the array |
| Spawns.SpawnAsteroidRule | src/game2/managers/entities.manager.ts:118-130 | one asteroid more exactly on every 300th frame with fewer than 12 asteroids, otherwise no change; the spawner never takes the count above 12 |
| Spawns.RocketInterval | src/game2/managers/entities.manager.ts:104-110 | the interval is `max(60, 720 - 60·level)` |
| Spawns.SpawnRocket | src/game2/managers/entities.manager.ts:101-116 | `spawnRocket` keeps the invariant and only extends the array |
| Spawns.SpawnRocketRule | src/game2/managers/entities.manager.ts:101-116 | one rocket more and the spawn time recorded exactly when the ship lives, the level is at least 2 and the interval has passed; otherwise no change |
| Spawns.NoRocketsBelowLevelTwo | src/game2/managers/entities.manager.ts:112 | at levels 0 and 1 no rocket is spawned |
| Spawns.RocketGap | src/game2/managers/entities.manager.ts:104-114 | a spawned rocket comes more than `max(60, 720 - 60·level)` frames after the previous one |
| Spawns.Frame | src/game2/managers/entities.manager.ts:39-50 | a manager update keeps the scene invariant |
| Spawns.FrameEffect | src/game2/managers/entities.manager.ts:39-50 | each entity the array started with gets its class's update once and stays exactly when it does not ask for removal; the spawners add at most one asteroid and one rocket |
| Manager.EntitiesManager.constructor | src/game2/managers/entities.manager.ts:26-37 | the manager's scene is the initial one (ship, eight asteroids, four rockets) and no rocket has been spawned yet |
| Manager.EntitiesManager.AddEntity | src/game2/managers/entities.manager.ts:132-135 | the array becomes the stable sorted insertion of the new object |
| Manager.EntitiesManager.RemoveEntity | src/game2/managers/entities.manager.ts:137-139 | the array loses the object and its state is kept |
| Manager.EntitiesManager.CreateAsteroid | src/game2/managers/entities.manager.ts:76-99 | the scene becomes the one with the drawn asteroid added |
| Manager.EntitiesManager.CreateRocket | src/game2/managers/entities.manager.ts:66-74 | the scene becomes the one with the drawn rocket added |
| Manager.EntitiesManager.CreateInitialAsteroids | src/game2/managers/entities.manager.ts:58-64 | eight asteroids are created in turn |
| Manager.EntitiesManager.SpawnAsteroid | src/game2/managers/entities.manager.ts:118-130 | the scene follows the asteroid spawn rule |
| Manager.EntitiesManager.SpawnRocket | src/game2/managers/entities.manager.ts:101-116 | the scene and `lastSpawnedRocketTime` follow the rocket spawn rule |
| Manager.EntitiesManager.AddEntities | src/game2/managers/entities.manager.ts:423-425 | each object is added in turn, as `createFlames` and `createExplosion` do |
| Manager.EntitiesManager.UpdateEntity | src/game2/managers/entities.manager.ts:40-41 | the entity takes its updated state and the flames it produced are added after it |
| Manager.EntitiesManager.Turn | src/game2/managers/entities.manager.ts:40-47 | one turn of the for-of: the entity's update and its removal when it asks for it |
| Manager.EntitiesManager.Update | src/game2/managers/entities.manager.ts:39-50 | the scene and `lastSpawnedRocketTime` become one frame of the manager |
| Manager.EntitiesManager.UpdateEntities | src/game2/managers/entities.manager.ts:40-47 | the scene becomes the loop's sweep, whose lemmas say each entity is updated once and removed exactly when it expires |
| Manager.EntitiesManager.CreateExplosion | src/game2/managers/entities.manager.ts:387-426 | all sparks are made first, then added one by one |
| Manager.EntitiesManager.HandleAsteroidAsteroid | src/game2/managers/entities.manager.ts:217-224 | the world becomes the two rocks' elastic bounce |
| Manager.EntitiesManager.Shatter | src/game2/managers/entities.manager.ts:245-258 | the hitter and the rock leave, the pieces and then the sparks join |
| Manager.EntitiesManager.HandleBulletAsteroid | src/game2/managers/entities.manager.ts:226-259 | the world becomes the bullet-hits-rock result |
| Manager.EntitiesManager.HandleBulletRocket | src/game2/managers/entities.manager.ts:261-290 | the world becomes the bullet-hits-rocket result |
| Manager.EntitiesManager.DestroyShip | src/game2/managers/entities.manager.ts:349-369 | the world becomes the ship's destruction: sparks, death, a life lost |
| Manager.EntitiesManager.HandleShipAsteroid | src/game2/managers/entities.manager.ts:292-302 | the world becomes the rock-hits-ship result |
| Manager.EntitiesManager.HandleShipRocket | src/game2/managers/entities.manager.ts:304-318 | the world becomes the rocket-hits-ship result |
| Manager.EntitiesManager.HandleRocketAsteroid | src/game2/managers/entities.manager.ts:320-347 | the world becomes the rocket-hits-rock result |
| Manager.EntitiesManager.Collision | src/game2/managers/entities.manager.ts:180-215 | the first handler whose class test the pair passes runs |
| Manager.EntitiesManager.CheckCollisions | src/game2/managers/entities.manager.ts:153-178 | the scene and the game counters become the whole collision pass |
| Manager.EntitiesManager.ScanAll | src/game2/managers/entities.manager.ts:161-177 | the outer loop runs the pair scan from its start |
| Manager.EntitiesManager.ScanFrom | src/game2/managers/entities.manager.ts:167-176 | the inner loop tests entity i against every later one |
| Manager.EntitiesManager.SetShip | src/game2/game.ts:82-100 | an in-place change to the manager's ship keeps the invariant |
| Manager.EntitiesManager.RebornShip | src/game2/managers/entities.manager.ts:365-367 | the delayed `ship.reborn()` gives the ship its reborn state |
| GameStates.LevelOf | src/game2/managers/game-state.ts:42 | the level is the one whose band of 1000 points holds the score, at least 1 for a non-negative score |
| GameStates.Decremented | src/game2/managers/game-state.ts:72 | one life less, clamped at 0 |
| GameStates.ResetValues | src/game2/managers/game-state.ts:21-37 | after `reset` the score is 0, lives and maximum 3, level 1, the flags untouched, and three events announced |
| GameStates.LevelMonotone | src/game2/managers/game-state.ts:42 | the level never falls as the score grows |
| GameStates.LevelBands | src/game2/managers/game-state.ts:42 | level k + 1 is exactly the scores in [1000k, 1000(k + 1)) |
| GameStates.UpdateAnnounces | src/game2/managers/game-state.ts:39-50 | `update` sets the level from the score, announces LEVEL_CHANGED once exactly when it moved, and touches nothing else |
| GameStates.AddScoreEffect | src/game2/managers/game-state.ts:52-57 | `addScore(n)` raises the score by exactly n, announces it once and changes nothing else |
| GameStates.DecrementEffect | src/game2/managers/game-state.ts:71-81 | lives never go negative, and the game is over exactly when a decrement reaches zero or it already was |
| GameStates.ThreeDeaths | src/game2/managers/game-state.ts:71-81 | three deaths after a reset end the game; a fourth keeps lives at 0 and announces GAME_OVER again |
| GameStates.SettersAreLocal | src/game2/managers/game-state.ts:83-108 | `setLives` stores any value unclamped, and the flag setters change only their flag |
| GameStates.GameState.constructor | src/game2/managers/game-state.ts:7-19 | the field initialisers followed by `reset` |
| GameStates.GameState.Reset | src/game2/managers/game-state.ts:21-37 | the counters become the reset ones |
| GameStates.GameState.Update | src/game2/managers/game-state.ts:39-50 | the counters become the levelled ones |
| GameStates.GameState.AddScore | src/game2/managers/game-state.ts:52-57 | the counters become the scored ones |
| GameStates.GameState.SetScore | src/game2/managers/game-state.ts:59-64 | the score is replaced and announced |
| GameStates.GameState.DecrementLives | src/game2/managers/game-state.ts:71-81 | the counters after a lost life |
| GameStates.GameState.SetLives | src/game2/managers/game-state.ts:83-88 | the lives are replaced and announced |
| GameStates.GameState.SetGameOver | src/game2/managers/game-state.ts:102-104 | only the game-over flag changes |
| GameStates.GameState.SetPaused | src/game2/managers/game-state.ts:106-108 | only the pause flag changes |
| Toasts.Displayed | src/game2/hud/toast.hud.ts:73 | the shown text is a prefix of the message: its first `charIndex` characters when that is within the message |
| Toasts.StepEffect | src/game2/hud/toast.hud.ts:55-69 | an update keeps the message, takes one frame off the duration and reveals at most one character |
| Toasts.RevealAfter | src/game2/hud/toast.hud.ts:47-69 | after n updates of a new toast `min(length, n div 2)` characters show |
| Toasts.ToastLifetime | src/game2/hud/toast.hud.ts:55-84 | a toast is removed after exactly `duration` updates, and its shown text is always a prefix of the message |
| Toasts.SweepKeepsPrefix | src/game2/hud/toast.hud.ts:20-27 | the sweep leaves the items before the cursor alone and never grows the list |
| Toasts.SweepWithoutExpiry | src/game2/hud/toast.hud.ts:20-27 | when no toast expires, each is updated once and all are kept in order |
| Toasts.SweepSkipsNext | src/game2/hud/toast.hud.ts:21-25 | when the first toast expires and is spliced out, the second is not updated in the same call |
| Toasts.ToastHUD.constructor | src/game2/hud/toast.hud.ts:5-10 | no toasts |
| Toasts.ToastHUD.Add | src/game2/hud/toast.hud.ts:12-14 | a new toast is appended, with duration 60 only when none is given |
| Toasts.ToastHUD.Clean | src/game2/hud/toast.hud.ts:16-18 | the list is emptied |
| Toasts.ToastHUD.Update | src/game2/hud/toast.hud.ts:20-27 | the list becomes the for-of sweep of the old one |
| Lives.FirstUpdateQuiet | src/game2/hud/lives.hud.ts:11-40 | the first update never starts a flash: a comparison with the unset previous lives is false |
| Lives.StepEffect | src/game2/hud/lives.hud.ts:24-40 | a loss flashes the heart of the last remaining life with 59 frames left; otherwise the timer counts down to 0, where the flash is cleared; the lives seen are remembered |
| Lives.TimerBounded | src/game2/hud/lives.hud.ts:29-37 | the timer stays within [0, 60) |
| Lives.FlashLasts | src/game2/hud/lives.hud.ts:33-37 | after a loss the heart flashes for 59 more updates and is cleared on the 60th |
| Lives.QuietStays | src/game2/hud/lives.hud.ts:33-37 | without a loss and with the timer at 0 nothing flashes |
| Lives.HeartsRule | src/game2/hud/lives.hud.ts:42-76 | exactly `maxLives` hearts are drawn; heart i flashes iff it is the flashing one and is dimmed to 40 iff i >= lives and it is not |
| Lives.LivesHUD.constructor | src/game2/hud/lives.hud.ts:11-22 | no previous lives, nothing flashing, the timer at 0 |
| Lives.LivesHUD.Update | src/game2/hud/lives.hud.ts:24-40 | the flash state becomes one update of the old |
| Lives.LivesHUD.HeartOpacity | src/game2/hud/lives.hud.ts:63-76 | the tint of heart i follows the heart rule |
| Infos.Rounded | src/game2/hud/infos.hud.ts:22 | `Number(x.toFixed(0))` lies within 0.5 of x |
| Infos.PushedEffect | src/game2/hud/infos.hud.ts:18-28 | a buffer of at most 60 samples stays so and the newest sample is last |
| Infos.HistoryIsWindow | src/game2/hud/infos.hud.ts:18-28 | the buffer holds exactly the latest `min(n, 60)` samples, in arrival order |
| Infos.AverageBounds | src/game2/hud/infos.hud.ts:34-38 | the shown average lies between the smallest and the largest buffered sample |
| Infos.InfosHUD.constructor | src/game2/hud/infos.hud.ts:9-16 | an empty buffer |
| Infos.InfosHUD.Update | src/game2/hud/infos.hud.ts:18-28 | the buffer becomes the old one with the rounded frame rate pushed |
| Games.Turn | src/game2/game.ts:82-87 | a turn keeps the scene invariant, the array and the identities |
| Games.Shoot | src/game2/game.ts:88-95 | a shot keeps the invariant and never takes identities back |
| Games.Boost | src/game2/game.ts:97-100 | a boost keeps the invariant and never takes identities back |
| Games.Controls | src/game2/game.ts:63-106 | the keys' effect keeps the scene invariant |
| Games.Tick | src/game2/game.ts:32-43 | a game frame keeps the scene invariant |
| Games.TurnChanges | src/game2/game.ts:82-87 | a turning key edits only the ship's rotation speed, adding the given turn rate (±`SHIP_ROTATION_SPEED`, 0.02, through `Turns`) while held, and adds nothing |
| Games.ShootChanges | src/game2/game.ts:88-95 | space adds one bullet exactly when it is held, the ship lives and the 300 ms cooldown has passed, and edits only the ship |
| Games.BoostChanges | src/game2/game.ts:97-100 | up adds the five flames of a living ship while held, none otherwise, and edits only the ship |
| Games.TurnsChanges | src/game2/game.ts:82-87 | the turning keys edit the ship's motion only; its heading, life and shot time stay |
| Games.ActsChanges | src/game2/game.ts:88-100 | space and up over a living ship add exactly the due bullet and flames and edit only the ship |
| Games.SteeredChanges | src/game2/game.ts:82-100 | the held keys over a living ship edit only the ship and add the due bullet and flames |
| Games.OppositeTurnsCancel | src/game2/game.ts:82-87 | holding left and right together leaves the ship's motion as it was |
| Games.ControlsEffect | src/game2/game.ts:78-80 | while the ship is dead `keyboards` changes nothing, escape included; otherwise it edits only the ship and adds at most one bullet and five flames |
| Games.ControlsCounters | src/game2/game.ts:102-105 | of the counters `keyboards` touches only the pause flag, and only to set it when escape is held over a living ship |
| Games.TickCounters | src/game2/game.ts:32-43 | an unpaused frame leaves the level derived from the score, never lowers the score, never raises the lives nor takes them below zero, and pauses only on escape |
| Games.TickPaused | src/game2/game.ts:33-35 | a paused frame changes nothing |
| Games.ReactionGuards | src/game2/game.ts:114-131 | Enter after game over restarts, even while paused; resume needs a pause and space or Enter; pause needs a running game and p or P; every other key is ignored |
| Games.Game.constructor | src/game2/game.ts:19-24 | `newGame` (a new manager) followed by a new game state |
| Games.Game.NewGame | src/game2/game.ts:26-30 | a fresh manager with the initial scene; the game state is kept as it is |
| Games.Game.Update | src/game2/game.ts:32-43 | the whole game becomes one frame of the game |
| Games.Game.Keyboards | src/game2/game.ts:63-106 | manager scene and counters become the keys' effect |
| Games.Game.Steer | src/game2/game.ts:82-100 | the keys' effect on a living ship |
| Games.Game.TurnShips | src/game2/game.ts:82-87 | both turning keys in order |
| Games.Game.ActShip | src/game2/game.ts:88-100 | space, then up |
| Games.Game.TurnShip | src/game2/game.ts:82-87 | one turning key |
| Games.Game.ShootShip | src/game2/game.ts:88-95 | the shot and the bullet it adds |
| Games.Game.BoostShip | src/game2/game.ts:97-100 | the boost and the flames it adds |
| Games.Game.OnKeyPressed | src/game2/game.ts:114-131 | restart gives a fresh manager and keeps the game state; resume and pause set the flag; any other key changes nothing |

## Left out

- Drawing: every `draw` method, images, tint, colours as pixels, the asteroid's `createVertices` and the ship's flame sprites. They do not affect the simulation state.
- The map manager and star field (`mapManager.update` in `game.update`): a backdrop with no effect on entities or state.
- The score, pause, game-over, level and speed HUDs, and `hud.ts`: display only.
- Games.Tick: the model assumes the HUD update returns and runs the keyboard step after the game-state update. As written, `LevelHUD.update` (`src/game2/hud/level.hud.ts:15`) calls `getLevelProgress`, which `GameState` does not define. So it throws inside `hud.update` (`src/game2/game.ts:41`), and the toast update, `keyboards` and the frame's drawing never run. `Games.TickCounters` and the `Controls` lemmas describe the frame as it would run without that throw.
- `hud.update` inside `game.update`: the toast, lives and infos HUD updates are modelled separately, and they are not part of the `Games.Tick` composition.
- Collisions.HandleBulletAsteroid, Collisions.HandleBulletRocket: the label starts at a copy of the struck body's position. The source hands the label the body's own position vector (`src/game2/managers/entities.manager.ts:239`, `:275`), and the label moves that vector each frame (`src/game2/entities/point-indicator.entity.ts:27`, `:35`). The scene model does not capture this sharing. Two labels made on one snapshot rock in one scan share a vector and each rises 2 px per frame. A later in-place correction of a removed rock's position moves its label too. `Indicators.LabelDragsItsAnchor` shows the sharing for a single label object.
- Toasts.Displayed, Toasts.StepEffect, Toasts.RevealAfter, Toasts.ToastLifetime: a message is a sequence of Unicode characters. The source's `length` and `substring` count UTF-16 code units, so for a message with characters outside the Basic Multilingual Plane, the reveal stops at a different `charIndex` than the model says.
- `App.tsx` and the p5 sketch set-up: host wiring.
- Randomness (`random`, `p5.Vector.random2D`), `sqrt`, `mag`, `dist`, trigonometry and `fromAngle`: supplied as values (`Chance`, `Numerics`, `Draws`). Their ranges are stated where they are used.
- `nanoid`: entity ids are supplied by a counter in the scene.
- The `setTimeout` rebirth after a death: modelled as a separate external step, `Manager.EntitiesManager.RebornShip`.
- `keyIsDown`: the held keys are a supplied `Keys` value.
- The event system: emitted events are appended to an event log; listeners are not modelled.
- `ScoreManager` and the private `gameOver` of `game.ts`: never called.
- `removeEntityById`: ids are unique, so removal by identity (`EntityList.Without`) covers it.
- The `if (!colliderA) continue` guards in `checkCollisions`: `getExtension` throws before they are reached, and only collisional entities are scanned.
- `maxSpeed` / `setMaxSpeed`: the default is Infinity and no entity calls the setter, so `limit` never changes a velocity.
- Collisions at centre distance 0, or with a zero radius: the source divides by zero and gets NaN. `Collisional.Collide` requires a positive distance, and the asteroid–asteroid handler leaves coincident centres alone.
- Draws.MotionlessExplosion: for a motionless explosion, the source's spark size divides by zero. The model gives such sparks radius 0.
- Floating point: reals are exact; rounding and wrap-around of doubles are not modelled.
- Collisions.BulletAsteroidEffect: the creation of the split pieces is stated by `Collisions.AddThenShatter` and `Collisions.BulletAsteroidUnfold`, not in one lemma.
- The buff table and other `config.ts` constants that `src/game2` does not read.
- Getters that only return a field: they are read directly.
- Games.Turn, Games.Shoot, Games.Boost, Games.Controls, Games.Tick: their own ensures state only what is kept. Their effects are stated in the `*Changes`, `ControlsEffect` and `TickCounters` lemmas.
