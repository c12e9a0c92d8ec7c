/** The numeric tunables of the game (src/game/config.ts). */
module Config {
  const LIVES: int := 3
  const SHIP_INVINCIBLE_TIME: int := 120
  const SHIP_BOOST_FORCE: real := 0.15
  const SHIP_ROTATION_SPEED: real := 0.02
  const SHIP_MAX_ROTATION: real := 0.1
  const BULLET_LIFESPAN: int := 70
  const BULLET_SPEED: real := 10.0
  const BULLET_RADIUS: real := 3.0
  const ASTEROID_SPAWN_INTERVAL: int := 300
  const ASTEROID_MAX_GENERATE: int := 12
  const ASTEROID_SPLIT_COUNT: int := 2
  const ASTEROID_INITIAL_COUNT: int := 8
  const ROCKET_MAX_SPEED: real := 7.0
  const ROCKET_SPAWN_INTERVAL: int := 12 * 60
  /** Declared in the configuration but read nowhere: rockets are not capped. */
  const ROCKET_MAX_GENERATE: int := 5
  const ROCKET_LIFESPAN: int := 850
  const ROCKET_STEER_FORCE: real := 0.08
  const MIN_SPAWN_DISTANCE: real := 300.0
  /** The value of `-p.PI / 2`, the ship's upward heading, to double precision. */
  const UP_HEADING: real := -1.5707963267948966
}
