/**
 * The game object (src/game2/game.ts): the pause gate and the order of one
 * frame, the keys read while the ship lives, and the keys that restart,
 * pause and resume. The map and the HUD are drawn from the state and change
 * none of it; they are not part of this model.
 */
module Games {
  import opened Vectors
  import N = Numerics
  import Chance
  import opened Bodies
  import opened EntityList
  import opened Scenes
  import opened Draws
  import opened Passes
  import Spawns
  import Collisions
  import GameStates
  import Flammable
  import Config
  import Ships
  import Manager

  /** `keyIsDown` for each key `keyboards` reads. */
  datatype Keys = Keys(left: bool, right: bool, up: bool, space: bool, a: bool, d: bool, w: bool, esc: bool)

  /** What the game holds between frames: the manager's scene and spawn time, and the game state's counters. */
  datatype GameView = GameView(scene: Scene, lastRocket: int, counters: GameStates.Counters)

  // ---------------------------------------------------------------- keyboards

  function ShipOf(s: Scene): Ships.ShipState
    requires WellFormed(s)
  {
    s.heap[s.ship].ship
  }

  /** `Vector.fromAngle(heading)` of the ship, which none of the key actions turns. */
  function Facing(s: Scene, num: N.Numerics): Chance.Direction
    requires WellFormed(s)
  {
    num.fromAngle(ShipOf(s).t.heading)
  }

  /** `ship.addRotation(rotation)` while its key is `held`. */
  function Turn(s: Scene, held: bool, rotation: real): (r: Scene)
    requires WellFormed(s)
    ensures WellFormed(r) && r.entities == s.entities && r.nextId == s.nextId
  {
    if !held then s
    else
      var st := Ships.Turned(ShipOf(s), rotation);
      SetBodyWellFormed(s, s.ship, ShipBody(st));
      SetBody(s, s.ship, ShipBody(st))
  }

  /** `ship.shoot()` at time `now` while space is `held`, and `addEntity` of the bullet it returns, if any. */
  function Shoot(s: Scene, held: bool, now: real, facing: Chance.Direction): (r: Scene)
    requires WellFormed(s)
    ensures WellFormed(r) && r.nextId >= s.nextId
  {
    if !held then s
    else
      var f := Ships.Fired(ShipOf(s), now, facing);
      SetBodyWellFormed(s, s.ship, ShipBody(f.0));
      var s1 := SetBody(s, s.ship, ShipBody(f.0));
      if f.1.Some? then
        AddWellFormed(s1, BulletBody(f.1.value));
        Scenes.Add(s1, BulletBody(f.1.value))
      else s1
  }

  /** The flames `boost` emits behind the ship, the first for the next identity. */
  function BoostFlames(s: Scene, facing: Chance.Direction, e: Env): seq<Body>
    requires WellFormed(s)
  {
    var x := Ships.BoostExhaust(ShipOf(s), facing);
    if x.Some? then
      FlameBodies(Flammable.Burst(x.value.position, x.value.velocity, x.value.heading, Ships.FLAME_COUNT,
                                  Ships.FLAME_COLORS, FlameDraws(e.num, e.dice, s.nextId, x.value.heading)))
    else []
  }

  /** `ship.boost()` while its key is `held`: the force, then the flames added to the manager. */
  function Boost(s: Scene, held: bool, facing: Chance.Direction, e: Env): (r: Scene)
    requires WellFormed(s)
    ensures WellFormed(r) && r.nextId >= s.nextId
  {
    if !held then s
    else
      var fs := BoostFlames(s, facing, e);
      var st := Ships.Boosted(ShipOf(s), facing);
      SetBodyWellFormed(s, s.ship, ShipBody(st));
      var s1 := SetBody(s, s.ship, ShipBody(st));
      AddAllWellFormed(s1, fs);
      AddAll(s1, fs)
  }

  /** The turning keys: left (or A), then right (or D). */
  function Turns(s: Scene, keys: Keys): (r: Scene)
    requires WellFormed(s)
    ensures WellFormed(r)
  {
    Turn(Turn(s, keys.left || keys.a, -Config.SHIP_ROTATION_SPEED), keys.right || keys.d, Config.SHIP_ROTATION_SPEED)
  }

  /** Space shoots, then up (or W) boosts, both along the heading the frame began with. */
  function Acts(s: Scene, keys: Keys, now: real, facing: Chance.Direction, e: Env): (r: Scene)
    requires WellFormed(s)
    ensures WellFormed(r)
  {
    Boost(Shoot(s, keys.space, now, facing), keys.up || keys.w, facing, e)
  }

  /** The keys' effect on a living ship, in `keyboards`' order. */
  function Steered(s: Scene, keys: Keys, now: real, e: Env): (r: Scene)
    requires WellFormed(s)
    ensures WellFormed(r)
  {
    Acts(Turns(s, keys), keys, now, Facing(s, e.num), e)
  }

  /**
   * `keyboards`: nothing while the ship is dead; otherwise left and right
   * turn, space shoots, up boosts, and escape pauses.
   */
  function Controls(s: Scene, c: GameStates.Counters, keys: Keys, now: real, e: Env): (r: (Scene, GameStates.Counters))
    requires WellFormed(s)
    ensures WellFormed(r.0)
  {
    if ShipOf(s).isDead then (s, c)
    else (Steered(s, keys, now, e), if keys.esc then GameStates.PausedSet(c, true) else c)
  }

  // ---------------------------------------------------------------- one frame

  /**
   * `update`: nothing while paused; otherwise the entities' update with the
   * level as it stands, the collision scan, the game state's level update,
   * then the keys.
   */
  function Tick(g: GameView, frameCount: nat, now: real, keys: Keys, e: Env): (r: GameView)
    requires WellFormed(g.scene) && N.Exact(e.num)
    ensures WellFormed(r.scene)
  {
    if g.counters.isPaused then g
    else
      var f := Spawns.Frame(g.scene, g.lastRocket, g.counters.level, frameCount, e);
      var w := Collisions.CheckCollisions(Collisions.World(f.0, g.counters), e.num, e.dice);
      var k := Controls(w.scene, GameStates.Leveled(w.counters), keys, now, e);
      GameView(k.0, f.1, k.1)
  }

  // ---------------------------------------------------------------- key presses

  /** What `onKeyPressed` does with a key, in the order it tests. */
  datatype Reaction = Restart | Resume | Pause | Ignore

  function React(c: GameStates.Counters, key: string): Reaction {
    if c.isGameOver && key == "Enter" then Restart
    else if c.isPaused && (key == " " || key == "Enter") then Resume
    else if !c.isPaused && (key == "p" || key == "P") then Pause
    else Ignore
  }

  // ---------------------------------------------------------------- lemmas

  /** A turn edits the ship's rotation speed only, and adds nothing. */
  lemma TurnChanges(s: Scene, held: bool, rotation: real)
    requires WellFormed(s)
    ensures var r := Turn(s, held, rotation);
      Changes(s, r, {}, {s.ship}) && r.nextId == s.nextId
      && ShipOf(r).t == ShipOf(s).t.(rotation := ShipOf(s).t.rotation + (if held then rotation else 0.0))
      && ShipOf(r).isDead == ShipOf(s).isDead && ShipOf(r).lastShootTime == ShipOf(s).lastShootTime
  {
    if held {
      SetBodyChanges(s, s.ship, ShipBody(Ships.Turned(ShipOf(s), rotation)));
    }
  }

  /** Space adds one bullet exactly when the ship is alive and the cooldown has passed. */
  lemma ShootChanges(s: Scene, held: bool, now: real, facing: Chance.Direction)
    requires WellFormed(s)
    ensures var r := Shoot(s, held, now, facing);
      Changes(s, r, {}, {s.ship})
      && r.nextId == s.nextId + (if held && !ShipOf(s).isDead && now - ShipOf(s).lastShootTime >= Ships.SHOOT_COOLDOWN then 1 else 0)
      && ShipOf(r).isDead == ShipOf(s).isDead
  {
    if held {
      var f := Ships.Fired(ShipOf(s), now, facing);
      Ships.ShootCooldown(ShipOf(s), now, facing);
      SetBodyChanges(s, s.ship, ShipBody(f.0));
      var s1 := SetBody(s, s.ship, ShipBody(f.0));
      if f.1.Some? {
        AddChanges(s1, BulletBody(f.1.value));
        ChangesCompose(s, s1, Scenes.Add(s1, BulletBody(f.1.value)), {}, {s.ship}, {}, {});
      }
    }
  }

  /** Up adds the five flames of a living ship, and none for a dead one. */
  lemma BoostChanges(s: Scene, held: bool, facing: Chance.Direction, e: Env)
    requires WellFormed(s)
    ensures var r := Boost(s, held, facing, e);
      Changes(s, r, {}, {s.ship}) && r.nextId == s.nextId + (if held && !ShipOf(s).isDead then Ships.FLAME_COUNT else 0)
  {
    if held {
      var fs := BoostFlames(s, facing, e);
      var st := Ships.Boosted(ShipOf(s), facing);
      Ships.BoostEffect(ShipOf(s), facing);
      SetBodyChanges(s, s.ship, ShipBody(st));
      var s1 := SetBody(s, s.ship, ShipBody(st));
      AddAllChanges(s1, fs);
      ChangesCompose(s, s1, AddAll(s1, fs), {}, {s.ship}, {}, {});
    }
  }

  /** The turning keys edit the ship's motion only, and add nothing. */
  lemma TurnsChanges(s: Scene, keys: Keys)
    requires WellFormed(s)
    ensures var r := Turns(s, keys);
      Changes(s, r, {}, {s.ship}) && r.nextId == s.nextId
      && ShipOf(r).isDead == ShipOf(s).isDead && ShipOf(r).lastShootTime == ShipOf(s).lastShootTime
      && ShipOf(r).t.heading == ShipOf(s).t.heading
  {
    var s1 := Turn(s, keys.left || keys.a, -Config.SHIP_ROTATION_SPEED);
    TurnChanges(s, keys.left || keys.a, -Config.SHIP_ROTATION_SPEED);
    TurnChanges(s1, keys.right || keys.d, Config.SHIP_ROTATION_SPEED);
    ChangesCompose(s, s1, Turns(s, keys), {}, {s.ship}, {}, {s.ship});
  }

  /** Space and up add at most one bullet and five flames, and edit only the ship. */
  lemma ActsChanges(s: Scene, keys: Keys, now: real, facing: Chance.Direction, e: Env)
    requires WellFormed(s) && !ShipOf(s).isDead
    ensures var r := Acts(s, keys, now, facing, e);
      Changes(s, r, {}, {s.ship})
      && r.nextId == s.nextId + (if keys.space && now - ShipOf(s).lastShootTime >= Ships.SHOOT_COOLDOWN then 1 else 0)
                              + (if keys.up || keys.w then Ships.FLAME_COUNT else 0)
  {
    var s1 := Shoot(s, keys.space, now, facing);
    ShootChanges(s, keys.space, now, facing);
    BoostChanges(s1, keys.up || keys.w, facing, e);
    ChangesCompose(s, s1, Acts(s, keys, now, facing, e), {}, {s.ship}, {}, {s.ship});
  }

  /**
   * The keys over a living ship edit only the ship and add at most one
   * bullet and five flames.
   */
  lemma SteeredChanges(s: Scene, keys: Keys, now: real, e: Env)
    requires WellFormed(s) && !ShipOf(s).isDead
    ensures var r := Steered(s, keys, now, e);
      Changes(s, r, {}, {s.ship})
      && r.nextId == s.nextId + (if keys.space && now - ShipOf(s).lastShootTime >= Ships.SHOOT_COOLDOWN then 1 else 0)
                              + (if keys.up || keys.w then Ships.FLAME_COUNT else 0)
  {
    var s1 := Turns(s, keys);
    TurnsChanges(s, keys);
    ActsChanges(s1, keys, now, Facing(s, e.num), e);
    ChangesCompose(s, s1, Steered(s, keys, now, e), {}, {s.ship}, {}, {s.ship});
  }

  /** Pressing left and right together leaves the rotation speed where it was. */
  lemma OppositeTurnsCancel(s: Scene, keys: Keys)
    requires WellFormed(s) && (keys.left || keys.a) && (keys.right || keys.d)
    ensures ShipOf(Turns(s, keys)).t == ShipOf(s).t
  {
    var s1 := Turn(s, true, -Config.SHIP_ROTATION_SPEED);
    TurnChanges(s, true, -Config.SHIP_ROTATION_SPEED);
    TurnChanges(s1, true, Config.SHIP_ROTATION_SPEED);
  }

  /**
   * `keyboards` changes nothing while the ship is dead, escape included;
   * otherwise it edits the ship and adds the shots and flames.
   */
  lemma ControlsEffect(s: Scene, c: GameStates.Counters, keys: Keys, now: real, e: Env)
    requires WellFormed(s)
    ensures var r := Controls(s, c, keys, now, e);
      (ShipOf(s).isDead ==> r == (s, c))
      && (!ShipOf(s).isDead ==> Changes(s, r.0, {}, {s.ship}) && r.0.nextId <= s.nextId + 1 + Ships.FLAME_COUNT)
  {
    if !ShipOf(s).isDead {
      SteeredChanges(s, keys, now, e);
    }
  }

  /** Of the counters, `keyboards` touches the pause flag alone, and only to set it while the ship lives. */
  lemma ControlsCounters(s: Scene, c: GameStates.Counters, keys: Keys, now: real, e: Env)
    requires WellFormed(s)
    ensures Controls(s, c, keys, now, e).1 == c.(isPaused := c.isPaused || (keys.esc && !ShipOf(s).isDead))
  {
  }

  /**
   * An unpaused frame leaves the level derived from the score, never lowers
   * the score, never raises the lives nor takes them below zero, and pauses
   * only when escape is held.
   */
  lemma TickCounters(g: GameView, frameCount: nat, now: real, keys: Keys, e: Env)
    requires WellFormed(g.scene) && N.Exact(e.num) && !g.counters.isPaused && g.counters.lives >= 0
    ensures var r := Tick(g, frameCount, now, keys, e);
      r.counters.level == GameStates.LevelOf(r.counters.score)
      && r.counters.score >= g.counters.score
      && 0 <= r.counters.lives <= g.counters.lives
      && (r.counters.isPaused ==> keys.esc)
  {
    var f := Spawns.Frame(g.scene, g.lastRocket, g.counters.level, frameCount, e);
    var w := Collisions.CheckCollisions(Collisions.World(f.0, g.counters), e.num, e.dice);
    ControlsCounters(w.scene, GameStates.Leveled(w.counters), keys, now, e);
  }

  /** A paused frame changes nothing at all. */
  lemma TickPaused(g: GameView, frameCount: nat, now: real, keys: Keys, e: Env)
    requires WellFormed(g.scene) && N.Exact(e.num) && g.counters.isPaused
    ensures Tick(g, frameCount, now, keys, e) == g
  {
  }

  /**
   * Each key press reaction fits the state it is taken in: restart only
   * after game over, resume only while paused, pause only while running;
   * Enter after game over restarts even while paused, and a game that is
   * neither over nor paused restarts on no key.
   */
  lemma ReactionGuards(c: GameStates.Counters, key: string)
    ensures React(c, key) == Restart <==> c.isGameOver && key == "Enter"
    ensures React(c, key) == Resume ==> c.isPaused && (key == " " || key == "Enter")
    ensures React(c, key) == Pause <==> !c.isPaused && (key == "p" || key == "P") && !(c.isGameOver && key == "Enter")
    ensures c.isPaused && key == " " ==> React(c, key) == Resume
    ensures React(c, key) == Ignore <==>
      (!(c.isGameOver && key == "Enter") && !(c.isPaused && (key == " " || key == "Enter"))
       && !(!c.isPaused && (key == "p" || key == "P")))
  {
  }

  /** The game object; the map and the HUD are left out. */
  class Game {
    var entitiesManager: Manager.EntitiesManager
    const gameState: GameStates.GameState

    ghost predicate Valid()
      reads this, entitiesManager
    {
      entitiesManager.Valid()
    }

    function View(): GameView
      reads this, entitiesManager, gameState
    {
      GameView(entitiesManager.Scene(), entitiesManager.lastSpawnedRocketTime, gameState.View())
    }

    /** The constructor: `newGame`, then a new game state. */
    constructor (e: Env)
      ensures View() == GameView(Spawns.Initial(e), 0, GameStates.Cleared(GameStates.Initial()))
           && Valid() && fresh(entitiesManager) && fresh(gameState)
    {
      entitiesManager := new Manager.EntitiesManager(e);
      gameState := new GameStates.GameState();
    }

    /** `newGame`: a new entities manager; the game state is kept as it is. */
    method NewGame(e: Env)
      modifies this
      ensures View() == GameView(Spawns.Initial(e), 0, old(gameState.View())) && Valid() && fresh(entitiesManager)
    {
      entitiesManager := new Manager.EntitiesManager(e);
    }

    /** `update` of frame `frameCount` at time `now` with the keys held down `keys`. */
    method Update(frameCount: nat, now: real, keys: Keys, e: Env)
      requires Valid() && N.Exact(e.num)
      modifies entitiesManager, gameState
      ensures Valid() && View() == Tick(old(View()), frameCount, now, keys, e)
    {
      if !gameState.isPaused {
        entitiesManager.Update(gameState.level, frameCount, e);
        entitiesManager.CheckCollisions(gameState, e.num, e.dice);
        gameState.Update();
        Keyboards(keys, now, e);
      }
    }

    /** `keyboards`. */
    method Keyboards(keys: Keys, now: real, e: Env)
      requires Valid()
      modifies entitiesManager, gameState
      ensures (entitiesManager.Scene(), gameState.View())
           == Controls(old(entitiesManager.Scene()), old(gameState.View()), keys, now, e)
           && Valid() && entitiesManager.lastSpawnedRocketTime == old(entitiesManager.lastSpawnedRocketTime)
    {
      var ship := entitiesManager.heap[entitiesManager.ship].ship;
      if !ship.isDead {
        Steer(keys, now, e);
        if keys.esc {
          gameState.SetPaused(true);
        }
      }
    }

    /** The keys held down over a living ship. */
    method Steer(keys: Keys, now: real, e: Env)
      requires Valid()
      modifies entitiesManager
      ensures entitiesManager.Scene() == Steered(old(entitiesManager.Scene()), keys, now, e)
           && Valid() && entitiesManager.lastSpawnedRocketTime == old(entitiesManager.lastSpawnedRocketTime)
    {
      var facing := e.num.fromAngle(entitiesManager.heap[entitiesManager.ship].ship.t.heading);
      TurnShips(keys);
      ActShip(keys, now, facing, e);
    }

    method TurnShips(keys: Keys)
      requires Valid()
      modifies entitiesManager
      ensures entitiesManager.Scene() == Turns(old(entitiesManager.Scene()), keys)
           && Valid() && entitiesManager.lastSpawnedRocketTime == old(entitiesManager.lastSpawnedRocketTime)
    {
      TurnShip(keys.left || keys.a, -Config.SHIP_ROTATION_SPEED);
      TurnShip(keys.right || keys.d, Config.SHIP_ROTATION_SPEED);
    }

    method ActShip(keys: Keys, now: real, facing: Chance.Direction, e: Env)
      requires Valid()
      modifies entitiesManager
      ensures entitiesManager.Scene() == Acts(old(entitiesManager.Scene()), keys, now, facing, e)
           && Valid() && entitiesManager.lastSpawnedRocketTime == old(entitiesManager.lastSpawnedRocketTime)
    {
      ShootShip(keys.space, now, facing);
      BoostShip(keys.up || keys.w, facing, e);
    }

    /** `ship.addRotation(rotation)`. */
    method TurnShip(held: bool, rotation: real)
      requires Valid()
      modifies entitiesManager
      ensures entitiesManager.Scene() == Turn(old(entitiesManager.Scene()), held, rotation)
           && Valid() && entitiesManager.lastSpawnedRocketTime == old(entitiesManager.lastSpawnedRocketTime)
    {
      if held {
        var m := entitiesManager;
        m.SetShip(Ships.Turned(m.heap[m.ship].ship, rotation));
      }
    }

    /** `ship.shoot()`, and `addEntity` of the bullet it returns. */
    method ShootShip(held: bool, now: real, facing: Chance.Direction)
      requires Valid()
      modifies entitiesManager
      ensures entitiesManager.Scene() == Shoot(old(entitiesManager.Scene()), held, now, facing)
           && Valid() && entitiesManager.lastSpawnedRocketTime == old(entitiesManager.lastSpawnedRocketTime)
    {
      if held {
        var m := entitiesManager;
        ghost var s0 := m.Scene();
        var fired := Ships.Fired(m.heap[m.ship].ship, now, facing);
        m.SetShip(fired.0);
        if fired.1.Some? {
          m.AddEntity(BulletBody(fired.1.value));
        }
        assert m.Scene() == Shoot(s0, held, now, facing);
      }
    }

    /** `ship.boost()`: the force on the ship, then its flames added to the manager. */
    method BoostShip(held: bool, facing: Chance.Direction, e: Env)
      requires Valid()
      modifies entitiesManager
      ensures entitiesManager.Scene() == Boost(old(entitiesManager.Scene()), held, facing, e)
           && Valid() && entitiesManager.lastSpawnedRocketTime == old(entitiesManager.lastSpawnedRocketTime)
    {
      if held {
        var m := entitiesManager;
        ghost var s0 := m.Scene();
        var flames := BoostFlames(m.Scene(), facing, e);
        m.SetShip(Ships.Boosted(m.heap[m.ship].ship, facing));
        m.AddEntities(flames);
        assert m.Scene() == Boost(s0, held, facing, e);
      }
    }

    /** `onKeyPressed`. */
    method OnKeyPressed(key: string, e: Env)
      requires Valid()
      modifies this, gameState
      ensures Valid()
      ensures match React(old(gameState.View()), key)
        case Restart => fresh(entitiesManager) && View() == GameView(Spawns.Initial(e), 0, old(gameState.View()))
        case Resume => entitiesManager == old(entitiesManager) && gameState.View() == GameStates.PausedSet(old(gameState.View()), false)
        case Pause => entitiesManager == old(entitiesManager) && gameState.View() == GameStates.PausedSet(old(gameState.View()), true)
        case Ignore => entitiesManager == old(entitiesManager) && gameState.View() == old(gameState.View())
    {
      if gameState.isGameOver {
        if key == "Enter" {
          NewGame(e);
          return;
        }
      }
      if gameState.isPaused && (key == " " || key == "Enter") {
        gameState.SetPaused(false);
        return;
      }
      if !gameState.isPaused && (key == "p" || key == "P") {
        gameState.SetPaused(!gameState.isPaused);
        return;
      }
    }
  }
}
