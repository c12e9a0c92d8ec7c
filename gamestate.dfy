/**
 * The game's counters (src/game2/managers/game-state.ts): score, lives, the
 * level derived from the score, and the game-over and pause flags. The event
 * system the source dispatches to is represented by the log `events`.
 */
module GameStates {
  import opened Wrappers
  import Config

  /** The events dispatched to the event system, with their payloads. */
  datatype Event =
    | ScoreChanged(score: int)
    | LivesChanged(lives: int)
    | LevelChanged(level: int, previousLevel: Option<int>)
    | GameOver

  /** The fields of a `GameState`, with everything dispatched so far, oldest first. */
  datatype Counters = Counters(score: int, lives: int, maxLives: int, level: int,
                               isGameOver: bool, isPaused: bool, events: seq<Event>)

  const LEVEL_THRESHOLD: int := 1000

  /** `Math.floor(score / 1000) + 1`; integer division by a positive divisor is the floor. */
  function LevelOf(score: int): (level: int)
    ensures score >= 0 ==> level >= 1
    ensures (level - 1) * LEVEL_THRESHOLD <= score < level * LEVEL_THRESHOLD
  {
    score / LEVEL_THRESHOLD + 1
  }

  /** `Math.max(0, lives - 1)`. */
  function Decremented(lives: int): (r: int)
    ensures r >= 0
    ensures lives >= 1 ==> r == lives - 1
    ensures lives <= 1 ==> r == 0
  {
    if 0 > lives - 1 then 0 else lives - 1
  }

  /** The field initialisers, before the constructor's `reset`. */
  function Initial(): Counters {
    Counters(0, Config.LIVES, Config.LIVES, 1, false, false, [])
  }

  /** `reset`: counters back to their start values; the flags are left alone. */
  function Cleared(c: Counters): Counters {
    c.(score := 0, lives := Config.LIVES, maxLives := Config.LIVES, level := 1,
       events := c.events + [ScoreChanged(0), LivesChanged(Config.LIVES), LevelChanged(1, None)])
  }

  /** `update`: the level is derived from the score and announced only when it changed. */
  function Leveled(c: Counters): Counters {
    var level := LevelOf(c.score);
    c.(level := level,
       events := if level != c.level then c.events + [LevelChanged(level, Some(c.level))] else c.events)
  }

  /** `addScore`. */
  function Scored(c: Counters, points: int): Counters {
    c.(score := c.score + points, events := c.events + [ScoreChanged(c.score + points)])
  }

  /** `setScore`. */
  function ScoreSet(c: Counters, score: int): Counters {
    c.(score := score, events := c.events + [ScoreChanged(score)])
  }

  /** `decrementLives`: clamped at zero; reaching zero announces and sets game over, every time. */
  function LifeLost(c: Counters): Counters {
    var lives := Decremented(c.lives);
    var events := c.events + [LivesChanged(lives)];
    if lives <= 0 then c.(lives := lives, events := events + [GameOver], isGameOver := true)
    else c.(lives := lives, events := events)
  }

  /** `setLives`: no clamping. */
  function LivesSet(c: Counters, lives: int): Counters {
    c.(lives := lives, events := c.events + [LivesChanged(lives)])
  }

  function GameOverSet(c: Counters, isGameOver: bool): Counters {
    c.(isGameOver := isGameOver)
  }

  function PausedSet(c: Counters, isPaused: bool): Counters {
    c.(isPaused := isPaused)
  }

  // ---------------------------------------------------------------- lemmas

  /** After `reset` the score is 0, lives and the maximum are 3, and the level is 1. */
  lemma ResetValues(c: Counters)
    ensures var r := Cleared(c);
      r.score == 0 && r.lives == 3 && r.maxLives == 3 && r.level == 1
      && r.isGameOver == c.isGameOver && r.isPaused == c.isPaused
      && |r.events| == |c.events| + 3
  {
  }

  /** The level never falls as the score grows. */
  lemma LevelMonotone(a: int, b: int)
    requires a <= b
    ensures LevelOf(a) <= LevelOf(b)
  {
    var la, lb := LevelOf(a), LevelOf(b);
    assert (la - 1) * 1000 <= a <= b < lb * 1000;
  }

  /** Level `k + 1` is exactly the band of scores [1000 k, 1000 (k + 1)). */
  lemma LevelBands(score: int, k: int)
    ensures LevelOf(score) == k + 1 <==> k * 1000 <= score < (k + 1) * 1000
  {
    var l := LevelOf(score);
    assert (l - 1) * 1000 <= score < l * 1000;
  }

  /** `update` announces exactly one LEVEL_CHANGED when the level moves, none otherwise, and touches nothing else. */
  lemma UpdateAnnounces(c: Counters)
    ensures Leveled(c).level == LevelOf(c.score)
    ensures Leveled(c).level != c.level ==> Leveled(c).events == c.events + [LevelChanged(Leveled(c).level, Some(c.level))]
    ensures Leveled(c).level == c.level ==> Leveled(c).events == c.events
    ensures Leveled(c).(level := c.level, events := c.events) == c
  {
  }

  /** `addScore(n)` raises the score by exactly `n`, announces it once, and with `n >= 0` never lowers it. */
  lemma AddScoreEffect(c: Counters, points: int)
    ensures Scored(c, points).score - c.score == points
    ensures Scored(c, points).events == c.events + [ScoreChanged(c.score + points)]
    ensures points >= 0 ==> Scored(c, points).score >= c.score
    ensures Scored(c, points).(score := c.score, events := c.events) == c
  {
  }

  /** Lives never go negative; the game is over exactly when a decrement reaches zero, or already was. */
  lemma DecrementEffect(c: Counters)
    ensures LifeLost(c).lives == (if c.lives - 1 > 0 then c.lives - 1 else 0)
    ensures LifeLost(c).isGameOver <==> c.isGameOver || c.lives <= 1
    ensures c.lives <= 1 ==> LifeLost(c).events[|LifeLost(c).events| - 1] == GameOver
    ensures LifeLost(c).score == c.score && LifeLost(c).level == c.level
  {
  }

  /**
   * Three decrements after a reset end the game; a fourth keeps lives at 0 and
   * the game over, and announces GAME_OVER again.
   */
  lemma ThreeDeaths(c: Counters)
    ensures var r := LifeLost(LifeLost(LifeLost(Cleared(c))));
      r.lives == 0 && r.isGameOver == true
      && LifeLost(r).lives == 0 && LifeLost(r).isGameOver
      && LifeLost(r).events == r.events + [LivesChanged(0), GameOver]
    ensures LifeLost(LifeLost(Cleared(c))).lives == 1
    ensures LifeLost(LifeLost(Cleared(c))).isGameOver == c.isGameOver
  {
  }

  /** `setLives` stores any value, unclamped; the flag setters change their flag only. */
  lemma SettersAreLocal(c: Counters, lives: int, flag: bool)
    ensures LivesSet(c, lives).lives == lives && LivesSet(c, lives).(lives := c.lives, events := c.events) == c
    ensures PausedSet(c, flag) == c.(isPaused := flag)
    ensures GameOverSet(c, flag) == c.(isGameOver := flag)
  {
  }

  /** The state object; each method is the function of the same name. */
  class GameState {
    var score: int
    var lives: int
    var maxLives: int
    var level: int
    var isGameOver: bool
    var isPaused: bool
    var events: seq<Event>

    function View(): Counters
      reads this
    {
      Counters(score, lives, maxLives, level, isGameOver, isPaused, events)
    }

    /** The field initialisers, then `reset`. */
    constructor ()
      ensures View() == Cleared(Initial())
    {
      score, lives, maxLives, level := 0, Config.LIVES, Config.LIVES, 1;
      isGameOver, isPaused := false, false;
      events := [];
      new;
      Reset();
    }

    method Reset()
      modifies this
      ensures View() == Cleared(old(View()))
    {
      score := 0;
      lives := Config.LIVES;
      maxLives := Config.LIVES;
      level := 1;
      events := events + [ScoreChanged(score), LivesChanged(lives), LevelChanged(level, None)];
    }

    method Update()
      modifies this
      ensures View() == Leveled(old(View()))
    {
      var previousLevel := level;
      level := score / LEVEL_THRESHOLD + 1;
      if level != previousLevel {
        events := events + [LevelChanged(level, Some(previousLevel))];
      }
    }

    method AddScore(points: int)
      modifies this
      ensures View() == Scored(old(View()), points)
    {
      score := score + points;
      events := events + [ScoreChanged(score)];
    }

    method SetScore(score: int)
      modifies this
      ensures View() == ScoreSet(old(View()), score)
    {
      this.score := score;
      events := events + [ScoreChanged(score)];
    }

    method DecrementLives()
      modifies this
      ensures View() == LifeLost(old(View()))
    {
      lives := if 0 > lives - 1 then 0 else lives - 1;
      events := events + [LivesChanged(lives)];
      if lives <= 0 {
        events := events + [GameOver];
        isGameOver := true;
      }
    }

    method SetLives(lives: int)
      modifies this
      ensures View() == LivesSet(old(View()), lives)
    {
      this.lives := lives;
      events := events + [LivesChanged(lives)];
    }

    method SetGameOver(isGameOver: bool)
      modifies this
      ensures View() == GameOverSet(old(View()), isGameOver)
    {
      this.isGameOver := isGameOver;
    }

    method SetPaused(isPaused: bool)
      modifies this
      ensures View() == PausedSet(old(View()), isPaused)
    {
      this.isPaused := isPaused;
    }
  }
}
