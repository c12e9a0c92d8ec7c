/**
 * The hearts of the HUD (src/game2/hud/lives.hud.ts): one heart per possible
 * life, dimmed when lost, and the heart of a life just lost flashing for a second.
 */
module Lives {
  import opened Wrappers

  const FLASH_DURATION: int := 60
  const ACTIVE_OPACITY: int := 255
  const INACTIVE_OPACITY: int := 40

  /**
   * The fields `previousLives` (undefined until the first update),
   * `flashingHeartIndex` (null when none) and `flashTimer`.
   */
  datatype Flash = Flash(previousLives: Option<int>, flashingHeartIndex: Option<int>, flashTimer: int)

  function Initial(): Flash {
    Flash(None, None, 0)
  }

  /**
   * `update`, given the current lives. A comparison with undefined is false, so
   * the first update never starts a flash; a flash set in this update is already
   * counted down once.
   */
  function Step(f: Flash, lives: int): Flash {
    var lost := f.previousLives.Some? && lives < f.previousLives.value;
    var index := if lost then Some(lives - 1) else f.flashingHeartIndex;
    var timer := if lost then FLASH_DURATION else f.flashTimer;
    if timer > 0 then Flash(Some(lives), index, timer - 1)
    else Flash(Some(lives), None, timer)
  }

  /** How `setHeartOpacity` tints heart `i`: flashing, or a fixed opacity. */
  datatype Tint = Flashing | Opacity(alpha: int)

  function HeartTint(f: Flash, i: int, lives: int): Tint {
    if Some(i) == f.flashingHeartIndex then Flashing
    else if i >= lives then Opacity(INACTIVE_OPACITY)
    else Opacity(ACTIVE_OPACITY)
  }

  /** `draw`: hearts 0 .. maxLives - 1, in that order. */
  function Hearts(f: Flash, lives: int, maxLives: nat): seq<Tint> {
    seq(maxLives, i => HeartTint(f, i, lives))
  }

  /** `n` updates with the same number of lives. */
  function Steady(f: Flash, lives: int, n: nat): Flash
    decreases n
  {
    if n == 0 then f else Steady(Step(f, lives), lives, n - 1)
  }

  // ---------------------------------------------------------------- lemmas

  /** The first update never flashes: there is nothing to compare with. */
  lemma FirstUpdateQuiet(lives: int)
    ensures Step(Initial(), lives) == Flash(Some(lives), None, 0)
  {
  }

  /**
   * A loss flashes the heart of the last remaining life and leaves 59 frames
   * on the timer; otherwise the timer counts down to 0, where the flash is
   * cleared. Every update remembers the lives it saw.
   */
  lemma StepEffect(f: Flash, lives: int)
    ensures Step(f, lives).previousLives == Some(lives)
    ensures f.previousLives.Some? && lives < f.previousLives.value ==>
      Step(f, lives).flashingHeartIndex == Some(lives - 1) && Step(f, lives).flashTimer == FLASH_DURATION - 1
    ensures !(f.previousLives.Some? && lives < f.previousLives.value) ==>
      Step(f, lives).flashTimer == (if f.flashTimer > 0 then f.flashTimer - 1 else f.flashTimer)
      && Step(f, lives).flashingHeartIndex == (if f.flashTimer > 0 then f.flashingHeartIndex else None)
  {
  }

  /** The timer stays within [0, 60]. */
  lemma TimerBounded(f: Flash, lives: int)
    requires 0 <= f.flashTimer <= FLASH_DURATION
    ensures 0 <= Step(f, lives).flashTimer < FLASH_DURATION
  {
  }

  /** After a loss the heart flashes for 59 more updates and is cleared on the 60th. */
  lemma {:induction false} FlashLasts(f: Flash, lives: int, n: nat)
    requires f.previousLives == Some(lives) && f.flashingHeartIndex == Some(lives - 1)
    requires 0 <= f.flashTimer
    ensures n <= f.flashTimer ==> Steady(f, lives, n) == f.(flashTimer := f.flashTimer - n)
    ensures n > f.flashTimer ==> Steady(f, lives, n) == f.(flashingHeartIndex := None, flashTimer := 0)
    decreases n
  {
    if n > 0 {
      var g := Step(f, lives);
      if f.flashTimer > 0 {
        FlashLasts(g, lives, n - 1);
      } else {
        QuietStays(g, lives, n - 1);
      }
    }
  }

  lemma {:induction false} QuietStays(f: Flash, lives: int, n: nat)
    requires f.previousLives == Some(lives) && f.flashTimer == 0
    ensures Steady(f, lives, n) == if n == 0 then f else f.(flashingHeartIndex := None)
    decreases n
  {
    if n > 0 {
      QuietStays(Step(f, lives), lives, n - 1);
    }
  }

  /**
   * Exactly `maxLives` hearts are drawn; heart `i` is dimmed to 40 exactly
   * when `i >= lives` and it is not the flashing one.
   */
  lemma HeartsRule(f: Flash, lives: int, maxLives: nat)
    ensures |Hearts(f, lives, maxLives)| == maxLives
    ensures forall i :: 0 <= i < maxLives ==>
      (Hearts(f, lives, maxLives)[i] == Opacity(INACTIVE_OPACITY) <==> i >= lives && Some(i) != f.flashingHeartIndex)
    ensures forall i :: 0 <= i < maxLives ==>
      (Hearts(f, lives, maxLives)[i] == Flashing <==> Some(i) == f.flashingHeartIndex)
  {
  }

  /** The hearts component's state. */
  class LivesHUD {
    var previousLives: Option<int>
    var flashingHeartIndex: Option<int>
    var flashTimer: int

    function View(): Flash
      reads this
    {
      Flash(previousLives, flashingHeartIndex, flashTimer)
    }

    constructor ()
      ensures View() == Initial()
    {
      previousLives, flashingHeartIndex, flashTimer := None, None, 0;
    }

    /** `update`, given `gameState.getLives()`. */
    method Update(lives: int)
      modifies this
      ensures View() == Step(old(View()), lives)
    {
      if previousLives.Some? && lives < previousLives.value {
        flashingHeartIndex := Some(lives - 1);
        flashTimer := FLASH_DURATION;
      }
      if flashTimer > 0 {
        flashTimer := flashTimer - 1;
      } else {
        flashingHeartIndex := None;
      }
      previousLives := Some(lives);
    }

    /** `setHeartOpacity(index)`. */
    method HeartOpacity(index: int, lives: int) returns (t: Tint)
      ensures t == HeartTint(View(), index, lives)
    {
      if Some(index) == flashingHeartIndex {
        t := Flashing;
      } else {
        t := Opacity(if index >= lives then INACTIVE_OPACITY else ACTIVE_OPACITY);
      }
    }
  }
}
