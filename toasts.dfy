/**
 * The toast messages of the HUD (src/game2/hud/toast.hud.ts): each message is
 * typed out one character every two frames and dropped when its time is up.
 */
module Toasts {
  import opened Wrappers

  const DEFAULT_DURATION: int := 60
  const CHAR_REVEAL_SPEED: int := 2

  /** The fields of a `ToastItem`. */
  datatype Toast = Toast(message: string, duration: int, charIndex: int, frameCounter: int)

  /** The constructor: nothing revealed yet. */
  function Create(message: string, duration: int): Toast {
    Toast(message, duration, 0, 0)
  }

  /** `ToastItem.update`: one frame off the duration; every second frame one more character. */
  function Step(t: Toast): Toast {
    var frameCounter := t.frameCounter + 1;
    if frameCounter >= CHAR_REVEAL_SPEED && t.charIndex < |t.message| then
      t.(duration := t.duration - 1, charIndex := t.charIndex + 1, frameCounter := 0)
    else
      t.(duration := t.duration - 1, frameCounter := frameCounter)
  }

  /** `shouldRemove`. */
  predicate Expired(t: Toast) {
    t.duration <= 0
  }

  /** `message.substring(0, charIndex)`: the end is clamped into [0, length]. */
  function Displayed(t: Toast): (r: string)
    ensures |r| <= |t.message| && r <= t.message
    ensures 0 <= t.charIndex <= |t.message| ==> r == t.message[..t.charIndex]
  {
    var n := if t.charIndex < 0 then 0 else if t.charIndex > |t.message| then |t.message| else t.charIndex;
    t.message[..n]
  }

  /** `n` updates, the last one applied last. */
  function Steps(t: Toast, n: nat): Toast
    decreases n
  {
    if n == 0 then t else Step(Steps(t, n - 1))
  }

  /** The revealed count stays within the message and the frame counter is never negative. */
  ghost predicate Valid(t: Toast) {
    0 <= t.charIndex <= |t.message| && 0 <= t.frameCounter
  }

  /**
   * `ToastHUD.update`. The for-of walks the live array by index; removing the
   * expired item at `i` moves the next item into `i`, and the walk goes on at
   * `i + 1`, so that item is not updated in this call.
   */
  function Sweep(items: seq<Toast>, i: nat): seq<Toast>
    decreases |items| + 1 - i
  {
    if i >= |items| then items
    else
      var t := Step(items[i]);
      if Expired(t) then Sweep(items[..i] + items[i + 1..], i + 1)
      else Sweep(items[i := t], i + 1)
  }

  /** The message text is kept, the duration falls by one, and at most one character appears. */
  lemma StepEffect(t: Toast)
    requires Valid(t)
    ensures Valid(Step(t))
    ensures Step(t).message == t.message && Step(t).duration == t.duration - 1
    ensures t.charIndex <= Step(t).charIndex <= t.charIndex + 1
  {
  }

  /**
   * After `n` updates of a new toast, `min(length, n div 2)` characters show;
   * the frame counter is reset at each reveal and keeps counting once all are shown.
   */
  lemma {:induction false} RevealAfter(message: string, duration: int, n: nat)
    ensures var t := Steps(Create(message, duration), n);
      t.message == message && t.duration == duration - n
      && t.charIndex == (if n < 2 * |message| then n / 2 else |message|)
      && t.frameCounter == (if n < 2 * |message| then n % 2 else n - 2 * |message|)
    decreases n
  {
    if n > 0 {
      RevealAfter(message, duration, n - 1);
    }
  }

  /** A toast is removed after exactly `duration` updates, and the shown text is a prefix of the message. */
  lemma ToastLifetime(message: string, duration: int, n: nat)
    ensures Expired(Steps(Create(message, duration), n)) <==> n >= duration
    ensures Displayed(Steps(Create(message, duration), n)) <= message
  {
    RevealAfter(message, duration, n);
  }

  /** The sweep leaves the items before `i` alone and never grows the list. */
  lemma {:induction false} SweepKeepsPrefix(items: seq<Toast>, i: nat)
    requires i <= |items|
    ensures var r := Sweep(items, i); i <= |r| <= |items| && r[..i] == items[..i]
    decreases |items| + 1 - i
  {
    if i < |items| {
      var t := Step(items[i]);
      if Expired(t) {
        var rest := items[..i] + items[i + 1..];
        if i + 1 <= |rest| {
          SweepKeepsPrefix(rest, i + 1);
          assert rest[..i] == items[..i];
        } else {
          assert Sweep(rest, i + 1) == rest;
          assert rest == items[..i];
        }
      } else {
        SweepKeepsPrefix(items[i := t], i + 1);
        assert items[i := t][..i] == items[..i];
      }
    }
  }

  /** When no toast expires, every one is updated once and all are kept, in order. */
  lemma {:induction false} SweepWithoutExpiry(items: seq<Toast>, i: nat)
    requires i <= |items|
    requires forall k :: i <= k < |items| ==> !Expired(Step(items[k]))
    ensures |Sweep(items, i)| == |items|
    ensures forall k :: 0 <= k < i ==> Sweep(items, i)[k] == items[k]
    ensures forall k :: i <= k < |items| ==> Sweep(items, i)[k] == Step(items[k])
    decreases |items| + 1 - i
  {
    if i < |items| {
      var next := items[i := Step(items[i])];
      SweepWithoutExpiry(next, i + 1);
    }
  }

  /** The quirk: when the first toast expires, the second is not updated in the same call. */
  lemma SweepSkipsNext(items: seq<Toast>)
    requires |items| >= 2 && Expired(Step(items[0]))
    ensures |Sweep(items, 0)| >= 1 && Sweep(items, 0)[0] == items[1]
  {
    var rest := items[1..];
    assert items[..0] + items[1..] == rest;
    assert Sweep(items, 0) == Sweep(rest, 1);
    SweepKeepsPrefix(rest, 1);
  }

  /** The toast list of the HUD. */
  class ToastHUD {
    var items: seq<Toast>

    constructor ()
      ensures items == []
    {
      items := [];
    }

    /** `add(message, duration = 60)`: only a missing duration takes the default. */
    method Add(message: string, duration: Option<int>)
      modifies this
      ensures items == old(items) + [Create(message, if duration.Some? then duration.value else DEFAULT_DURATION)]
    {
      var d := if duration.Some? then duration.value else DEFAULT_DURATION;
      items := items + [Toast(message, d, 0, 0)];
    }

    method Clean()
      modifies this
      ensures items == []
    {
      items := [];
    }

    /** The for-of over the live array, splicing out each expired item where it stands. */
    method Update()
      modifies this
      ensures items == Sweep(old(items), 0)
    {
      var i := 0;
      while i < |items|
        invariant Sweep(items, i) == Sweep(old(items), 0)
        decreases |items| + 1 - i
      {
        var item := items[i];
        var duration := item.duration - 1;
        var frameCounter := item.frameCounter + 1;
        var charIndex := item.charIndex;
        if frameCounter >= CHAR_REVEAL_SPEED && charIndex < |item.message| {
          charIndex := charIndex + 1;
          frameCounter := 0;
        }
        item := Toast(item.message, duration, charIndex, frameCounter);
        if item.duration <= 0 {
          items := items[..i] + items[i + 1..];
        } else {
          items := items[i := item];
        }
        i := i + 1;
      }
    }
  }
}
