/**
 * The frame-rate panel of the HUD (src/game2/hud/infos.hud.ts): a buffer of
 * the last 60 rounded frame rates and their average.
 */
module Infos {
  import Reals

  const HISTORY_LENGTH: int := 60

  /** `Number(x.toFixed(0))`: the nearest integer, halves away from zero. */
  function Rounded(x: real): (n: int)
    ensures x - 0.5 <= n as real <= x + 0.5
  {
    if x >= 0.0 then (x + 0.5).Floor else -((-x + 0.5).Floor)
  }

  /** `update`: push the sample, then drop the oldest one if the buffer is over 60. */
  function Pushed(history: seq<int>, sample: int): seq<int> {
    var h := history + [sample];
    if |h| > HISTORY_LENGTH then h[1..] else h
  }

  /** The buffer after the given samples, oldest first, starting empty. */
  function History(samples: seq<int>): seq<int>
    decreases |samples|
  {
    if |samples| == 0 then [] else Pushed(History(samples[..|samples| - 1]), samples[|samples| - 1])
  }

  function Sum(h: seq<int>): int
    decreases |h|
  {
    if |h| == 0 then 0 else Sum(h[..|h| - 1]) + h[|h| - 1]
  }

  /** The average `draw` shows: `sum / length`, or 0 for an empty buffer. */
  function Average(h: seq<int>): real {
    if |h| > 0 then Sum(h) as real / |h| as real else 0.0
  }

  /** A buffer of at most 60 stays so; the newest sample is always last. */
  lemma PushedEffect(history: seq<int>, sample: int)
    requires |history| <= HISTORY_LENGTH
    ensures var r := Pushed(history, sample);
      1 <= |r| <= HISTORY_LENGTH && r[|r| - 1] == sample
      && r == (history + [sample])[|history| + 1 - |r|..]
  {
  }

  /** The buffer holds exactly the latest `min(n, 60)` samples, in arrival order. */
  lemma {:induction false} HistoryIsWindow(samples: seq<int>)
    ensures var keep := if |samples| < HISTORY_LENGTH then |samples| else HISTORY_LENGTH;
      History(samples) == samples[|samples| - keep..]
    decreases |samples|
  {
    if |samples| > 0 {
      var init := samples[..|samples| - 1];
      HistoryIsWindow(init);
      assert samples == init + [samples[|samples| - 1]];
    }
  }

  lemma {:induction false} SumBounds(h: seq<int>, lo: int, hi: int)
    requires forall i :: 0 <= i < |h| ==> lo <= h[i] <= hi
    ensures |h| * lo <= Sum(h) <= |h| * hi
    decreases |h|
  {
    if |h| > 0 {
      SumBounds(h[..|h| - 1], lo, hi);
      assert (|h| - 1) * lo + lo == |h| * lo;
      assert (|h| - 1) * hi + hi == |h| * hi;
    }
  }

  /** The shown average lies between the smallest and the largest sample in the buffer. */
  lemma AverageBounds(h: seq<int>, lo: int, hi: int)
    requires |h| > 0 && forall i :: 0 <= i < |h| ==> lo <= h[i] <= hi
    ensures lo as real <= Average(h) <= hi as real
  {
    SumBounds(h, lo, hi);
    var n := |h| as real;
    var s := Sum(h) as real;
    Reals.QuotientTimesDivisor(s, n);
    assert (lo as real) * n <= s && s <= (hi as real) * n;
    Reals.DivideOut(lo as real, s / n, n, s);
    Reals.DivideOut(s / n, hi as real, n, (hi as real) * n);
  }

  /** The panel's state. */
  class InfosHUD {
    var fpsHistory: seq<int>

    constructor ()
      ensures fpsHistory == []
    {
      fpsHistory := [];
    }

    /** `update`, given the current frame rate. */
    method Update(frameRate: real)
      modifies this
      ensures fpsHistory == Pushed(old(fpsHistory), Rounded(frameRate))
    {
      fpsHistory := fpsHistory + [Rounded(frameRate)];
      if |fpsHistory| > HISTORY_LENGTH {
        fpsHistory := fpsHistory[1..];
      }
    }
  }
}
