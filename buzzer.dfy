/**
 The buzzer task `beep`: given a repeat count it drives the buzzer pin high and
 low alternately, twice per repeat, starting high.
 */
module Buzzer {

  /** How many levels `beep(count)` writes: the loop bound `2 * count`, nothing when that is not positive. */
  function WriteCount(count: int): nat
  {
    if count > 0 then 2 * count else 0
  }

  /** The levels written, in order, as a closed form: the i-th write is high exactly when i is even. */
  function Levels(count: int): (s: seq<bool>)
  {
    seq(WriteCount(count), i => i % 2 == 0)
  }

  /** Number of high levels in a series of pin writes. */
  function Highs(s: seq<bool>): (k: nat)
    ensures k <= |s|
  {
    if s == [] then 0 else Highs(s[..|s| - 1]) + (if s[|s| - 1] then 1 else 0)
  }

  /**
   The toggle loop of `beep`: one pin write per iteration, the level flipped
   after each write. Returns the levels written and the final value of the
   loop's `state` variable.
   */
  method Beep(count: int) returns (writes: seq<bool>, state: bool)
    ensures writes == Levels(count)
    ensures |writes| == WriteCount(count)
    ensures forall i :: 0 <= i < |writes| ==> writes[i] == (i % 2 == 0)
    // an even number of toggles: the level variable ends where it started
    ensures state
    // after a non-empty pattern the buzzer is left low
    ensures count >= 1 ==> writes[|writes| - 1] == false
  {
    var cnt := 2 * count;
    state := true;
    writes := [];
    var i := 0;
    while i < cnt
      invariant 0 <= i && (i <= cnt || i == 0)
      invariant |writes| == i
      invariant forall j :: 0 <= j < i ==> writes[j] == (j % 2 == 0)
      invariant state == (i % 2 == 0)
    {
      writes := writes + [state];  // gpio_set_level(BUZZER_PIN, state)
      i, state := i + 1, !state;
    }
  }

  /** Each repeat is one high level followed by one low level. */
  lemma LevelsStep(count: nat)
    ensures Levels(count + 1) == Levels(count) + [true, false]
  {
  }

  /** The buzzer is held high for exactly `count` of the `2 * count` steps. */
  lemma {:induction false} HighForHalf(count: nat)
    ensures Highs(Levels(count)) == count
  {
    if count > 0 {
      HighForHalf(count - 1);
      var s := Levels(count);
      LevelsStep(count - 1);
      assert s[..|s| - 1] == Levels(count - 1) + [true];
      assert (Levels(count - 1) + [true])[..|s| - 2] == Levels(count - 1);
    }
  }
}
