/**
 * The dwell counter `_Button` of Scripts/Hotspot.py (and its camelCase twin in
 * Scripts/HotSpot.py): a progress value in [0, 1] that rises while a finger is
 * over the hotspot and falls otherwise, at the rate of one unit per `Cooldown`
 * seconds. The wall clock is the explicit parameter `now`.
 */
module DwellButton {

  /** Seconds a finger must stay over the hotspot to go from 0 to 1, and to cool down again. */
  const Cooldown: real := 1.5

  function Min(a: real, b: real): real { if a <= b then a else b }
  function Max(a: real, b: real): real { if a >= b then a else b }

  /**
   * The pressed amount `elapsed` seconds after the last direction switch, given
   * the direction and the amount at that switch. While the snapshot is in [0, 1]
   * and time does not run backwards, the amount stays in [0, 1];
   * `ClockStepBackLeavesRange` shows that it need not otherwise.
   */
  function Progress(fingerIsOver: bool, snapshot: real, elapsed: real): (r: real)
    ensures 0.0 <= snapshot <= 1.0 && elapsed >= 0.0 ==> 0.0 <= r <= 1.0
    ensures fingerIsOver && elapsed >= 0.0 ==> r >= Min(1.0, snapshot)
    ensures !fingerIsOver && elapsed >= 0.0 ==> r <= Max(0.0, snapshot)
  {
    if fingerIsOver then Min(1.0, snapshot + elapsed / Cooldown)
    else Max(0.0, snapshot - elapsed / Cooldown)
  }

  /** No jump at a switch: right at the switch instant the amount is the snapshot. */
  lemma ProgressAtSwitch(fingerIsOver: bool, snapshot: real)
    requires 0.0 <= snapshot <= 1.0
    ensures Progress(fingerIsOver, snapshot, 0.0) == snapshot
  {
  }

  /**
   * The wall clock may step back. Counting up from 0.5 when the clock reads 3 s
   * before the switch gives -1.5; counting down from 0.5 gives 2.5: outside [0, 1].
   */
  lemma ClockStepBackLeavesRange()
    ensures Progress(true, 0.5, -3.0) == -1.5
    ensures Progress(false, 0.5, -3.0) == 2.5
  {
  }

  /** Counting up from `snapshot`, the amount is full exactly when the remaining distance has been covered. */
  lemma FullExactlyAfterRemainder(snapshot: real, elapsed: real)
    requires 0.0 <= snapshot <= 1.0 && elapsed >= 0.0
    ensures Progress(true, snapshot, elapsed) == 1.0 <==> elapsed >= (1.0 - snapshot) * Cooldown
  {
    var rise := elapsed / Cooldown;
    assert elapsed >= (1.0 - snapshot) * Cooldown <==> rise >= 1.0 - snapshot;
  }

  /** Holding a press for `Cooldown` seconds from 0 reaches 1; holding it half as long reaches 0.5. */
  lemma HoldFromZero()
    ensures Progress(true, 0.0, Cooldown) == 1.0
    ensures Progress(true, 0.0, Cooldown / 2.0) == 0.5
  {
  }

  /** Within one direction the amount is monotonic: non-decreasing counting up, non-increasing counting down. */
  lemma ProgressMonotonic(snapshot: real, e1: real, e2: real)
    requires e1 <= e2
    ensures Progress(true, snapshot, e1) <= Progress(true, snapshot, e2)
    ensures Progress(false, snapshot, e1) >= Progress(false, snapshot, e2)
  {
  }

  /** The dwell counter. `prevPressedAmount` is the amount at the last switch, taken at time `prevTime`. */
  class Button {
    var fingerIsOver: bool
    var prevTime: real
    var prevPressedAmount: real

    /** The snapshot is itself an amount, so it lies in [0, 1]. */
    ghost predicate Valid()
      reads this
    {
      0.0 <= prevPressedAmount <= 1.0
    }

    /** A fresh button: no finger over it, amount 0, switch time `now`. */
    constructor (now: real)
      ensures Valid()
      ensures !fingerIsOver && prevTime == now && prevPressedAmount == 0.0
    {
      fingerIsOver := false;
      prevTime := now;
      prevPressedAmount := 0.0;
    }

    /**
     * `get_pressed_amount`: between 0 (fully unpressed) and 1 (fully pressed) at
     * any time after the last switch. Before it (the clock stepped back) only the
     * clamped side holds: at most 1 counting up, at least 0 counting down.
     */
    function PressedAmount(now: real): (r: real)
      reads this
      ensures Valid() && prevTime <= now ==> 0.0 <= r <= 1.0
      ensures fingerIsOver ==> r <= 1.0
      ensures !fingerIsOver ==> r >= 0.0
    {
      Progress(fingerIsOver, prevPressedAmount, now - prevTime)
    }

    /**
     * `press`: called every frame a finger is over the hotspot. Switching to
     * counting up snapshots the current amount; pressing again changes nothing.
     * Returns whether the amount is full. The amount at `now` is kept, clamped to
     * at most 1; it is kept exactly whenever it was in [0, 1], as it is while the
     * clock has not stepped back since the last switch.
     */
    method Press(now: real) returns (full: bool)
      modifies this
      ensures fingerIsOver
      ensures old(Valid()) && old(prevTime) <= now ==> Valid() && prevTime <= now
      ensures old(fingerIsOver) ==> unchanged(this)
      ensures !old(fingerIsOver) ==> prevPressedAmount == old(PressedAmount(now)) && prevTime == now
      ensures PressedAmount(now) == Min(1.0, old(PressedAmount(now)))
      ensures 0.0 <= old(PressedAmount(now)) <= 1.0 ==> PressedAmount(now) == old(PressedAmount(now))
      ensures full <==> PressedAmount(now) == 1.0
    {
      if !fingerIsOver {
        prevPressedAmount := PressedAmount(now);
        prevTime := now;
        fingerIsOver := true;
      }
      full := PressedAmount(now) == 1.0;
    }

    /**
     * `un_press`: called every frame no finger is over the hotspot. Switching to
     * counting down snapshots the current amount; un-pressing again changes nothing.
     * The amount at `now` is kept, clamped to at least 0; it is kept exactly
     * whenever it was in [0, 1].
     */
    method UnPress(now: real)
      modifies this
      ensures !fingerIsOver
      ensures old(Valid()) && old(prevTime) <= now ==> Valid() && prevTime <= now
      ensures !old(fingerIsOver) ==> unchanged(this)
      ensures old(fingerIsOver) ==> prevPressedAmount == old(PressedAmount(now)) && prevTime == now
      ensures PressedAmount(now) == Max(0.0, old(PressedAmount(now)))
      ensures 0.0 <= old(PressedAmount(now)) <= 1.0 ==> PressedAmount(now) == old(PressedAmount(now))
    {
      if fingerIsOver {
        prevPressedAmount := PressedAmount(now);
        prevTime := now;
        fingerIsOver := false;
      }
    }
  }
}
