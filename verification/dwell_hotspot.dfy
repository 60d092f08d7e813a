/**
 * The dwell-activated hotspot of Scripts/Hotspot.py: a circle at a projector
 * position whose button counts up while some fingertip is inside and which
 * latches `isActivated` once the button is full. An activated hotspot ignores
 * input until the caller deactivates it.
 */
module DwellHotspot {
  import opened Geometry
  import opened DwellButton

  class Hotspot {
    const id: int
    /** The projector-space position; the script compares points against it directly. */
    const projPos: Point
    const radius: real
    const button: Button
    var isActivated: bool
    var timeActivated: real

    ghost predicate Valid()
      reads this, button
    {
      button.Valid()
    }

    /** A new hotspot: not activated, activation time 0, a fresh button. */
    constructor (id: int, projPos: Point, radius: real, now: real)
      ensures Valid() && fresh(button)
      ensures this.id == id && this.projPos == projPos && this.radius == radius
      ensures !isActivated && timeActivated == 0.0
      ensures !button.fingerIsOver && button.prevPressedAmount == 0.0 && button.prevTime == now
    {
      this.id := id;
      this.projPos := projPos;
      this.radius := radius;
      button := new Button(now);
      isActivated := false;
      timeActivated := 0.0;
    }

    /** `_is_point_inside`: squared distance to the position at most radius squared. */
    predicate IsInside(p: Point)
      ensures p == projPos ==> IsInside(p)
    {
      IsPointInside(projPos, radius, p)
    }

    /** The loop at the start of `update`: whether any fingertip is inside (every point is examined). */
    method FingerInside(points: seq<Point>) returns (inside: bool)
      ensures inside <==> AnyInside(projPos, radius, points)
    {
      inside := false;
      var i := 0;
      while i < |points|
        invariant 0 <= i <= |points|
        invariant inside <==> AnyInside(projPos, radius, points[..i])
      {
        assert points[..i + 1] == points[..i] + [points[i]];
        if IsInside(points[i]) {
          inside := true;
        }
        i := i + 1;
      }
      assert points[..i] == points;
    }

    /**
     * `update`: an activated hotspot ignores the points and reports False.
     * Otherwise the button is pressed if some point is inside and un-pressed if
     * none is; when the press finds the button full the hotspot activates at
     * `now` and True is reported.
     */
    method Update(points: seq<Point>, now: real) returns (activatedNow: bool)
      modifies this, button
      ensures old(Valid()) && old(button.prevTime) <= now ==> Valid() && button.prevTime <= now
      ensures old(isActivated) ==> !activatedNow && unchanged(this, button)
      ensures !old(isActivated) ==>
                && button.fingerIsOver == AnyInside(projPos, radius, points)
                && button.PressedAmount(now) ==
                     (if button.fingerIsOver then Min(1.0, old(button.PressedAmount(now)))
                      else Max(0.0, old(button.PressedAmount(now))))
                && (0.0 <= old(button.PressedAmount(now)) <= 1.0 ==>
                      button.PressedAmount(now) == old(button.PressedAmount(now)))
                && (button.fingerIsOver == old(button.fingerIsOver) ==> unchanged(button))
                && (button.fingerIsOver != old(button.fingerIsOver) ==>
                      button.prevTime == now && button.prevPressedAmount == old(button.PressedAmount(now)))
                && (activatedNow <==> button.fingerIsOver && button.PressedAmount(now) == 1.0)
                && isActivated == activatedNow
                && timeActivated == (if activatedNow then now else old(timeActivated))
      ensures activatedNow ==> AnyInside(projPos, radius, points) && isActivated
    {
      activatedNow := false;
      if !isActivated {
        var fingerInside := FingerInside(points);
        if fingerInside {
          var full := button.Press(now);
          if full {
            Activate(now);
            activatedNow := true;
          }
        } else {
          button.UnPress(now);
        }
      }
    }

    /** `activate`: record the activation time and latch. */
    method Activate(now: real)
      modifies this
      ensures isActivated && timeActivated == now
    {
      timeActivated := now;
      isActivated := true;
    }

    /** `deactivate`: clear the latch; the button and activation time are untouched. */
    method Deactivate()
      modifies this
      ensures !isActivated && timeActivated == old(timeActivated)
    {
      isActivated := false;
    }
  }
}
