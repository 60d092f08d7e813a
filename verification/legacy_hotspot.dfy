/**
 * The earlier dwell hotspot `HotSpot` of Scripts/HotSpot.py. Its `_Button` is
 * the same counter as in Scripts/Hotspot.py and is modelled by DwellButton.Button;
 * the hotspot keeps its centre as two coordinates `x`, `y`.
 */
module LegacyHotspot {
  import opened Geometry
  import opened DwellButton

  class HotSpot {
    const id: int
    const x: real
    const y: real
    const radius: real
    const button: Button
    var isActivated: bool
    var timeActivated: real

    ghost predicate Valid()
      reads this, button
    {
      button.Valid()
    }

    /** A new hotspot: not activated, activation time 0, a fresh button. */
    constructor (id: int, x: real, y: real, radius: real, now: real)
      ensures Valid() && fresh(button)
      ensures this.id == id && this.x == x && this.y == y && this.radius == radius
      ensures !isActivated && timeActivated == 0.0
      ensures !button.fingerIsOver && button.prevPressedAmount == 0.0 && button.prevTime == now
    {
      this.id := id;
      this.x := x;
      this.y := y;
      this.radius := radius;
      button := new Button(now);
      isActivated := false;
      timeActivated := 0.0;
    }

    /** `_isPointInside`: squared distance to (x, y) at most radius squared. */
    predicate IsInside(p: Point)
      ensures p == Point(x, y) ==> IsInside(p)
    {
      IsPointInside(Point(x, y), radius, p)
    }

    /** The loop of `update` that looks for a fingertip inside; it examines every point. */
    method FingerInside(points: seq<Point>) returns (inside: bool)
      ensures inside <==> AnyInside(Point(x, y), radius, points)
    {
      inside := false;
      var i := 0;
      while i < |points|
        invariant 0 <= i <= |points|
        invariant inside <==> AnyInside(Point(x, y), radius, points[..i])
      {
        assert points[..i + 1] == points[..i] + [points[i]];
        if IsInside(points[i]) {
          inside := true;
        }
        i := i + 1;
      }
      assert points[..i] == points;
    }

    /**
     * `update`: a no-op returning False while activated; otherwise press or
     * un-press the button and activate (returning True) when a press finds it full.
     */
    method Update(points: seq<Point>, now: real) returns (activatedNow: bool)
      modifies this, button
      ensures old(Valid()) && old(button.prevTime) <= now ==> Valid() && button.prevTime <= now
      ensures old(isActivated) ==> !activatedNow && unchanged(this, button)
      ensures !old(isActivated) ==>
                && button.fingerIsOver == AnyInside(Point(x, y), radius, points)
                && button.PressedAmount(now) ==
                     (if button.fingerIsOver then Min(1.0, old(button.PressedAmount(now)))
                      else Max(0.0, old(button.PressedAmount(now))))
                && (0.0 <= old(button.PressedAmount(now)) <= 1.0 ==>
                      button.PressedAmount(now) == old(button.PressedAmount(now)))
                && (button.fingerIsOver == old(button.fingerIsOver) ==> unchanged(button))
                && (button.fingerIsOver != old(button.fingerIsOver) ==>
                      button.prevTime == now && button.prevPressedAmount == old(button.PressedAmount(now)))
                && (activatedNow <==> button.fingerIsOver && button.PressedAmount(now) == 1.0)
                && isActivated == activatedNow
                && timeActivated == (if activatedNow then now else old(timeActivated))
      ensures activatedNow ==> AnyInside(Point(x, y), radius, points) && isActivated
    {
      activatedNow := false;
      if !isActivated {
        var fingerInside := FingerInside(points);
        if fingerInside {
          var full := button.Press(now);
          if full {
            timeActivated := now;
            isActivated := true;
            activatedNow := true;
          }
        } else {
          button.UnPress(now);
        }
      }
    }

    /** `deactivate`: clear the latch. */
    method Deactivate()
      modifies this
      ensures !isActivated && timeActivated == old(timeActivated)
    {
      isActivated := false;
    }
  }
}
