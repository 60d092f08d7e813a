/**
 * The edge-detecting hotspot of Scripts/Helper/Hotspot.py: it remembers whether
 * a fingertip was inside at the previous update and reports "pressed" when one
 * enters and "unpressed" when the last one leaves. The event handler is
 * replaced by the value `Update` returns.
 */
module EdgeHotspot {
  import opened Wrappers
  import opened Geometry

  /** The notifications sent to the event handler, keyed by hotspot id. */
  datatype Event = Pressed(id: int) | Unpressed(id: int)

  /** The event emitted when the inside flag goes from `prev` to `now`, if any. */
  function Edge(id: int, prev: bool, now: bool): (e: Option<Event>)
    ensures e == Some(Pressed(id)) <==> !prev && now
    ensures e == Some(Unpressed(id)) <==> prev && !now
    ensures e == None <==> prev == now
  {
    if prev && !now then Some(Unpressed(id))
    else if !prev && now then Some(Pressed(id))
    else None
  }

  /**
   * The events emitted by successive updates whose inside flags are `flags`,
   * starting from `prev`: at most one per update, and none while the flag
   * never changes.
   */
  function Events(id: int, prev: bool, flags: seq<bool>): (es: seq<Event>)
    ensures |es| <= |flags|
    ensures (forall k :: 0 <= k < |flags| ==> flags[k] == prev) ==> es == []
    decreases flags
  {
    if flags == [] then []
    else
      (match Edge(id, prev, flags[0]) case Some(e) => [e] case None => [])
      + Events(id, flags[0], flags[1..])
  }

  /** Pressed and unpressed alternate; starting from "no fingertip inside", the first event is a press. */
  ghost predicate Alternates(events: seq<Event>, nextIsPress: bool)
  {
    forall k :: 0 <= k < |events| ==> (events[k].Pressed? <==> (nextIsPress <==> k % 2 == 0))
  }

  /** Every event stream the hotspot produces alternates, beginning with the kind that undoes `prev`. */
  lemma {:induction false} EventsAlternate(id: int, prev: bool, flags: seq<bool>)
    ensures Alternates(Events(id, prev, flags), !prev)
    ensures forall k :: 0 <= k < |Events(id, prev, flags)| ==> Events(id, prev, flags)[k].id == id
    decreases flags
  {
    if flags != [] {
      EventsAlternate(id, flags[0], flags[1..]);
      var rest := Events(id, flags[0], flags[1..]);
      if prev == flags[0] {
        assert Events(id, prev, flags) == rest;
      } else {
        var e := if prev then Unpressed(id) else Pressed(id);
        assert Events(id, prev, flags) == [e] + rest;
        forall k | 0 <= k < |[e] + rest|
          ensures ([e] + rest)[k].Pressed? <==> (!prev <==> k % 2 == 0)
        {
          if k > 0 {
            assert ([e] + rest)[k] == rest[k - 1];
          }
        }
      }
    }
  }

  class Hotspot {
    const id: int
    /** The hotspot position in normalised camera coordinates (computed by the caller's calibrator). */
    const normPos: Point
    const radius: real
    var prevFingertipInside: bool

    /** Initially no fingertip is considered inside. */
    constructor (id: int, normPos: Point, radius: real)
      ensures this.id == id && this.normPos == normPos && this.radius == radius
      ensures !prevFingertipInside
    {
      this.id := id;
      this.normPos := normPos;
      this.radius := radius;
      prevFingertipInside := false;
    }

    /** The loop of `update`: stops at the first fingertip inside. */
    method FingertipInside(fingertips: seq<Point>) returns (inside: bool)
      ensures inside <==> AnyInside(normPos, radius, fingertips)
    {
      inside := false;
      var i := 0;
      while i < |fingertips|
        invariant 0 <= i <= |fingertips|
        invariant !AnyInside(normPos, radius, fingertips[..i])
      {
        assert fingertips[..i + 1] == fingertips[..i] + [fingertips[i]];
        if IsPointInside(normPos, radius, fingertips[i]) {
          inside := true;
          break;
        }
        i := i + 1;
      }
      assert !inside ==> fingertips[..i] == fingertips;
    }

    /**
     * `update`: at most one event, pressed exactly on an outside-to-inside
     * change and unpressed exactly on an inside-to-outside change; afterwards
     * the remembered flag is the current one.
     */
    method Update(fingertips: seq<Point>) returns (event: Option<Event>)
      modifies this
      ensures prevFingertipInside == AnyInside(normPos, radius, fingertips)
      ensures event == Edge(id, old(prevFingertipInside), prevFingertipInside)
    {
      var fingertipInside := FingertipInside(fingertips);
      event := None;
      if prevFingertipInside && !fingertipInside {
        event := Some(Unpressed(id));
      }
      if !prevFingertipInside && fingertipInside {
        event := Some(Pressed(id));
      }
      prevFingertipInside := fingertipInside;
    }
  }
}
