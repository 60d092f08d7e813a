/**
 * The position editor of ViewModels/SecondaryScreens/PositionEditorViewModel.cs:
 * in edit mode the user moves the selected hotspot and resizes it, then either
 * saves the new position into the hotspot or leaves edit mode, which resets
 * the edited values to the hotspot's stored position. The radius setter clamps
 * at 0, so the edited radius is never negative.
 */
module PositionEditor {

  /** A hotspot position: centre and radius (`Coord`). */
  datatype Coord = Coord(x: real, y: real, r: real)

  /** The part of a hotspot view model the position editor reads and writes. */
  class PositionedHotspot {
    var position: Coord

    constructor (position: Coord)
      ensures this.position == position
    {
      this.position := position;
    }
  }

  /** `Math.Max` on two reals. */
  function Max(a: real, b: real): (m: real)
    ensures m >= a && m >= b && (m == a || m == b)
  {
    if a >= b then a else b
  }

  class PositionEditorViewModel {
    var isInEditMode: bool
    var selectedHotspot: PositionedHotspot?
    var x: real
    var y: real
    var r: real

    /** The edited radius is never negative. */
    ghost predicate Valid()
      reads this
    {
      r >= 0.0
    }

    constructor ()
      ensures Valid()
      ensures !isInEditMode && selectedHotspot == null && x == 0.0 && y == 0.0 && r == 0.0
    {
      isInEditMode := false;
      selectedHotspot := null;
      x, y, r := 0.0, 0.0, 0.0;
    }

    /**
     * The `SelectedHotspot` setter: select `value` and load its position into
     * X, Y and R (through the clamping R setter), or zeros for no selection.
     */
    method SetSelectedHotspot(value: PositionedHotspot?)
      modifies this
      ensures Valid()
      ensures selectedHotspot == value && isInEditMode == old(isInEditMode)
      ensures value != null ==> x == value.position.x && y == value.position.y && r == Max(value.position.r, 0.0)
      ensures value == null ==> x == 0.0 && y == 0.0 && r == 0.0
    {
      selectedHotspot := value;
      x := if value != null then value.position.x else 0.0;
      y := if value != null then value.position.y else 0.0;
      r := Max(if value != null then value.position.r else 0.0, 0.0);
    }

    /**
     * The `IsInEditMode` setter: ignored without a selection; otherwise sets
     * the mode and resets X, Y and R to the selected hotspot's position,
     * discarding unsaved edits.
     */
    method SetIsInEditMode(value: bool)
      modifies this
      ensures old(selectedHotspot) == null ==> unchanged(this)
      ensures old(selectedHotspot) != null ==>
                && isInEditMode == value && selectedHotspot == old(selectedHotspot)
                && x == selectedHotspot.position.x && y == selectedHotspot.position.y
                && r == Max(selectedHotspot.position.r, 0.0)
      ensures old(Valid()) ==> Valid()
    {
      if selectedHotspot == null {
        return;
      }
      isInEditMode := value;
      SetSelectedHotspot(selectedHotspot);
    }

    /** `SetPosition`: move the edited centre, only in edit mode with a selection. */
    method SetPosition(newX: real, newY: real)
      requires Valid()
      modifies this
      ensures Valid()
      ensures !old(isInEditMode) || old(selectedHotspot) == null ==> unchanged(this)
      ensures old(isInEditMode) && old(selectedHotspot) != null ==>
                x == newX && y == newY && r == old(r) && isInEditMode && selectedHotspot == old(selectedHotspot)
    {
      if !isInEditMode || selectedHotspot == null {
        return;
      }
      x := newX;
      y := newY;
    }

    /** `ChangeRadius`: grow or shrink the edited radius by `delta`, stopping at 0; only in edit mode with a selection. */
    method ChangeRadius(delta: real)
      requires Valid()
      modifies this
      ensures Valid()
      ensures !old(isInEditMode) || old(selectedHotspot) == null ==> unchanged(this)
      ensures old(isInEditMode) && old(selectedHotspot) != null ==>
                r == Max(old(r) + delta, 0.0) && x == old(x) && y == old(y)
                && isInEditMode && selectedHotspot == old(selectedHotspot)
    {
      if !isInEditMode || selectedHotspot == null {
        return;
      }
      r := Max(r + delta, 0.0);
    }

    /**
     * `UpdateSelectedHotspot`: in edit mode with a selection, store the edited
     * (X, Y, R) as the hotspot's position and leave edit mode; the edited
     * values then equal the stored position.
     */
    method UpdateSelectedHotspot()
      requires Valid()
      modifies this, selectedHotspot
      ensures Valid()
      ensures !old(isInEditMode) || old(selectedHotspot) == null ==> unchanged(this)
      ensures !old(isInEditMode) && old(selectedHotspot) != null ==> unchanged(old(selectedHotspot))
      ensures old(isInEditMode) && old(selectedHotspot) != null ==>
                && selectedHotspot == old(selectedHotspot)
                && selectedHotspot.position == Coord(old(x), old(y), old(r))
                && !isInEditMode
                && x == old(x) && y == old(y) && r == old(r)
    {
      if !isInEditMode || selectedHotspot == null {
        return;
      }
      selectedHotspot.position := Coord(x, y, r);
      SetIsInEditMode(false);
    }
  }
}
