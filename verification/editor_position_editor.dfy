/**
 * The earlier position editor of ViewModels/Editor/PositionEditorViewModel.cs.
 * It behaves like the one in PositionEditor except that selecting a hotspot
 * (and so every reset on entering or leaving edit mode) copies the stored
 * radius without the clamp; only `ChangeRadius` goes through the clamping
 * radius setter.
 */
module EditorPositionEditor {
  import opened PositionEditor

  class PositionEditorViewModel {
    var isInEditMode: bool
    var selectedHotspot: PositionedHotspot?
    var x: real
    var y: real
    var r: real

    constructor ()
      ensures !isInEditMode && selectedHotspot == null && x == 0.0 && y == 0.0 && r == 0.0
    {
      isInEditMode := false;
      selectedHotspot := null;
      x, y, r := 0.0, 0.0, 0.0;
    }

    /** The `SelectedHotspot` setter: select `value` and copy its position as is, or zeros for no selection. */
    method SetSelectedHotspot(value: PositionedHotspot?)
      modifies this
      ensures selectedHotspot == value && isInEditMode == old(isInEditMode)
      ensures value != null ==> x == value.position.x && y == value.position.y && r == value.position.r
      ensures value == null ==> x == 0.0 && y == 0.0 && r == 0.0
    {
      selectedHotspot := value;
      x := if value != null then value.position.x else 0.0;
      y := if value != null then value.position.y else 0.0;
      r := if value != null then value.position.r else 0.0;
    }

    /**
     * The `IsInEditMode` setter: ignored without a selection; otherwise sets
     * the mode and resets X, Y and R to the selected hotspot's position.
     */
    method SetIsInEditMode(value: bool)
      modifies this
      ensures old(selectedHotspot) == null ==> unchanged(this)
      ensures old(selectedHotspot) != null ==>
                && isInEditMode == value && selectedHotspot == old(selectedHotspot)
                && x == selectedHotspot.position.x && y == selectedHotspot.position.y
                && r == selectedHotspot.position.r
    {
      if selectedHotspot == null {
        return;
      }
      isInEditMode := value;
      SetSelectedHotspot(selectedHotspot);
    }

    /** `SetPosition`: move the edited centre, only in edit mode with a selection. */
    method SetPosition(newX: real, newY: real)
      modifies this
      ensures !old(isInEditMode) || old(selectedHotspot) == null ==> unchanged(this)
      ensures old(isInEditMode) && old(selectedHotspot) != null ==>
                x == newX && y == newY && r == old(r) && isInEditMode && selectedHotspot == old(selectedHotspot)
    {
      if !isInEditMode || selectedHotspot == null {
        return;
      }
      x := newX;
      y := newY;
    }

    /** `ChangeRadius`: through the clamping setter, so the radius is never negative afterwards. */
    method ChangeRadius(delta: real)
      modifies this
      ensures !old(isInEditMode) || old(selectedHotspot) == null ==> unchanged(this)
      ensures old(isInEditMode) && old(selectedHotspot) != null ==>
                r == Max(old(r) + delta, 0.0) && r >= 0.0 && x == old(x) && y == old(y)
                && isInEditMode && selectedHotspot == old(selectedHotspot)
    {
      if !isInEditMode || selectedHotspot == null {
        return;
      }
      r := Max(r + delta, 0.0);
    }

    /**
     * `UpdateSelectedHotspot`: in edit mode with a selection, store the edited
     * (X, Y, R) as the hotspot's position and leave edit mode.
     */
    method UpdateSelectedHotspot()
      modifies this, selectedHotspot
      ensures !old(isInEditMode) || old(selectedHotspot) == null ==> unchanged(this)
      ensures !old(isInEditMode) && old(selectedHotspot) != null ==> unchanged(old(selectedHotspot))
      ensures old(isInEditMode) && old(selectedHotspot) != null ==>
                && selectedHotspot == old(selectedHotspot)
                && selectedHotspot.position == Coord(old(x), old(y), old(r))
                && !isInEditMode
                && x == old(x) && y == old(y) && r == old(r)
    {
      if !isInEditMode || selectedHotspot == null {
        return;
      }
      selectedHotspot.position := Coord(x, y, r);
      SetIsInEditMode(false);
    }
  }
}
