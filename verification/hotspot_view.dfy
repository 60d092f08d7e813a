/**
 * The hotspot projections of ViewModels/Display/HotspotViewModel.cs: one
 * circle per configured hotspot, of which only the activated hotspot's
 * circles are lit.
 */
module HotspotView {
  import opened Config

  /** `HotspotProjection`: a circle drawn for a hotspot, and whether it is lit. */
  class HotspotProjection {
    const id: int
    const x: real
    const y: real
    const d: real
    var isActive: bool

    /** The circle of a configured hotspot: its centre, twice its radius as diameter, not lit. */
    constructor (h: Hotspot)
      ensures id == h.id && x == h.position.x && y == h.position.y && d == h.position.r * 2.0
      ensures !isActive
    {
      id := h.id;
      x := h.position.x;
      y := h.position.y;
      d := h.position.r * 2.0;
      isActive := false;
    }
  }

  /** No projection appears twice in the list. */
  predicate Distinct(ps: seq<HotspotProjection>)
  {
    forall i, j :: 0 <= i < j < |ps| ==> ps[i] != ps[j]
  }

  class HotspotViewModel {
    const projections: seq<HotspotProjection>
    var isVisible: bool

    /** `GetHotspots` of the configuration: one new, unlit projection per hotspot, in order. */
    constructor (hotspots: seq<Hotspot>)
      ensures Distinct(projections) && !isVisible
      ensures |projections| == |hotspots|
      ensures forall k :: 0 <= k < |hotspots| ==>
                && fresh(projections[k]) && !projections[k].isActive
                && projections[k].id == hotspots[k].id
                && projections[k].x == hotspots[k].position.x && projections[k].y == hotspots[k].position.y
                && projections[k].d == hotspots[k].position.r * 2.0
    {
      var ps: seq<HotspotProjection> := [];
      for i := 0 to |hotspots|
        invariant |ps| == i && Distinct(ps)
        invariant forall k :: 0 <= k < i ==>
                    && fresh(ps[k]) && !ps[k].isActive
                    && ps[k].id == hotspots[k].id
                    && ps[k].x == hotspots[k].position.x && ps[k].y == hotspots[k].position.y
                    && ps[k].d == hotspots[k].position.r * 2.0
      {
        var p := new HotspotProjection(hotspots[i]);
        ps := ps + [p];
      }
      projections := ps;
      isVisible := false;
    }

    /**
     * `ActivateHotspot`: afterwards exactly the projections of hotspot `id`
     * are lit; with an unknown id none is.
     */
    method ActivateHotspot(id: int)
      modifies projections
      ensures forall k :: 0 <= k < |projections| ==> projections[k].isActive == (projections[k].id == id)
      ensures (forall k :: 0 <= k < |projections| ==> projections[k].id != id) ==>
                forall k :: 0 <= k < |projections| ==> !projections[k].isActive
    {
      for i := 0 to |projections|
        invariant forall k :: 0 <= k < i ==> projections[k].isActive == (projections[k].id == id)
      {
        if projections[i].id == id {
          projections[i].isActive := true;
        } else if projections[i].isActive {
          projections[i].isActive := false;
        }
      }
    }

    /** `DeactivateHotspots`: afterwards no projection is lit. */
    method DeactivateHotspots()
      modifies projections
      ensures forall k :: 0 <= k < |projections| ==> !projections[k].isActive
    {
      for i := 0 to |projections|
        invariant forall k :: 0 <= k < i ==> !projections[k].isActive
      {
        if projections[i].isActive {
          projections[i].isActive := false;
        }
      }
    }

    /** `DisplayHotspots`. */
    method DisplayHotspots()
      modifies this
      ensures isVisible
    {
      isVisible := true;
    }
  }
}
