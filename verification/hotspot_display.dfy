/**
 * The hotspot circles on the secondary screen
 * (ViewModels/SecondaryScreens/HotspotDisplayViewModel.cs): one projection
 * per configured hotspot, keyed by hotspot id, whose state follows the
 * events of the hotspot handler.
 */
module HotspotDisplay {
  import Wrappers
  import opened Config
  import HotspotHandler

  /** `HotspotState`: how a hotspot's circle is drawn. */
  datatype HotspotState = None | Activating | Active | Deactivating

  /**
   * A hotspot's circle (ViewModels/SecondaryScreens/HotspotProjectionViewModel.cs):
   * the top-left corner of its bounding square, its diameter and its state.
   */
  class HotspotProjectionViewModel {
    const id: int
    const x: real
    const y: real
    const d: real
    var state: HotspotState

    constructor (h: Hotspot)
      ensures id == h.id && x == h.position.x - h.position.r && y == h.position.y - h.position.r
      ensures d == h.position.r * 2.0 && state == None
    {
      id := h.id;
      x := h.position.x - h.position.r;
      y := h.position.y - h.position.r;
      d := h.position.r * 2.0;
      state := None;
    }
  }

  /** The exception building the id-keyed dictionary throws on a repeated key. */
  datatype DisplayError = DuplicateKey(id: int)

  /** No two hotspots share an id. */
  predicate DistinctIds(hotspots: seq<Hotspot>)
  {
    forall i, j :: 0 <= i < j < |hotspots| ==> hotspots[i].id != hotspots[j].id
  }

  /** Different ids hold different projections. */
  ghost predicate Injective(projections: map<int, HotspotProjectionViewModel>)
  {
    forall a, b :: a in projections && b in projections && a != b ==> projections[a] != projections[b]
  }

  /** The state of each hotspot's circle, by id. */
  ghost function States(projections: map<int, HotspotProjectionViewModel>): map<int, HotspotState>
    reads projections.Values
  {
    map id | id in projections :: projections[id].state
  }

  /**
   * `GetHotspots`: a new projection for each hotspot, keyed by its id; a
   * repeated id is refused.
   */
  method GetHotspots(hotspots: seq<Hotspot>) returns (r: Wrappers.Result<map<int, HotspotProjectionViewModel>, DisplayError>)
    ensures r.Err? <==> !DistinctIds(hotspots)
    ensures r.Ok? ==> && Injective(r.value)
                      && (forall id :: id in r.value <==> exists k :: 0 <= k < |hotspots| && hotspots[k].id == id)
                      && (forall k :: 0 <= k < |hotspots| ==>
                            && hotspots[k].id in r.value
                            && fresh(r.value[hotspots[k].id])
                            && r.value[hotspots[k].id].id == hotspots[k].id
                            && r.value[hotspots[k].id].x == hotspots[k].position.x - hotspots[k].position.r
                            && r.value[hotspots[k].id].y == hotspots[k].position.y - hotspots[k].position.r
                            && r.value[hotspots[k].id].d == hotspots[k].position.r * 2.0
                            && r.value[hotspots[k].id].state == None)
  {
    var projections: map<int, HotspotProjectionViewModel> := map[];
    for i := 0 to |hotspots|
      invariant DistinctIds(hotspots[..i])
      invariant Injective(projections)
      invariant forall id :: id in projections <==> exists k :: 0 <= k < i && hotspots[k].id == id
      invariant forall k :: 0 <= k < i ==>
                  && fresh(projections[hotspots[k].id])
                  && projections[hotspots[k].id].id == hotspots[k].id
                  && projections[hotspots[k].id].x == hotspots[k].position.x - hotspots[k].position.r
                  && projections[hotspots[k].id].y == hotspots[k].position.y - hotspots[k].position.r
                  && projections[hotspots[k].id].d == hotspots[k].position.r * 2.0
                  && projections[hotspots[k].id].state == None
    {
      var h := hotspots[i];
      if h.id in projections {
        var k :| 0 <= k < i && hotspots[k].id == h.id;
        return Wrappers.Err(DuplicateKey(h.id));
      }
      var p := new HotspotProjectionViewModel(h);
      projections := projections[h.id := p];
      assert hotspots[..i + 1] == hotspots[..i] + [h];
    }
    assert hotspots[..|hotspots|] == hotspots;
    return Wrappers.Ok(projections);
  }

  /** The state each handler event puts its hotspot's circle in. */
  function StateAfter(e: HotspotHandler.HandlerEvent): (s: HotspotState)
    ensures e.Activating? <==> s == Activating
    ensures e.Activated? <==> s == Active
    ensures e.Deactivating? <==> s == Deactivating
    ensures e.ForcefullyDeactivated? <==> s == None
  {
    match e
    case Activating(_) => Activating
    case Activated(_) => Active
    case Deactivating(_) => Deactivating
    case ForcefullyDeactivated(_) => None
  }

  class HotspotDisplayViewModel {
    const projections: map<int, HotspotProjectionViewModel>
    var isVisible: bool

    /** Each projection is filed under its own id, and no two ids share one. */
    ghost predicate Valid()
    {
      && Injective(projections)
      && forall id :: id in projections ==> projections[id].id == id
    }

    /** The view model over the dictionary `GetHotspots` built; it starts visible. */
    constructor (projections: map<int, HotspotProjectionViewModel>)
      requires Injective(projections) && forall id :: id in projections ==> projections[id].id == id
      ensures Valid() && this.projections == projections && isVisible
    {
      this.projections := projections;
      isVisible := true;
    }

    /** Set the state of hotspot `id`'s circle, if there is one; every other circle keeps its state. */
    method SetState(id: int, s: HotspotState)
      requires Valid()
      modifies projections.Values
      ensures States(projections) == if id in projections then old(States(projections))[id := s]
                                      else old(States(projections))
    {
      if id !in projections {
        return;
      }
      ghost var before := States(projections);
      projections[id].state := s;
      forall k | k in projections
        ensures States(projections)[k] == before[id := s][k]
      {
        if k != id {
          assert projections[k] != projections[id];
        }
      }
    }

    /** `HotspotActivating`. */
    method OnActivating(id: int)
      requires Valid()
      modifies projections.Values
      ensures id in projections ==> States(projections) == old(States(projections))[id := Activating]
      ensures id !in projections ==> States(projections) == old(States(projections))
    {
      SetState(id, Activating);
    }

    /** `HotspotActivated`. */
    method OnActivated(id: int)
      requires Valid()
      modifies projections.Values
      ensures id in projections ==> States(projections) == old(States(projections))[id := Active]
      ensures id !in projections ==> States(projections) == old(States(projections))
    {
      SetState(id, Active);
    }

    /** `HotspotDeactivating`. */
    method OnDeactivating(id: int)
      requires Valid()
      modifies projections.Values
      ensures id in projections ==> States(projections) == old(States(projections))[id := Deactivating]
      ensures id !in projections ==> States(projections) == old(States(projections))
    {
      SetState(id, Deactivating);
    }

    /** `HotspotForcefullyDeactivated`. */
    method OnForcefullyDeactivated(id: int)
      requires Valid()
      modifies projections.Values
      ensures id in projections ==> States(projections) == old(States(projections))[id := None]
      ensures id !in projections ==> States(projections) == old(States(projections))
    {
      SetState(id, None);
    }

    /** The subscriptions of the constructor: each handler event goes to its callback. */
    method Handle(e: HotspotHandler.HandlerEvent)
      requires Valid()
      modifies projections.Values
      ensures States(projections) == if e.id in projections then old(States(projections))[e.id := StateAfter(e)]
                                      else old(States(projections))
    {
      match e
      case Activating(id) => OnActivating(id);
      case Activated(id) => OnActivated(id);
      case Deactivating(id) => OnDeactivating(id);
      case ForcefullyDeactivated(id) => OnForcefullyDeactivated(id);
    }

    /** `DeactivateHotspots`: every circle goes back to no state. */
    method DeactivateHotspots()
      modifies projections.Values
      ensures forall id :: id in projections ==> projections[id].state == None
    {
      var remaining := projections.Keys;
      while remaining != {}
        invariant remaining <= projections.Keys
        invariant forall id :: id in projections && id !in remaining ==> projections[id].state == None
        decreases |remaining|
      {
        if forall k :: k !in remaining {
          assert false;
        }
        var key :| key in remaining;
        projections[key].state := None;
        remaining := remaining - {key};
      }
    }

    /** `DisplayHotspots`: the circles stay visible. */
    method DisplayHotspots()
      modifies this
      ensures isVisible
    {
      isVisible := true;
    }
  }
}
