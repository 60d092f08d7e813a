/**
 * The hotspot list of ViewModels/Editor/EditorViewModel.cs: adding a hotspot
 * under the smallest unused id, deleting one, and the selection that drives
 * the media editors. Hotspot view models are objects compared by reference,
 * as the collection's `Remove` compares them.
 */
module Editor {

  /** A media thumbnail at a cell of the media editor's grid. */
  datatype Thumbnail = Thumbnail(path: string, row: int, column: int)

  /** A hotspot as stored in the configuration (its description is a file). */
  datatype HotspotData = HotspotData(id: int, title: string, descriptionPath: string,
                                     imagePaths: seq<string>, videoPaths: seq<string>)

  /**
   * The thumbnails of a media list: item `i` goes to row `i / columnCount`
   * and column `i % columnCount`, so the grid is filled row by row.
   */
  function Thumbnails(paths: seq<string>, columnCount: int): (ts: seq<Thumbnail>)
    requires columnCount > 0
    ensures |ts| == |paths|
    ensures forall i :: 0 <= i < |ts| ==>
              && ts[i].path == paths[i]
              && 0 <= ts[i].column < columnCount && ts[i].row >= 0
              && ts[i].row * columnCount + ts[i].column == i
  {
    seq(|paths|, i requires 0 <= i < |paths| => Thumbnail(paths[i], i / columnCount, i % columnCount))
  }

  /** Two items never share a grid cell. */
  lemma ThumbnailCellsDistinct(paths: seq<string>, columnCount: int, i: int, j: int)
    requires columnCount > 0 && 0 <= i < j < |paths|
    ensures var ts := Thumbnails(paths, columnCount);
            (ts[i].row, ts[i].column) != (ts[j].row, ts[j].column)
  {
  }

  /** `EditorHotspotViewModel`: a hotspot being edited. */
  class EditorHotspot {
    const id: int
    var title: string
    var description: string
    const images: seq<Thumbnail>
    const videos: seq<Thumbnail>

    /** A new empty hotspot with the given id. */
    constructor (id: int)
      ensures this.id == id && title == "" && description == "" && images == [] && videos == []
    {
      this.id := id;
      title := "";
      description := "";
      images := [];
      videos := [];
    }

    /**
     * A hotspot loaded from the configuration; `descriptionText` is the
     * content of the description file.
     */
    constructor FromData(data: HotspotData, descriptionText: string, columnCount: int)
      requires columnCount > 0
      ensures id == data.id && title == data.title && description == descriptionText
      ensures images == Thumbnails(data.imagePaths, columnCount)
      ensures videos == Thumbnails(data.videoPaths, columnCount)
    {
      id := data.id;
      title := data.title;
      description := descriptionText;
      images := Thumbnails(data.imagePaths, columnCount);
      videos := Thumbnails(data.videoPaths, columnCount);
    }
  }

  /** The ids of a list of hotspots, in order. */
  function Ids(hs: seq<EditorHotspot>): (ids: seq<int>)
    ensures |ids| == |hs| && forall i :: 0 <= i < |hs| ==> ids[i] == hs[i].id
  {
    seq(|hs|, i requires 0 <= i < |hs| => hs[i].id)
  }

  predicate Sorted(s: seq<int>)
  {
    forall i, j :: 0 <= i < j < |s| ==> s[i] <= s[j]
  }

  /** Insert `x` into a sorted list, after the elements not above it. */
  function Insert(x: int, s: seq<int>): (r: seq<int>)
    requires Sorted(s)
    ensures Sorted(r) && multiset(r) == multiset(s) + multiset{x}
  {
    if s == [] then [x]
    else if x <= s[0] then [x] + s
    else
      var rest := Insert(x, s[1..]);
      assert s == [s[0]] + s[1..];
      HeadBelowRest(s, x, rest);
      [s[0]] + rest
  }

  /** Every element of `s[1..]` with `x` added is at least the head of a sorted `s` below `x`. */
  lemma HeadBelowRest(s: seq<int>, x: int, rest: seq<int>)
    requires Sorted(s) && s != [] && s[0] < x
    requires multiset(rest) == multiset(s[1..]) + multiset{x}
    ensures forall k :: 0 <= k < |rest| ==> s[0] <= rest[k]
  {
    forall k | 0 <= k < |rest|
      ensures s[0] <= rest[k]
    {
      assert rest[k] in multiset(rest);
      if rest[k] != x {
        assert rest[k] in s[1..];
        var j :| 0 <= j < |s[1..]| && s[1..][j] == rest[k];
        assert s[j + 1] == rest[k];
      }
    }
  }

  /** `OrderBy(id => id)`: the ids in ascending order. */
  function SortAscending(s: seq<int>): (r: seq<int>)
    ensures Sorted(r) && multiset(r) == multiset(s)
  {
    if s == [] then []
    else
      assert s == [s[0]] + s[1..];
      Insert(s[0], SortAscending(s[1..]))
  }

  /**
   * The loop of `AddHotspot`: walk the ids in ascending order and move past
   * each one that equals the candidate. The result is the smallest
   * non-negative id not in use.
   */
  method SmallestFreeId(ids: seq<int>) returns (newId: int)
    ensures newId >= 0 && newId !in ids
    ensures forall k :: 0 <= k < newId ==> k in ids
  {
    var sorted := SortAscending(ids);
    assert forall x :: x in ids <==> x in sorted by {
      forall x ensures x in ids <==> x in sorted {
        assert x in ids <==> x in multiset(ids);
        assert x in sorted <==> x in multiset(sorted);
      }
    }
    newId := 0;
    var i := 0;
    while i < |sorted|
      invariant 0 <= i <= |sorted| && newId >= 0
      invariant newId !in sorted[..i]
      invariant forall k :: 0 <= k < newId ==> k in sorted[..i]
    {
      FreeIdStep(sorted, i, newId, sorted[..i + 1]);
      if newId == sorted[i] {
        newId := newId + 1;
      }
      i := i + 1;
    }
    assert sorted[..i] == sorted;
  }

  /** One step of the loop of `SmallestFreeId`: passing `sorted[i]` keeps the candidate free and every smaller id used. */
  lemma FreeIdStep(sorted: seq<int>, i: int, newId: int, seen: seq<int>)
    requires Sorted(sorted) && 0 <= i < |sorted| && seen == sorted[..i + 1]
    requires newId !in sorted[..i] && forall k :: 0 <= k < newId ==> k in sorted[..i]
    ensures newId == sorted[i] ==> newId + 1 !in seen && forall k :: 0 <= k <= newId ==> k in seen
    ensures newId != sorted[i] ==> newId !in seen && forall k :: 0 <= k < newId ==> k in seen
  {
    assert seen == sorted[..i] + [sorted[i]];
    if newId == sorted[i] {
      forall k | 0 <= k < i ensures sorted[..i][k] <= newId {
        assert sorted[..i][k] == sorted[k];
      }
    }
  }

  /** `r` is `s` without its first occurrence of `x`, the others kept in order. */
  predicate RemovedFirstAt(s: seq<EditorHotspot>, x: EditorHotspot, r: seq<EditorHotspot>, k: int)
  {
    0 <= k < |s| && s[k] == x && x !in s[..k] && r == s[..k] + s[k + 1..]
  }

  /** `Collection.Remove`: drop the first occurrence of `x`, if any, keeping the order of the rest. */
  function RemoveFirst(s: seq<EditorHotspot>, x: EditorHotspot): (r: seq<EditorHotspot>)
    ensures x in s ==> exists k :: RemovedFirstAt(s, x, r, k)
    ensures x in s ==> multiset(r) == multiset(s) - multiset{x} && |r| == |s| - 1
    ensures x !in s ==> r == s
  {
    if s == [] then []
    else
      assert s == [s[0]] + s[1..];
      if s[0] == x then
        assert RemovedFirstAt(s, x, s[1..], 0);
        s[1..]
      else
        var rest := RemoveFirst(s[1..], x);
        RemovalAfterHead(s, x, rest);
        [s[0]] + rest
  }

  /** Removing the first `x` from the tail of `s`, whose head is not `x`, removes the first `x` of `s`. */
  lemma RemovalAfterHead(s: seq<EditorHotspot>, x: EditorHotspot, rest: seq<EditorHotspot>)
    requires s != [] && s[0] != x
    requires x in s[1..] ==> exists k :: RemovedFirstAt(s[1..], x, rest, k)
    ensures x in s ==> exists k :: RemovedFirstAt(s, x, [s[0]] + rest, k)
  {
    if x in s {
      assert s == [s[0]] + s[1..];
      assert x in s[1..];
      var k :| RemovedFirstAt(s[1..], x, rest, k);
      assert s[..k + 1] == [s[0]] + s[1..][..k];
      assert s[k + 2..] == s[1..][k + 1..];
      assert RemovedFirstAt(s, x, [s[0]] + rest, k + 1);
    }
  }

  /** The first element or none (`FirstOrDefault`). */
  function FirstOrNull(s: seq<EditorHotspot>): (r: EditorHotspot?)
    ensures r == null <==> s == []
    ensures s != [] ==> r == s[0]
  {
    if s == [] then null else s[0]
  }

  class EditorViewModel {
    var hotspots: seq<EditorHotspot>
    /** `Hotspots.IsItemUpdating`: set while a change inside an item is being propagated. */
    var isItemUpdating: bool
    var selectedHotspot: EditorHotspot?
    /** The hotspot shown in the description editor. */
    var describedHotspot: EditorHotspot?
    var imageMedia: seq<Thumbnail>
    var videoMedia: seq<Thumbnail>

    /** The description editor and both media editors follow the selection. */
    ghost predicate Valid()
      reads this, selectedHotspot
    {
      && describedHotspot == selectedHotspot
      && imageMedia == (if selectedHotspot != null then selectedHotspot.images else [])
      && videoMedia == (if selectedHotspot != null then selectedHotspot.videos else [])
    }

    /** An editor with no hotspots and nothing selected. */
    constructor ()
      ensures Valid()
      ensures hotspots == [] && selectedHotspot == null && !isItemUpdating
    {
      hotspots := [];
      isItemUpdating := false;
      selectedHotspot := null;
      describedHotspot := null;
      imageMedia := [];
      videoMedia := [];
    }

    /**
     * An editor loaded from a configuration: one hotspot view model per
     * configured hotspot, in order, and the first of them selected.
     * `descriptions[i]` is the content of hotspot `i`'s description file.
     */
    constructor FromConfig(config: seq<HotspotData>, descriptions: seq<string>, columnCount: int)
      requires |descriptions| == |config| && columnCount > 0
      ensures Valid()
      ensures |hotspots| == |config| && !isItemUpdating
      ensures forall i :: 0 <= i < |config| ==>
                && hotspots[i].id == config[i].id && hotspots[i].title == config[i].title
                && hotspots[i].description == descriptions[i]
                && hotspots[i].images == Thumbnails(config[i].imagePaths, columnCount)
                && hotspots[i].videos == Thumbnails(config[i].videoPaths, columnCount)
      ensures selectedHotspot == FirstOrNull(hotspots)
    {
      var loaded: seq<EditorHotspot> := [];
      for i := 0 to |config|
        invariant |loaded| == i
        invariant forall k :: 0 <= k < i ==>
                    && loaded[k].id == config[k].id && loaded[k].title == config[k].title
                    && loaded[k].description == descriptions[k]
                    && loaded[k].images == Thumbnails(config[k].imagePaths, columnCount)
                    && loaded[k].videos == Thumbnails(config[k].videoPaths, columnCount)
      {
        var h := new EditorHotspot.FromData(config[i], descriptions[i], columnCount);
        loaded := loaded + [h];
      }
      hotspots := loaded;
      isItemUpdating := false;
      var first := FirstOrNull(loaded);
      selectedHotspot := first;
      describedHotspot := first;
      imageMedia := if first != null then first.images else [];
      videoMedia := if first != null then first.videos else [];
    }

    /**
     * The `SelectedHotspot` setter: ignored while an item is updating;
     * otherwise selects `value` and shows its media and description, or empty
     * media for no selection.
     */
    method SetSelectedHotspot(value: EditorHotspot?)
      requires Valid()
      modifies this
      ensures Valid()
      ensures old(isItemUpdating) ==> unchanged(this)
      ensures !old(isItemUpdating) ==> selectedHotspot == value && describedHotspot == value
      ensures value == null && !old(isItemUpdating) ==> imageMedia == [] && videoMedia == []
      ensures hotspots == old(hotspots) && isItemUpdating == old(isItemUpdating)
    {
      if isItemUpdating {
        return;
      }
      selectedHotspot := value;
      describedHotspot := value;
      if value != null {
        imageMedia := value.images;
        videoMedia := value.videos;
      } else {
        imageMedia := [];
        videoMedia := [];
      }
    }

    /**
     * `AddHotspot`: append one new, empty hotspot whose id is the smallest
     * non-negative id not in use, and select it. While an item is updating the
     * selection setter ignores the new hotspot, so the old selection stays.
     */
    method AddHotspot()
      requires Valid()
      modifies this
      ensures Valid()
      ensures |hotspots| == |old(hotspots)| + 1 && hotspots[..|old(hotspots)|] == old(hotspots)
      ensures var h := hotspots[|hotspots| - 1];
              && fresh(h) && h.title == "" && h.description == "" && h.images == [] && h.videos == []
              && h.id >= 0 && h.id !in Ids(old(hotspots))
              && (forall k :: 0 <= k < h.id ==> k in Ids(old(hotspots)))
      ensures !old(isItemUpdating) ==> selectedHotspot == hotspots[|hotspots| - 1]
      ensures isItemUpdating == old(isItemUpdating)
      ensures old(isItemUpdating) ==>
                && selectedHotspot == old(selectedHotspot) && describedHotspot == old(describedHotspot)
                && imageMedia == old(imageMedia) && videoMedia == old(videoMedia)
    {
      var newId := SmallestFreeId(Ids(hotspots));
      var h := new EditorHotspot(newId);
      hotspots := hotspots + [h];
      SetSelectedHotspot(h);
    }

    /**
     * `DeleteHotspot`: remove the first occurrence of `hotspot` (nothing if it
     * is absent) and select the first remaining hotspot, or none. While an item
     * is updating the old selection stays, even if it was the deleted hotspot.
     */
    method DeleteHotspot(hotspot: EditorHotspot)
      requires Valid()
      modifies this
      ensures Valid()
      ensures hotspots == RemoveFirst(old(hotspots), hotspot)
      ensures !old(isItemUpdating) ==> selectedHotspot == FirstOrNull(hotspots)
      ensures isItemUpdating == old(isItemUpdating)
      ensures old(isItemUpdating) ==>
                && selectedHotspot == old(selectedHotspot) && describedHotspot == old(describedHotspot)
                && imageMedia == old(imageMedia) && videoMedia == old(videoMedia)
    {
      hotspots := RemoveFirst(hotspots, hotspot);
      SetSelectedHotspot(FirstOrNull(hotspots));
    }
  }
}
