/**
 * The bookkeeping of Scripts/Helper/Calibrator.py: marker detections become an
 * id-keyed dictionary, the two dictionaries are intersected on shared ids, at
 * least 4 shared ids are required, and points are converted between projector
 * pixels, camera pixels and normalised camera coordinates. Homography
 * estimation (`cv2.findHomography`) is the parameter `findHomography`, and the
 * inverse matrix (`np.linalg.inv`) is given to the calibrator with the matrix.
 */
module Calibration {
  import opened Wrappers
  import opened Geometry

  /**
   * A Python dict from marker id to coordinate: the values by key, and the
   * keys in insertion order (the order `items()` yields them).
   */
  datatype Dict = Dict(order: seq<int>, values: map<int, Point>)
  {
    ghost predicate Valid()
    {
      && (forall i, j :: 0 <= i < j < |order| ==> order[i] != order[j])
      && (forall id :: id in values <==> id in order)
    }

    /** `d[id] = p`: a new key goes to the end of the order; an existing key keeps its place. */
    function Put(id: int, p: Point): (r: Dict)
      ensures Valid() ==> r.Valid()
      ensures r.values == values[id := p]
      ensures id in order ==> r.order == order
    {
      if id in order then Dict(order, values[id := p]) else Dict(order + [id], values[id := p])
    }
  }

  const EmptyDict: Dict := Dict([], map[])
  /** A row of a 3x3 matrix. */
  datatype Row = Row(c0: real, c1: real, c2: real)

  /** A 3x3 transformation matrix, row by row. */
  datatype Matrix3 = Matrix3(r0: Row, r1: Row, r2: Row)

  const Identity: Matrix3 := Matrix3(Row(1.0, 0.0, 0.0), Row(0.0, 1.0, 0.0), Row(0.0, 0.0, 1.0))

  /**
   * `cv2.transform` with a 3x3 matrix on one 2-D point: the point is extended
   * to (x, y, 1), multiplied by the matrix, and the first two components are
   * kept. `cv2.transform` performs no perspective division, so the third row
   * is never used: a matrix whose first two rows are the identity's fixes
   * every point whatever its third row.
   */
  function Transform(m: Matrix3, p: Point): (q: Point)
    ensures m.r0 == Identity.r0 && m.r1 == Identity.r1 ==> q == p
  {
    Point(m.r0.c0 * p.x + m.r0.c1 * p.y + m.r0.c2,
          m.r1.c0 * p.x + m.r1.c1 * p.y + m.r1.c2)
  }

  /** The identity matrix maps every point to itself. */
  lemma IdentityTransform(p: Point)
    ensures Transform(Identity, p) == p
  {
  }

  /** One id present in both dictionaries, with its coordinate in each. */
  datatype Match = Match(id: int, src: Point, dst: Point)

  /**
   * The ids of `ids` present in both maps, in `ids` order, paired with both
   * coordinates. Nothing matches against an empty map.
   */
  function MatchIds(ids: seq<int>, from: map<int, Point>, to: map<int, Point>): (ms: seq<Match>)
    ensures from == map[] || to == map[] ==> ms == []
  {
    if ids == [] then []
    else
      (if ids[0] in from && ids[0] in to then [Match(ids[0], from[ids[0]], to[ids[0]])] else [])
      + MatchIds(ids[1..], from, to)
  }

  /**
   * The matches of two dictionaries: `from`'s ids in its insertion order that
   * `to` also holds, each with its coordinate in `from` and its coordinate in `to`.
   */
  function Matches(from: Dict, to: Dict): (ms: seq<Match>)
    ensures forall k :: 0 <= k < |ms| ==>
              && ms[k].id in from.values && ms[k].id in to.values
              && ms[k].src == from.values[ms[k].id] && ms[k].dst == to.values[ms[k].id]
  {
    MatchIdsSound(from.order, from.values, to.values);
    MatchIds(from.order, from.values, to.values)
  }

  /** The source coordinates of a list of matches, in order. */
  function Sources(ms: seq<Match>): (r: seq<Point>)
    ensures |r| == |ms| && forall k :: 0 <= k < |ms| ==> r[k] == ms[k].src
  {
    seq(|ms|, k requires 0 <= k < |ms| => ms[k].src)
  }

  /** The destination coordinates of a list of matches, in order. */
  function Targets(ms: seq<Match>): (r: seq<Point>)
    ensures |r| == |ms| && forall k :: 0 <= k < |ms| ==> r[k] == ms[k].dst
  {
    seq(|ms|, k requires 0 <= k < |ms| => ms[k].dst)
  }

  /** The ids held by both dictionaries. */
  ghost function SharedIds(a: Dict, b: Dict): set<int>
  {
    a.values.Keys * b.values.Keys
  }

  /** Over distinct ids, the number of matches is the number of ids present in both maps. */
  lemma {:induction false} MatchIdsCount(ids: seq<int>, from: map<int, Point>, to: map<int, Point>)
    requires forall i, j :: 0 <= i < j < |ids| ==> ids[i] != ids[j]
    ensures |MatchIds(ids, from, to)| == |set id | id in ids && id in from && id in to|
  {
    var all := set id | id in ids && id in from && id in to;
    if ids == [] {
      assert all == {};
    } else {
      var rest := set id | id in ids[1..] && id in from && id in to;
      MatchIdsCount(ids[1..], from, to);
      assert ids[0] !in ids[1..] by {
        forall k | 0 <= k < |ids[1..]| ensures ids[1..][k] != ids[0] {
          assert ids[1..][k] == ids[k + 1];
        }
      }
      assert forall id :: id in ids <==> id == ids[0] || id in ids[1..] by {
        assert ids == [ids[0]] + ids[1..];
      }
      if ids[0] in from && ids[0] in to {
        assert all == rest + {ids[0]};
      } else {
        assert all == rest;
      }
    }
  }

  /** The number of matches depends only on the ids the two dictionaries share. */
  lemma MatchCount(a: Dict, b: Dict)
    requires a.Valid()
    ensures |Matches(a, b)| == |SharedIds(a, b)|
  {
    MatchIdsCount(a.order, a.values, b.values);
    forall id | id in SharedIds(a, b) ensures id in a.order {
      assert id in a.values;
    }
    assert (set id | id in a.order && id in a.values && id in b.values) == SharedIds(a, b);
  }

  /** Matching in either direction finds the same number of shared ids. */
  lemma MatchCountSymmetric(a: Dict, b: Dict)
    requires a.Valid() && b.Valid()
    ensures |Matches(a, b)| == |Matches(b, a)|
  {
    MatchCount(a, b);
    MatchCount(b, a);
    assert SharedIds(a, b) == SharedIds(b, a);
  }

  /** Every match is an id in `ids` and in both maps, and carries both maps' coordinates for it. */
  lemma {:induction false} MatchIdsSound(ids: seq<int>, from: map<int, Point>, to: map<int, Point>)
    ensures forall m :: m in MatchIds(ids, from, to) ==>
              m.id in ids && m.id in from && m.id in to && m.src == from[m.id] && m.dst == to[m.id]
  {
    if ids != [] {
      MatchIdsSound(ids[1..], from, to);
    }
  }

  /** Every id of `ids` present in both maps is matched. */
  lemma {:induction false} MatchIdsComplete(ids: seq<int>, from: map<int, Point>, to: map<int, Point>, id: int)
    requires id in ids && id in from && id in to
    ensures Match(id, from[id], to[id]) in MatchIds(ids, from, to)
  {
    if ids[0] != id {
      MatchIdsComplete(ids[1..], from, to, id);
    }
  }

  /** Matching never yields more pairs than there are ids. */
  lemma {:induction false} MatchIdsBounded(ids: seq<int>, from: map<int, Point>, to: map<int, Point>)
    ensures |MatchIds(ids, from, to)| <= |ids|
  {
    if ids != [] {
      MatchIdsBounded(ids[1..], from, to);
    }
  }

  /** When every id is in both maps, none is dropped. */
  lemma {:induction false} MatchIdsKeepsAll(ids: seq<int>, from: map<int, Point>, to: map<int, Point>)
    requires forall k :: 0 <= k < |ids| ==> ids[k] in from && ids[k] in to
    ensures |MatchIds(ids, from, to)| == |ids|
  {
    if ids != [] {
      assert forall k :: 0 <= k < |ids[1..]| ==> ids[1..][k] == ids[k + 1];
      MatchIdsKeepsAll(ids[1..], from, to);
    }
  }

  /** Matching a concatenation matches each part. */
  lemma {:induction false} MatchIdsAppend(a: seq<int>, b: seq<int>, from: map<int, Point>, to: map<int, Point>)
    ensures MatchIds(a + b, from, to) == MatchIds(a, from, to) + MatchIds(b, from, to)
  {
    if a == [] {
      assert a + b == b;
    } else {
      assert (a + b)[1..] == a[1..] + b;
      MatchIdsAppend(a[1..], b, from, to);
    }
  }

  /** Why calibration can fail: fewer than 4 marker ids found in both dictionaries. */
  datatype CalibrationError = NotEnoughMarkers(found: nat)

  /** The minimum number of shared markers for a homography. */
  const MinMarkers: nat := 4

  /**
   * `_get_transformation_matrix`: collect the coordinates of the shared ids in
   * two parallel lists (in `fromCoords` order), fail when fewer than 4 were
   * found, else estimate the homography from them.
   */
  method GetTransformationMatrix(fromCoords: Dict, toCoords: Dict,
                                 findHomography: (seq<Point>, seq<Point>) -> Matrix3)
    returns (r: Result<Matrix3, CalibrationError>, fromArray: seq<Point>, toArray: seq<Point>)
    ensures fromArray == Sources(Matches(fromCoords, toCoords))
    ensures toArray == Targets(Matches(fromCoords, toCoords))
    ensures r.Err? <==> |fromArray| < MinMarkers
    ensures r.Err? ==> r.error == NotEnoughMarkers(|fromArray|)
    ensures r.Ok? ==> r.value == findHomography(fromArray, toArray)
  {
    var ids := fromCoords.order;
    var from, to := fromCoords.values, toCoords.values;
    fromArray, toArray := [], [];
    var i := 0;
    while i < |ids|
      invariant 0 <= i <= |ids|
      invariant |fromArray| == |toArray| == |MatchIds(ids[..i], from, to)|
      invariant forall k :: 0 <= k < |fromArray| ==>
                  fromArray[k] == MatchIds(ids[..i], from, to)[k].src && toArray[k] == MatchIds(ids[..i], from, to)[k].dst
    {
      assert ids[..i + 1] == ids[..i] + [ids[i]];
      MatchIdsAppend(ids[..i], [ids[i]], from, to);
      assert MatchIds([ids[i]], from, to) == if ids[i] in from && ids[i] in to then [Match(ids[i], from[ids[i]], to[ids[i]])] else [] by {
        assert [ids[i]][1..] == [];
      }
      if ids[i] in from && ids[i] in to {
        fromArray := fromArray + [from[ids[i]]];
        toArray := toArray + [to[ids[i]]];
      }
      i := i + 1;
    }
    assert ids[..i] == ids;
    assert fromArray == Sources(Matches(fromCoords, toCoords));
    assert toArray == Targets(Matches(fromCoords, toCoords));
    if |fromArray| < MinMarkers {
      r := Err(NotEnoughMarkers(|fromArray|));
    } else {
      r := Ok(findHomography(fromArray, toArray));
    }
  }

  /** One detected marker: its id and the top-left corner of its outline. */
  datatype Detection = Detection(id: int, topLeft: Point)

  /** The ids of the detections, in detection order. */
  function DetectedIds(ds: seq<Detection>): (ids: seq<int>)
    ensures |ids| == |ds| && forall k :: 0 <= k < |ds| ==> ids[k] == ds[k].id
  {
    seq(|ds|, k requires 0 <= k < |ds| => ds[k].id)
  }

  /**
   * The dictionary the detection loop builds: each detection in turn is
   * assigned under its id.
   */
  function Collect(ds: seq<Detection>): (d: Dict)
    ensures d.Valid()
    decreases |ds|
  {
    if ds == [] then EmptyDict
    else Collect(ds[..|ds| - 1]).Put(ds[|ds| - 1].id, ds[|ds| - 1].topLeft)
  }

  /** The keys of the detection dictionary are exactly the detected ids. */
  lemma {:induction false} CollectKeys(ds: seq<Detection>)
    ensures forall id :: id in Collect(ds).values <==> id in DetectedIds(ds)
  {
    if ds != [] {
      var init := ds[..|ds| - 1];
      CollectKeys(init);
      assert DetectedIds(ds) == DetectedIds(init) + [ds[|ds| - 1].id];
    }
  }

  /** A detected id holds the corner of its last detection. */
  lemma {:induction false} CollectLast(ds: seq<Detection>)
    ensures forall k :: 0 <= k < |ds| && (forall j :: k < j < |ds| ==> ds[j].id != ds[k].id)
                        ==> ds[k].id in Collect(ds).values && Collect(ds).values[ds[k].id] == ds[k].topLeft
  {
    if ds != [] {
      var init, last := ds[..|ds| - 1], ds[|ds| - 1];
      CollectLast(init);
      var before, after := Collect(init).values, Collect(ds).values;
      assert after == before[last.id := last.topLeft];
      forall k | 0 <= k < |ds| && (forall j :: k < j < |ds| ==> ds[j].id != ds[k].id)
        ensures ds[k].id in after && after[ds[k].id] == ds[k].topLeft
      {
        if k < |init| {
          assert ds[|ds| - 1].id != ds[k].id;
          assert init[k] == ds[k];
          forall j | k < j < |init| ensures init[j].id != init[k].id {
            assert init[j] == ds[j];
          }
          assert ds[k].id in before && before[ds[k].id] == ds[k].topLeft;
        }
      }
    }
  }

  /** The detector's output as a dictionary: empty when no marker was found. */
  function Detect(detections: Option<seq<Detection>>): (d: Dict)
    ensures d.Valid()
    ensures detections.None? ==> d == EmptyDict
  {
    if detections.None? then EmptyDict else Collect(detections.value)
  }

  /** Each key of `order` is first seen in `ids` before any occurrence of every later key. */
  predicate FirstSeenOrder(order: seq<int>, ids: seq<int>)
  {
    forall i, j, m :: 0 <= i < j < |order| && 0 <= m < |ids| && ids[m] == order[j] ==> order[i] in ids[..m]
  }

  /** The detection dictionary's keys are in the order the ids were first detected. */
  lemma {:induction false} CollectOrder(ds: seq<Detection>)
    ensures FirstSeenOrder(Collect(ds).order, DetectedIds(ds))
  {
    if ds != [] {
      var init, last := ds[..|ds| - 1], ds[|ds| - 1];
      CollectOrder(init);
      CollectKeys(init);
      var o, o' := Collect(init).order, Collect(ds).order;
      var ids, ids' := DetectedIds(init), DetectedIds(ds);
      assert ids' == ids + [last.id];
      assert forall id :: id in o <==> id in ids;
      assert o' == o || (o' == o + [last.id] && last.id !in o);
      forall i, j, m | 0 <= i < j < |o'| && 0 <= m < |ids'| && ids'[m] == o'[j]
        ensures o'[i] in ids'[..m]
      {
        OrderStep(o, o', ids, last.id, i, j, m);
      }
    }
  }

  /** One step of `CollectOrder`: appending a detection keeps the keys in first-seen order. */
  lemma OrderStep(o: seq<int>, o': seq<int>, ids: seq<int>, id: int, i: int, j: int, m: int)
    requires FirstSeenOrder(o, ids)
    requires forall x :: x in o <==> x in ids
    requires o' == o || (o' == o + [id] && id !in o)
    requires 0 <= i < j < |o'| && 0 <= m < |ids| + 1 && (ids + [id])[m] == o'[j]
    ensures o'[i] in (ids + [id])[..m]
  {
    var ids' := ids + [id];
    assert o'[i] == o[i];
    if m < |ids| {
      assert ids'[m] == ids[m] && ids[m] in o;
      assert j < |o|;
      assert ids'[..m] == ids[..m];
    } else {
      assert ids'[..m] == ids;
    }
  }

  /**
   * `_detect_ArUcos`: the detector's output (None when no marker was found,
   * else each marker id with the top-left corner of that marker) becomes a
   * dictionary from id to corner. A repeated id keeps its first position and
   * its last corner.
   */
  method DetectArucos(detections: Option<seq<Detection>>) returns (detected: Dict)
    ensures detected == Detect(detections)
    ensures detected.Valid()
    ensures detections.None? ==> detected == EmptyDict
    ensures detections.Some? ==>
              forall id :: id in detected.values <==> exists k :: 0 <= k < |detections.value| && detections.value[k].id == id
    ensures detections.Some? ==>
              forall k :: 0 <= k < |detections.value| &&
                          (forall j :: k < j < |detections.value| ==> detections.value[j].id != detections.value[k].id)
                          ==> detections.value[k].id in detected.values &&
                              detected.values[detections.value[k].id] == detections.value[k].topLeft
    ensures detections.Some? ==> FirstSeenOrder(detected.order, DetectedIds(detections.value))
  {
    detected := EmptyDict;
    if detections.None? {
      return;
    }
    var ds := detections.value;
    var i := 0;
    while i < |ds|
      invariant 0 <= i <= |ds|
      invariant detected == Collect(ds[..i])
    {
      assert ds[..i + 1][..i] == ds[..i];
      detected := detected.Put(ds[i].id, ds[i].topLeft);
      i := i + 1;
    }
    assert ds[..i] == ds;
    CollectKeys(ds);
    CollectLast(ds);
    CollectOrder(ds);
    forall id | id in DetectedIds(ds) ensures exists k :: 0 <= k < |ds| && ds[k].id == id {
      var k :| 0 <= k < |ds| && DetectedIds(ds)[k] == id;
    }
  }

  /**
   * `calibrate`: detect the markers in a photo (the detector's output is the
   * parameter) and compute the transformation from camera to projector space:
   * it fails exactly when fewer than 4 detected ids are projector markers, and
   * otherwise is the homography between the shared markers' camera and
   * projector coordinates, in detection order. A photo without markers always fails.
   */
  method Calibrate(projectorIdToCoord: Dict, detections: Option<seq<Detection>>,
                   findHomography: (seq<Point>, seq<Point>) -> Matrix3)
    returns (r: Result<Matrix3, CalibrationError>)
    ensures r.Err? <==> |SharedIds(Detect(detections), projectorIdToCoord)| < MinMarkers
    ensures r.Err? ==> r.error == NotEnoughMarkers(|SharedIds(Detect(detections), projectorIdToCoord)|)
    ensures r.Ok? ==> var ms := Matches(Detect(detections), projectorIdToCoord);
                      r.value == findHomography(Sources(ms), Targets(ms))
    ensures detections.None? ==> r == Err(NotEnoughMarkers(0))
  {
    var cameraIdToCoord := DetectArucos(detections);
    var fromArray, toArray;
    r, fromArray, toArray := GetTransformationMatrix(cameraIdToCoord, projectorIdToCoord, findHomography);
    MatchCount(cameraIdToCoord, projectorIdToCoord);
  }

  /** A pixel position in projector space (Python `tuple[int, int]`). */
  datatype Pixel = Pixel(x: int, y: int)

  /**
   * A calibrator: the camera-to-projector matrix, its inverse, and the camera
   * resolution (width, height) it normalises by.
   */
  datatype Calibrator = Calibrator(transformation: Matrix3, inverse: Matrix3, cameraWidth: int, cameraHeight: int)
  {
    /** `proj_to_cam`: apply the inverse transformation; an identity inverse leaves the pixel where it is. */
    function ProjToCam(p: Pixel): (c: Point)
      ensures inverse == Identity ==> c == Point(p.x as real, p.y as real)
    {
      Transform(inverse, Point(p.x as real, p.y as real))
    }

    /**
     * `proj_to_norm`: camera coordinates as fractions of the camera resolution,
     * so scaling them back by the resolution gives the camera coordinates.
     */
    function ProjToNorm(p: Pixel): (n: Point)
      requires cameraWidth > 0 && cameraHeight > 0
      ensures n.x * cameraWidth as real == ProjToCam(p).x
      ensures n.y * cameraHeight as real == ProjToCam(p).y
    {
      var c := ProjToCam(p);
      Point(c.x / cameraWidth as real, c.y / cameraHeight as real)
    }

    /** `cam_to_proj`: apply the transformation and truncate; each coordinate lands within one pixel of the exact one. */
    function CamToProj(c: Point): (p: Pixel)
      ensures -1.0 < p.x as real - Transform(transformation, c).x < 1.0
      ensures -1.0 < p.y as real - Transform(transformation, c).y < 1.0
    {
      var t := Transform(transformation, c);
      Pixel(Trunc(t.x), Trunc(t.y))
    }

    /**
     * `norm_to_proj`: scale by the camera resolution, then `cam_to_proj`; each
     * coordinate lands within one pixel of the transformed camera point.
     */
    function NormToProj(n: Point): (p: Pixel)
      ensures -1.0 < p.x as real - Transform(transformation, Point(n.x * cameraWidth as real, n.y * cameraHeight as real)).x < 1.0
      ensures -1.0 < p.y as real - Transform(transformation, Point(n.x * cameraWidth as real, n.y * cameraHeight as real)).y < 1.0
    {
      CamToProj(Point(n.x * cameraWidth as real, n.y * cameraHeight as real))
    }
  }

  /** `back` undershoots `orig` by less than one pixel of a resolution of `res` pixels. */
  predicate WithinOnePixel(orig: real, back: real, res: int)
    requires res > 0
  {
    back <= orig && orig - back < 1.0 / res as real
  }

  /** x * w truncated to `k` and divided by w again loses less than 1 / w, for x >= 0. */
  lemma TruncScaleBack(x: real, w: int, k: int, back: real)
    requires x >= 0.0 && w > 0
    requires k == Trunc(x * w as real) && back == k as real / w as real
    ensures WithinOnePixel(x, back, w)
  {
    var n := k as real;
    var wr := w as real;
    DivBetween(x * wr, wr, n, n + 1.0);
    MulDivCancel(x, wr);
    DivSplit(n, 1.0, wr);
  }

  /** Dividing `lo <= p < hi` by a positive `w` keeps the order. */
  lemma DivBetween(p: real, w: real, lo: real, hi: real)
    requires w > 0.0 && lo <= p < hi
    ensures lo / w <= p / w < hi / w
  {
    assert p / w - lo / w == (p - lo) / w;
    assert hi / w - p / w == (hi - p) / w;
  }

  /** Multiplying by a positive `w` and dividing by it again is the identity. */
  lemma MulDivCancel(x: real, w: real)
    requires w > 0.0
    ensures x * w / w == x
  {
  }

  /** Division by `w` distributes over a sum. */
  lemma DivSplit(a: real, b: real, w: real)
    requires w > 0.0
    ensures (a + b) / w == a / w + b / w
  {
  }

  /** With identity matrices, `norm_to_proj` scales and truncates, and `proj_to_norm` only divides. */
  lemma IdentityConversions(width: int, height: int, n: Point, p: Pixel)
    requires width > 0 && height > 0
    ensures var c := Calibrator(Identity, Identity, width, height);
            && c.NormToProj(n) == Pixel(Trunc(n.x * width as real), Trunc(n.y * height as real))
            && c.ProjToNorm(p) == Point(p.x as real / width as real, p.y as real / height as real)
  {
    IdentityTransform(Point(n.x * width as real, n.y * height as real));
    IdentityTransform(Point(p.x as real, p.y as real));
  }

  /**
   * With identity matrices, normalising the projector pixel obtained from a
   * non-negative normalised point gives the point back up to less than one
   * camera pixel, and never overshoots.
   */
  lemma NormRoundTrip(width: int, height: int, n: Point)
    requires width > 0 && height > 0
    requires n.x >= 0.0 && n.y >= 0.0
    ensures var c := Calibrator(Identity, Identity, width, height);
            var back := c.ProjToNorm(c.NormToProj(n));
            WithinOnePixel(n.x, back.x, width) && WithinOnePixel(n.y, back.y, height)
  {
    var p := Pixel(Trunc(n.x * width as real), Trunc(n.y * height as real));
    var backX, backY := p.x as real / width as real, p.y as real / height as real;
    TruncScaleBack(n.x, width, p.x, backX);
    TruncScaleBack(n.y, height, p.y, backY);
    IdentityConversions(width, height, n, p);
  }

  /**
   * The case `test_norm_to_proj_to_norm` checks: at resolution 500x300 with the
   * identity, (0.5, 0.5) lands on a whole pixel, so the round trip is exact
   * rather than only within the one pixel `NormRoundTrip` allows.
   */
  lemma NormRoundTripExample()
    ensures var c := Calibrator(Identity, Identity, 500, 300);
            c.ProjToNorm(c.NormToProj(Point(0.5, 0.5))) == Point(0.5, 0.5)
  {
    var c := Calibrator(Identity, Identity, 500, 300);
    IdentityTransform(Point(250.0, 150.0));
    assert c.NormToProj(Point(0.5, 0.5)) == Pixel(250, 150);
    IdentityTransform(Point(250.0, 150.0));
  }
}
