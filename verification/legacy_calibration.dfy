/**
 * The earlier calibrator of Scripts/Calibrator.py: it projects a 6 x 12 grid
 * of markers, matches them against the markers seen by the camera, and keeps a
 * projector-to-camera matrix and its camera-to-projector counterpart, each
 * computed from the matches (or absent when fewer than 4 markers matched).
 */
module LegacyCalibration {
  import opened Wrappers
  import opened Geometry
  import Calibration

  const GridRows: nat := 6
  const GridColumns: nat := 12
  const GridSize: nat := GridRows * GridColumns

  /** The marker image `_drawArucos` paints on: 1080 rows by 1920 columns, each marker 100 pixels square. */
  const ImageRows: nat := 1080
  const ImageColumns: nat := 1920
  const MarkerSize: nat := 100

  /**
   * The top-left corner of marker `code`: row `code / 12` and column `code % 12`,
   * 150 pixels apart, 25 from the edge. Every marker of the grid fits on the image.
   */
  function GridPos(code: int): (p: Point)
    ensures 0 <= code < GridSize ==>
              && 0.0 <= p.x && p.x + MarkerSize as real <= ImageRows as real
              && 0.0 <= p.y && p.y + MarkerSize as real <= ImageColumns as real
  {
    Point((25 + 150 * (code / GridColumns)) as real, (25 + 150 * (code % GridColumns)) as real)
  }

  /** The projected marker grid: codes 0 .. 71 in order, each at its `GridPos`. */
  function Grid(): (d: Calibration.Dict)
    ensures d.Valid()
  {
    var order := seq(GridSize, c => c);
    assert forall id :: id in order <==> 0 <= id < GridSize by {
      forall id | 0 <= id < GridSize ensures id in order {
        assert order[id] == id;
      }
      forall id | id in order ensures 0 <= id < GridSize {
        var k :| 0 <= k < |order| && order[k] == id;
      }
    }
    Calibration.Dict(order, map c | 0 <= c < GridSize :: GridPos(c))
  }

  /** The grid is a well-formed dictionary with keys exactly 0 .. 71. */
  lemma GridShape()
    ensures Grid().Valid()
    ensures |Grid().order| == 72
    ensures forall id :: id in Grid().values <==> 0 <= id < 72
  {
    var g := Grid();
    forall id | 0 <= id < GridSize ensures id in g.order {
      assert g.order[id] == id;
    }
  }

  /** No two markers of the grid share a corner. */
  lemma GridPositionsDistinct(a: int, b: int)
    requires 0 <= a < GridSize && 0 <= b < GridSize && a != b
    ensures GridPos(a) != GridPos(b)
  {
  }

  /** The nested loop at the start of `calibrate`: code `12 i + j` is placed at (25 + 150 i, 25 + 150 j). */
  method MarkerGrid() returns (grid: Calibration.Dict)
    ensures grid == Grid()
  {
    var order: seq<int> := [];
    var values: map<int, Point> := map[];
    var code := 0;
    for i := 0 to GridRows
      invariant code == GridColumns * i
      invariant order == seq(code, c => c)
      invariant values == map c | 0 <= c < code :: GridPos(c)
    {
      for j := 0 to GridColumns
        invariant code == GridColumns * i + j
        invariant order == seq(code, c => c)
        invariant values == map c | 0 <= c < code :: GridPos(c)
      {
        assert code / GridColumns == i && code % GridColumns == j;
        values := values[code := Point((25 + 150 * i) as real, (25 + 150 * j) as real)];
        order := order + [code];
        code := code + 1;
      }
    }
    grid := Calibration.Dict(order, values);
  }

  /**
   * `_getTransformationMatrix`: the homography between the shared markers, or
   * None when fewer than 4 are shared.
   */
  method GetTransformationMatrix(fromCoords: Calibration.Dict, toCoords: Calibration.Dict,
                                 findHomography: (seq<Point>, seq<Point>) -> Calibration.Matrix3)
    returns (m: Option<Calibration.Matrix3>)
    ensures m.None? <==> |Calibration.Matches(fromCoords, toCoords)| < Calibration.MinMarkers
    ensures m.Some? ==> m.value == findHomography(Calibration.Sources(Calibration.Matches(fromCoords, toCoords)),
                                                  Calibration.Targets(Calibration.Matches(fromCoords, toCoords)))
  {
    var r, fromArray, toArray := Calibration.GetTransformationMatrix(fromCoords, toCoords, findHomography);
    m := if r.Ok? then Some(r.value) else None;
  }

  /**
   * The shared markers are as many in either direction, so both matrices are
   * estimated or neither is: neither exactly when fewer than 4 ids are shared,
   * and always neither when no marker was detected.
   */
  lemma BothOrNeither(projected: Calibration.Dict, camera: Calibration.Dict,
                      t: Option<Calibration.Matrix3>, inverse: Option<Calibration.Matrix3>)
    requires projected.Valid() && camera.Valid()
    requires t.None? <==> |Calibration.Matches(projected, camera)| < Calibration.MinMarkers
    requires inverse.None? <==> |Calibration.Matches(camera, projected)| < Calibration.MinMarkers
    ensures t.None? <==> inverse.None?
    ensures t.None? <==> |Calibration.SharedIds(projected, camera)| < Calibration.MinMarkers
    ensures camera == Calibration.EmptyDict ==> t.None?
  {
    Calibration.MatchCountSymmetric(projected, camera);
    Calibration.MatchCount(projected, camera);
  }

  /** The matrices `calibrate` estimates, in terms of the grid and the detections. */
  lemma CalibrationMatrices(detections: Option<seq<Calibration.Detection>>,
                            projected: Calibration.Dict, camera: Calibration.Dict,
                            t: Option<Calibration.Matrix3>, inverse: Option<Calibration.Matrix3>)
    requires projected == Grid() && camera == Calibration.Detect(detections)
    requires t.None? <==> |Calibration.Matches(projected, camera)| < Calibration.MinMarkers
    requires inverse.None? <==> |Calibration.Matches(camera, projected)| < Calibration.MinMarkers
    ensures t.None? <==> |Calibration.SharedIds(projected, camera)| < Calibration.MinMarkers
    ensures t.None? <==> inverse.None?
    ensures detections.None? ==> t.None?
  {
    assert projected.Valid() by {
      GridShape();
    }
    BothOrNeither(projected, camera, t, inverse);
  }

  /**
   * The two matrices of `calibrate`: build the grid, detect the markers, and
   * estimate the projector-to-camera matrix from the grid's markers in grid
   * order and the camera-to-projector one from the detected markers in
   * detection order. Both are present or neither is.
   */
  method EstimateMatrices(detections: Option<seq<Calibration.Detection>>,
                          findHomography: (seq<Point>, seq<Point>) -> Calibration.Matrix3)
    returns (t: Option<Calibration.Matrix3>, inverse: Option<Calibration.Matrix3>)
    ensures t.None? <==> |Calibration.SharedIds(Grid(), Calibration.Detect(detections))| < Calibration.MinMarkers
    ensures t.Some? ==>
              var ms := Calibration.Matches(Grid(), Calibration.Detect(detections));
              t.value == findHomography(Calibration.Sources(ms), Calibration.Targets(ms))
    ensures inverse.Some? ==>
              var ms := Calibration.Matches(Calibration.Detect(detections), Grid());
              inverse.value == findHomography(Calibration.Sources(ms), Calibration.Targets(ms))
    ensures t.None? <==> inverse.None?
    ensures detections.None? ==> t.None?
  {
    var projectedCoords := MarkerGrid();
    var cameraCoords := Calibration.DetectArucos(detections);
    t := GetTransformationMatrix(projectedCoords, cameraCoords, findHomography);
    inverse := GetTransformationMatrix(cameraCoords, projectedCoords, findHomography);
    CalibrationMatrices(detections, projectedCoords, cameraCoords, t, inverse);
  }

  /**
   * The calibrator: the screen size it was made for, the camera size of the
   * last calibration photo, and the two matrices (None until calibrated).
   */
  class Calibrator {
    const screenWidth: int
    const screenHeight: int
    var cameraWidth: Option<int>
    var cameraHeight: Option<int>
    var tMatrix: Option<Calibration.Matrix3>
    var inverseTMatrix: Option<Calibration.Matrix3>

    constructor (screenWidth: int, screenHeight: int)
      ensures this.screenWidth == screenWidth && this.screenHeight == screenHeight
      ensures cameraWidth.None? && cameraHeight.None? && tMatrix.None? && inverseTMatrix.None?
    {
      this.screenWidth := screenWidth;
      this.screenHeight := screenHeight;
      cameraWidth, cameraHeight := None, None;
      tMatrix, inverseTMatrix := None, None;
    }

    /** `skipCalibration`: both matrices become the identity. */
    method SkipCalibration()
      modifies this
      ensures tMatrix == Some(Calibration.Identity) && inverseTMatrix == Some(Calibration.Identity)
      ensures cameraWidth == old(cameraWidth) && cameraHeight == old(cameraHeight)
    {
      tMatrix := Some(Calibration.Identity);
      inverseTMatrix := Some(Calibration.Identity);
    }

    /**
     * `calibrate`: the photo's first two dimensions become the camera size
     * (numpy's shape is rows then columns, and the script stores them as width
     * then height), the markers are detected, and both matrices are computed
     * from the grid and the detections. The photo and the detector are
     * parameters. The projector-to-camera matrix is estimated from the grid's
     * markers in grid order, the camera-to-projector one from the detected
     * markers in detection order; since matching finds the same shared ids in
     * both directions, the two are either both present or both absent.
     */
    method Calibrate(photoRows: int, photoColumns: int, detections: Option<seq<Calibration.Detection>>,
                     findHomography: (seq<Point>, seq<Point>) -> Calibration.Matrix3)
      modifies this
      ensures cameraWidth == Some(photoRows) && cameraHeight == Some(photoColumns)
      ensures tMatrix.None? <==> |Calibration.SharedIds(Grid(), Calibration.Detect(detections))| < Calibration.MinMarkers
      ensures tMatrix.Some? ==>
                var ms := Calibration.Matches(Grid(), Calibration.Detect(detections));
                tMatrix.value == findHomography(Calibration.Sources(ms), Calibration.Targets(ms))
      ensures inverseTMatrix.Some? ==>
                var ms := Calibration.Matches(Calibration.Detect(detections), Grid());
                inverseTMatrix.value == findHomography(Calibration.Sources(ms), Calibration.Targets(ms))
      ensures tMatrix.None? <==> inverseTMatrix.None?
      ensures detections.None? ==> tMatrix.None?
    {
      cameraWidth, cameraHeight := Some(photoRows), Some(photoColumns);
      var t, inverse := EstimateMatrices(detections, findHomography);
      tMatrix, inverseTMatrix := t, inverse;
    }
  }
}
