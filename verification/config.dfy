/**
 * The stored configuration of Models/Config.cs: the calibration (homography)
 * matrix, kept both as a two-dimensional array and in the jagged
 * array-of-rows form that is written to JSON, and the list of hotspots.
 */
module Config {
  import opened Wrappers
  import opened PositionEditor

  /** `Models/Hotspot.cs`: a configured hotspot. */
  datatype Hotspot = Hotspot(id: int, position: Coord, descriptionPath: string,
                             imagePaths: seq<string>, videoPaths: seq<string>)

  /** The exceptions building a configuration can throw. */
  datatype ConfigError =
    | ArgumentNull(parameter: string)
    /** Reading row 0 of an empty array, or an entry past the end of the matrix's row. */
    | IndexOutOfRange

  /** The contents of a two-dimensional array, row by row. */
  function Rows(m: array2<real>): (rows: seq<seq<real>>)
    reads m
    ensures |rows| == m.Length0
    ensures forall i :: 0 <= i < m.Length0 ==> |rows[i]| == m.Length1
    ensures forall i, j :: 0 <= i < m.Length0 && 0 <= j < m.Length1 ==> rows[i][j] == m[i, j]
  {
    seq(m.Length0, i requires 0 <= i < m.Length0 reads m =>
      seq(m.Length1, j requires 0 <= j < m.Length1 reads m => m[i, j]))
  }

  /** Every row has `width` entries. */
  predicate Rectangular(rows: seq<seq<real>>, width: int)
  {
    forall i :: 0 <= i < |rows| ==> |rows[i]| == width
  }

  /** Some row is longer than row 0. */
  predicate HasLongRow(jagged: seq<seq<real>>)
    requires |jagged| > 0
  {
    exists i :: 0 <= i < |jagged| && |jagged[i]| > |jagged[0]|
  }

  /**
   * What `ConvertToMatrix` makes of a jagged array: an error for an empty
   * array (the width is read from row 0) or a row longer than row 0;
   * otherwise a matrix as wide as row 0, with the missing entries of shorter
   * rows left at zero.
   */
  function ToMatrix(jagged: seq<seq<real>>): (r: Result<seq<seq<real>>, ConfigError>)
    ensures r.Err? <==> |jagged| == 0 || HasLongRow(jagged)
    ensures r.Err? ==> r.error == IndexOutOfRange
    ensures r.Ok? ==> |r.value| == |jagged| && Rectangular(r.value, |jagged[0]|)
    ensures r.Ok? ==> forall i, j :: 0 <= i < |jagged| && 0 <= j < |jagged[i]| ==> r.value[i][j] == jagged[i][j]
    ensures r.Ok? ==> forall i, j :: 0 <= i < |jagged| && |jagged[i]| <= j < |jagged[0]| ==> r.value[i][j] == 0.0
  {
    if |jagged| == 0 || HasLongRow(jagged) then Err(IndexOutOfRange)
    else
      Ok(seq(|jagged|, i requires 0 <= i < |jagged| =>
        seq(|jagged[0]|, j requires 0 <= j < |jagged[0]| => if j < |jagged[i]| then jagged[i][j] else 0.0)))
  }

  /** A rectangular array with at least one row is already a matrix: `ToMatrix` gives it back. */
  lemma ToMatrixOfRectangular(rows: seq<seq<real>>)
    requires |rows| > 0 && Rectangular(rows, |rows[0]|)
    ensures ToMatrix(rows) == Ok(rows)
  {
    var r := ToMatrix(rows);
    assert !HasLongRow(rows);
    assert |r.value| == |rows|;
    forall i | 0 <= i < |rows|
      ensures r.value[i] == rows[i]
    {
      assert |r.value[i]| == |rows[i]|;
      forall j | 0 <= j < |rows[i]|
        ensures r.value[i][j] == rows[i][j]
      {
      }
    }
    assert r.value == rows;
  }

  /**
   * `ConvertToArray`: copy a matrix into a new array of rows, each as wide
   * as the matrix, entry for entry.
   */
  method ConvertToArray(matrix: array2<real>) returns (result: seq<seq<real>>)
    ensures result == Rows(matrix)
  {
    var height := matrix.Length0;
    var width := matrix.Length1;
    result := [];
    for i := 0 to height
      invariant |result| == i
      invariant forall k :: 0 <= k < i ==> result[k] == Rows(matrix)[k]
    {
      var row: seq<real> := [];
      for j := 0 to width
        invariant |row| == j
        invariant forall l :: 0 <= l < j ==> row[l] == matrix[i, l]
      {
        row := row + [matrix[i, j]];
      }
      result := result + [row];
    }
  }

  /**
   * `ConvertToMatrix`: a new matrix as wide as row 0, each row's entries
   * copied in, or the exception the copy throws.
   */
  method ConvertToMatrix(jagged: seq<seq<real>>) returns (r: Result<array2<real>, ConfigError>)
    ensures r.Err? <==> ToMatrix(jagged).Err?
    ensures r.Err? ==> r.error == ToMatrix(jagged).error
    ensures r.Ok? ==> fresh(r.value) && Rows(r.value) == ToMatrix(jagged).value
  {
    if |jagged| == 0 {
      return Err(IndexOutOfRange);
    }
    var result := new real[|jagged|, |jagged[0]|]((i, j) => 0.0);
    for i := 0 to |jagged|
      invariant forall k :: 0 <= k < i ==> |jagged[k]| <= |jagged[0]|
      invariant forall k, l :: 0 <= k < i && 0 <= l < |jagged[k]| ==> result[k, l] == jagged[k][l]
      invariant forall k, l :: 0 <= k < i && |jagged[k]| <= l < |jagged[0]| ==> result[k, l] == 0.0
      invariant forall k, l :: i <= k < |jagged| && 0 <= l < |jagged[0]| ==> result[k, l] == 0.0
    {
      if |jagged[i]| > |jagged[0]| {
        return Err(IndexOutOfRange);
      }
      for j := 0 to |jagged[i]|
        invariant forall k, l :: 0 <= k < i && 0 <= l < |jagged[k]| ==> result[k, l] == jagged[k][l]
        invariant forall k, l :: 0 <= k < i && |jagged[k]| <= l < |jagged[0]| ==> result[k, l] == 0.0
        invariant forall l :: 0 <= l < j ==> result[i, l] == jagged[i][l]
        invariant forall k, l :: i <= k < |jagged| && 0 <= l < |jagged[0]| && (k > i || l >= j) ==> result[k, l] == 0.0
      {
        result[i, j] := jagged[i][j];
      }
    }
    assert !HasLongRow(jagged);
    var expected := ToMatrix(jagged).value;
    assert Rows(result) == expected by {
      forall i | 0 <= i < |jagged|
        ensures Rows(result)[i] == expected[i]
      {
      }
    }
    return Ok(result);
  }

  /**
   * The round trip of the two forms: a matrix with at least one row,
   * written as rows and read back, has the same dimensions and entries.
   */
  lemma RoundTrip(matrix: array2<real>, rows: seq<seq<real>>)
    requires rows == Rows(matrix) && matrix.Length0 > 0
    ensures ToMatrix(rows) == Ok(Rows(matrix))
  {
    ToMatrixOfRectangular(rows);
  }

  /** A matrix without rows does not come back: reading it back needs row 0. */
  lemma NoRowsNoRoundTrip(matrix: array2<real>)
    requires matrix.Length0 == 0
    ensures ToMatrix(Rows(matrix)) == Err(IndexOutOfRange)
  {
  }

  /** The first hotspot with the given id, if any (`List.Find`). */
  function FindHotspot(hotspots: seq<Hotspot>, id: int): (r: Option<Hotspot>)
    ensures r.None? <==> forall k :: 0 <= k < |hotspots| ==> hotspots[k].id != id
    ensures r.Some? ==> exists k :: 0 <= k < |hotspots| && hotspots[k] == r.value && r.value.id == id &&
                          forall j :: 0 <= j < k ==> hotspots[j].id != id
  {
    if hotspots == [] then None
    else if hotspots[0].id == id then Some(hotspots[0])
    else
      var rest := FindHotspot(hotspots[1..], id);
      assert forall k :: 1 <= k < |hotspots| ==> hotspots[k] == hotspots[1..][k - 1];
      if rest.Some? then
        var k :| 0 <= k < |hotspots| - 1 && hotspots[1..][k] == rest.value && rest.value.id == id &&
                 forall j :: 0 <= j < k ==> hotspots[1..][j].id != id;
        assert hotspots[k + 1] == rest.value;
        rest
      else rest
  }

  /**
   * The two forms of the matrix agree: as many rows, no row wider than the
   * matrix, each matrix entry the row's entry or zero past the row's end,
   * and the matrix as wide as row 0.
   */
  ghost predicate Agree(json: seq<seq<real>>, matrix: array2<real>)
    reads matrix
  {
    && |json| == matrix.Length0
    && (|json| > 0 ==> |json[0]| == matrix.Length1)
    && (forall i :: 0 <= i < |json| ==> |json[i]| <= matrix.Length1)
    && (forall i, j :: 0 <= i < |json| && 0 <= j < matrix.Length1 ==>
          matrix[i, j] == if j < |json[i]| then json[i][j] else 0.0)
  }

  class Config {
    const homographyMatrixJson: seq<seq<real>>
    const homographyMatrix: array2<real>
    const hotspots: seq<Hotspot>

    ghost predicate Valid()
      reads homographyMatrix
    {
      Agree(homographyMatrixJson, homographyMatrix)
    }

    /** The constructor from a matrix: the JSON form is its copy. */
    constructor (homographyMatrix: array2<real>, hotspots: seq<Hotspot>)
      ensures Valid()
      ensures this.homographyMatrix == homographyMatrix && this.hotspots == hotspots
      ensures homographyMatrixJson == Rows(homographyMatrix)
    {
      var json := ConvertToArray(homographyMatrix);
      homographyMatrixJson := json;
      this.homographyMatrix := homographyMatrix;
      this.hotspots := hotspots;
    }

    /** The fields as they are, once the deserialising constructor has checked and converted them. */
    constructor Make(json: seq<seq<real>>, matrix: array2<real>, hotspots: seq<Hotspot>)
      requires Agree(json, matrix)
      ensures Valid()
      ensures homographyMatrixJson == json && homographyMatrix == matrix && this.hotspots == hotspots
    {
      homographyMatrixJson := json;
      homographyMatrix := matrix;
      this.hotspots := hotspots;
    }

    /** `GetHotspot`: the first hotspot with the given id, or none. */
    function GetHotspot(id: int): (r: Option<Hotspot>)
      ensures r == FindHotspot(hotspots, id)
      ensures r.Some? ==> r.value in hotspots && r.value.id == id
    {
      FindHotspot(hotspots, id)
    }
  }

  /** The matrix `ConvertToMatrix` builds agrees with the array it was built from. */
  lemma ConvertedAgrees(json: seq<seq<real>>, matrix: array2<real>)
    requires ToMatrix(json).Ok? && Rows(matrix) == ToMatrix(json).value
    ensures Agree(json, matrix)
  {
    var rows := ToMatrix(json).value;
    assert |rows| == |json| && |json| > 0;
    assert |rows[0]| == |json[0]|;
  }

  /**
   * The deserialising constructor: a missing matrix is refused first, then
   * the matrix conversion may throw, then missing hotspots are refused.
   */
  method FromJson(json: Option<seq<seq<real>>>, hotspots: Option<seq<Hotspot>>) returns (r: Result<Config, ConfigError>)
    ensures json.None? ==> r == Err(ArgumentNull("homographyMatrixJson"))
    ensures json.Some? && ToMatrix(json.value).Err? ==> r == Err(ToMatrix(json.value).error)
    ensures json.Some? && ToMatrix(json.value).Ok? && hotspots.None? ==> r == Err(ArgumentNull("hotspots"))
    ensures r.Ok? <==> json.Some? && ToMatrix(json.value).Ok? && hotspots.Some?
    ensures r.Ok? ==> && r.value.Valid() && r.value.homographyMatrixJson == json.value
                      && r.value.hotspots == hotspots.value
                      && Rows(r.value.homographyMatrix) == ToMatrix(json.value).value
  {
    if json.None? {
      return Err(ArgumentNull("homographyMatrixJson"));
    }
    var converted := ConvertToMatrix(json.value);
    if converted.Err? {
      return Err(converted.error);
    }
    if hotspots.None? {
      return Err(ArgumentNull("hotspots"));
    }
    ConvertedAgrees(json.value, converted.value);
    var config := new Config.Make(json.value, converted.value, hotspots.value);
    return Ok(config);
  }
}
