/** The index skeleton of generateSearchGrid (main.go:270-294). The coordinate computed for
    iteration (i, j) is floating-point arithmetic on the centre and the deltas; here it is the
    function pointAt, and what is modelled is which iterations run and where their points go. */
module Grid {
  import opened Basics
  import opened Places

  /** The position of point (i, j) in a row-major list with `width` points per row. */
  lemma RowMajorIndex(i: nat, j: nat, width: nat)
    requires j < width
    ensures (i * width + j) / width == i && (i * width + j) % width == j
  {
    var k := i * width + j;
    var q, r := k / width, k % width;
    assert k == q * width + r;
    if q > i {
      MulMonotone(i + 1, q, width);
    }
    if q < i {
      MulMonotone(q + 1, i, width);
    }
  }

  /** Position of the point of iteration (i, j) in a row-major list of rows of `width`. */
  function Position(i: int, j: int, width: int): (k: int)
  {
    i * width + j
  }

  /** A list whose position k holds the point of iteration (k / width, k % width) holds the
      point of iteration (i, j) at position i * width + j. */
  lemma RowMajorPositions(points: seq<Coordinates>, rows: nat, width: nat, pointAt: (int, int) -> Coordinates)
    requires |points| == rows * width
    requires forall k :: 0 <= k < |points| ==> width > 0 && points[k] == pointAt(k / width, k % width)
    ensures forall i, j {:trigger Position(i, j, width)} :: 0 <= i < rows && 0 <= j < width ==>
      Position(i, j, width) < |points| && points[Position(i, j, width)] == pointAt(i, j)
  {
    forall i, j | 0 <= i < rows && 0 <= j < width
      ensures Position(i, j, width) < |points| && points[Position(i, j, width)] == pointAt(i, j)
    {
      MulMonotone(i + 1, rows, width);
      assert (i + 1) * width == i * width + width;
      RowMajorIndex(i, j, width);
    }
  }

  /** Runs the nested loop: latSteps rows of lngSteps points each, in row-major order, so that
      there are latSteps * lngSteps points and the point of iteration (i, j) lands at position
      i * lngSteps + j (Position). */
  method GenerateSearchGrid(latSteps: int, lngSteps: int, pointAt: (int, int) -> Coordinates)
    returns (points: seq<Coordinates>)
    requires latSteps * lngSteps >= 0
    ensures |points| == if latSteps <= 0 || lngSteps <= 0 then 0 else latSteps * lngSteps
    ensures forall i, j {:trigger Position(i, j, lngSteps)} :: 0 <= i < latSteps && 0 <= j < lngSteps ==>
      Position(i, j, lngSteps) < |points| && points[Position(i, j, lngSteps)] == pointAt(i, j)
  {
    points := [];
    var i := 0;
    while i < latSteps
      invariant if latSteps > 0 then 0 <= i <= latSteps else i == 0
      invariant lngSteps <= 0 ==> points == []
      invariant lngSteps > 0 ==> |points| == i * lngSteps
      invariant forall k :: 0 <= k < |points| ==>
        lngSteps > 0 && points[k] == pointAt(k / lngSteps, k % lngSteps)
    {
      var j := 0;
      while j < lngSteps
        invariant if lngSteps > 0 then 0 <= j <= lngSteps else j == 0
        invariant lngSteps <= 0 ==> points == []
        invariant lngSteps > 0 ==> |points| == i * lngSteps + j
        invariant forall k :: 0 <= k < |points| ==>
          lngSteps > 0 && points[k] == pointAt(k / lngSteps, k % lngSteps)
      {
        RowMajorIndex(i, j, lngSteps);
        points := points + [pointAt(i, j)];
        j := j + 1;
      }
      i := i + 1;
    }
    if latSteps > 0 && lngSteps > 0 {
      RowMajorPositions(points, latSteps, lngSteps, pointAt);
    }
  }
}
