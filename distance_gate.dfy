/// The distance gate: a detection may start a new entry only when the depth
/// sensor's distance at its centre lies strictly between the configured bounds.
module DistanceGate {
  import opened Geometry

  /** Size of the global `int distanceValue[640][480]` (v2/main.cpp:68, v1/main.cpp:69). */
  const GRID_COLUMNS := 640
  const GRID_ROWS := 480

  /** The depth grid has a quarter of the linear resolution of the colour image. */
  const DEPTH_SCALE := 4

  /** C++ `/` on `int`: the quotient truncated toward zero (Dafny's `/` is Euclidean). */
  function TruncDiv(a: int, b: int): (q: int)
    requires b > 0
    ensures 0 <= a ==> 0 <= q && q * b <= a < q * b + b
    ensures a < 0 ==> q <= 0 && q * b - b < a <= q * b
  {
    if 0 <= a then a / b else -((-a) / b)
  }

  /** The grid column looked up for a detection: `(r.x + r.width / 2) / 4`. */
  function CentreColumn(r: Rect): int
  {
    TruncDiv(r.x + TruncDiv(r.width, 2), DEPTH_SCALE)
  }

  /** The grid row looked up for a detection: `(r.y + r.height / 2) / 4`. */
  function CentreRow(r: Rect): int
  {
    TruncDiv(r.y + TruncDiv(r.height, 2), DEPTH_SCALE)
  }

  /** A distance grid shaped like `distanceValue`: 640 columns of 480 samples (millimetres). */
  predicate IsDistanceGrid(grid: seq<seq<int>>)
  {
    |grid| == GRID_COLUMNS && forall c :: 0 <= c < |grid| ==> |grid[c]| == GRID_ROWS
  }

  /** The centre lookup stays inside the array (the source never checks this). */
  predicate CentreInGrid(r: Rect)
  {
    0 <= CentreColumn(r) < GRID_COLUMNS && 0 <= CentreRow(r) < GRID_ROWS
  }

  /** Every detection of a frame has its centre lookup inside the array. */
  predicate AllCentresInGrid(faces: seq<Rect>)
  {
    forall i :: 0 <= i < |faces| ==> CentreInGrid(faces[i])
  }

  /** The distance sample at the detection's centre. */
  function CentreDistance(grid: seq<seq<int>>, r: Rect): int
    requires IsDistanceGrid(grid) && CentreInGrid(r)
  {
    grid[CentreColumn(r)][CentreRow(r)]
  }

  /** The gate of v2/main.cpp:545-546 and v1/main.cpp:401, 427: strictly
      between `minDist` and `maxDist`. */
  predicate Admissible(grid: seq<seq<int>>, r: Rect, minDist: int, maxDist: int)
    requires IsDistanceGrid(grid) && CentreInGrid(r)
  {
    minDist < CentreDistance(grid, r) < maxDist
  }

  /** A detection lying inside an image of the given size has its centre cell
      inside the image scaled down by four, so the lookup is in bounds for any
      image smaller than 2560 x 1920. */
  lemma CentreCellWithinImage(r: Rect, imageWidth: int, imageHeight: int)
    requires 0 <= r.x && 0 <= r.y && WellSized(r)
    requires r.x + r.width <= imageWidth && r.y + r.height <= imageHeight
    ensures 0 <= CentreColumn(r) <= imageWidth / DEPTH_SCALE
    ensures 0 <= CentreRow(r) <= imageHeight / DEPTH_SCALE
    ensures imageWidth < DEPTH_SCALE * GRID_COLUMNS && imageHeight < DEPTH_SCALE * GRID_ROWS ==> CentreInGrid(r)
  {
    var cx := r.x + r.width / 2;
    var cy := r.y + r.height / 2;
    assert CentreColumn(r) == cx / 4 && cx <= imageWidth;
    assert CentreRow(r) == cy / 4 && cy <= imageHeight;
    DivMonotone(cx, imageWidth);
    DivMonotone(cy, imageHeight);
  }

  lemma DivMonotone(a: int, b: int)
    requires 0 <= a <= b
    ensures a / DEPTH_SCALE <= b / DEPTH_SCALE
  {
  }
}
