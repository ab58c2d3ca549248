/// Detection rectangles and the overlap test both trackers use to decide that a
/// detection and a stored entry are the same face.
module Geometry {

  /** An axis-aligned detection rectangle (cv::Rect): top-left corner and size, in pixels. */
  datatype Rect = Rect(x: int, y: int, width: int, height: int)

  /** A rectangle as the detector reports it: no negative extent. */
  predicate WellSized(r: Rect)
  {
    0 <= r.width && 0 <= r.height
  }

  /** The overlap test of v2/main.cpp: neither rectangle lies wholly left of,
      right of, above or below the other. Edges are inclusive, so rectangles
      that only touch overlap. */
  predicate Overlaps(a: Rect, b: Rect)
  {
    && !(a.x + a.width < b.x)
    && !(a.x > b.x + b.width)
    && !(a.y + a.height < b.y)
    && !(a.y > b.y + b.height)
  }

  /** The point (px, py) lies in the closed region [x, x+width] x [y, y+height]. */
  predicate Covers(r: Rect, px: int, py: int)
  {
    r.x <= px <= r.x + r.width && r.y <= py <= r.y + r.height
  }

  /** For detector rectangles the test means exactly that the closed regions
      share a point. */
  lemma OverlapsIffCommonPoint(a: Rect, b: Rect)
    requires WellSized(a) && WellSized(b)
    ensures Overlaps(a, b) <==> exists px, py :: Covers(a, px, py) && Covers(b, px, py)
  {
    if Overlaps(a, b) {
      var px := if a.x < b.x then b.x else a.x;
      var py := if a.y < b.y then b.y else a.y;
      assert Covers(a, px, py) && Covers(b, px, py);
    }
  }

  /** The test does not depend on argument order, every detector rectangle
      overlaps itself, and rectangles meeting only at a corner overlap. */
  lemma OverlapsClosedSpans(a: Rect, b: Rect)
    ensures Overlaps(a, b) == Overlaps(b, a)
    ensures WellSized(a) ==> Overlaps(a, a)
    ensures WellSized(a) && WellSized(b) ==>
              Overlaps(a, Rect(a.x + a.width, a.y + a.height, b.width, b.height))
  {
  }
}
