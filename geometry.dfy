/**
 * The board's integer geometry in the cooking-chart editor: its constants,
 * rounding to the 20-unit grid and clamping into the 3200 x 4000 board.
 */
module Geometry {

  const BoardW: int := 3200
  const BoardH: int := 4000
  const NodeW: int := 220
  const NodeH: int := 100
  const NodeMinH: int := 56
  const AutoChildDy: int := 50
  const GridSize: int := 20
  /** Default width and height of a free text item. */
  const TextW: int := 220
  const TextH: int := 22

  /** `Math.max(lo, Math.min(hi, v))`: when `hi < lo` the lower bound wins. */
  function Clamp(lo: int, hi: int, v: int): (r: int)
    ensures r >= lo
    ensures lo <= hi ==> lo <= r <= hi
    ensures lo <= v <= hi ==> r == v
    ensures lo <= hi && v > hi ==> r == hi
    ensures v < lo ==> r == lo
  {
    if hi < v then (if hi < lo then lo else hi) else if v < lo then lo else v
  }

  /**
   * `Math.round(v / 20) * 20` on an integer: JavaScript rounds halves up, so the
   * result is the multiple of 20 in the half-open window (v - 10, v + 10].
   */
  function Snap(v: int): (r: int)
    ensures r % GridSize == 0
    ensures v - 10 < r <= v + 10
  {
    ((v + 10) / GridSize) * GridSize
  }

  /** Only one multiple of 20 lies in the window, so it is the snapped value. */
  lemma SnapUnique(v: int, r: int)
    requires r % GridSize == 0 && v - 10 < r <= v + 10
    ensures r == Snap(v)
  {
    var s := Snap(v);
    assert (r - s) % GridSize == 0;
    assert -20 < r - s < 20;
  }

  /** Grid values are left where they are; hence snapping is idempotent. */
  lemma SnapOfGrid(v: int)
    ensures v % GridSize == 0 ==> Snap(v) == v
  {
    if v % GridSize == 0 {
      SnapUnique(v, v);
    }
  }

  lemma SnapIdempotent(v: int)
    ensures Snap(Snap(v)) == Snap(v)
  {
    SnapOfGrid(Snap(v));
  }

  /** Snapping is monotone. */
  lemma SnapMonotone(a: int, b: int)
    requires a <= b
    ensures Snap(a) <= Snap(b)
  {
    assert (a + 10) / GridSize <= (b + 10) / GridSize;
  }

  /** Clamping a grid value between grid bounds keeps it on the grid. */
  lemma ClampGrid(lo: int, hi: int, v: int)
    requires lo % GridSize == 0 && v % GridSize == 0
    ensures hi % GridSize == 0 ==> Clamp(lo, hi, v) % GridSize == 0
  {
  }
}
