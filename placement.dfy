/**
 * Automatic placement of a new card next to an existing one: the overlap test
 * with a margin, the free-slot test, and the bounded search of
 * `findNearbyFreePosition`, which tries the preferred point, then a vertical
 * walk, then square rings of growing size around it.
 */
module Placement {
  import opened Geometry
  import opened Document
  import opened Wrappers

  datatype Point = Point(x: int, y: int)

  const Margin: int := 18
  const StepX: int := 34
  const StepY: int := 28
  const VerticalSteps: int := 12
  const Rings: int := 10

  /**
   * `intersects(candidate, b)`: the two cards, each grown by the margin on its
   * right and bottom, are not separated along either axis.
   */
  predicate Intersects(ax: int, ay: int, ah: int, b: Node) {
    !(ax + NodeW + Margin <= b.x || b.x + NodeW + Margin <= ax ||
      ay + ah + Margin <= b.y || b.y + b.h + Margin <= ay)
  }

  /** Overlap, restated as the two open intervals meeting on both axes; the test is symmetric. */
  lemma IntersectsIffOverlap(ax: int, ay: int, ah: int, b: Node)
    ensures Intersects(ax, ay, ah, b) <==>
      (b.x - NodeW - Margin < ax < b.x + NodeW + Margin) &&
      (b.y - ah - Margin < ay < b.y + b.h + Margin)
    ensures Intersects(ax, ay, ah, b) <==> Intersects(b.x, b.y, b.h, Node(0, ax, ay, ah, "", Material, Gray, "", [], []))
  {
  }

  /** `canPlaceNodeAt`: no existing card intersects the candidate. */
  predicate CanPlaceNodeAt(nodes: seq<Node>, x: int, y: int, h: int) {
    if nodes == [] then true
    else !Intersects(x, y, h, nodes[0]) && CanPlaceNodeAt(nodes[1..], x, y, h)
  }

  /** A place is free exactly when it intersects none of the cards. */
  lemma {:induction false} CanPlaceMeaning(nodes: seq<Node>, x: int, y: int, h: int)
    ensures CanPlaceNodeAt(nodes, x, y, h) <==> forall i :: 0 <= i < |nodes| ==> !Intersects(x, y, h, nodes[i])
  {
    if nodes != [] {
      CanPlaceMeaning(nodes[1..], x, y, h);
      assert forall i :: 1 <= i < |nodes| ==> nodes[1..][i - 1] == nodes[i];
    }
  }

  /** `clampedPoint`: the point snapped to the grid and then clamped for a card of height h. */
  function ClampedPoint(x: int, y: int, h: int): (r: Point)
    ensures 0 <= r.x <= BoardW - NodeW && r.x % GridSize == 0
    ensures 0 <= r.y && (h <= BoardH ==> r.y <= BoardH - h)
    ensures h % GridSize == 0 ==> r.y % GridSize == 0
  {
    ClampGrid(0, BoardW - NodeW, Snap(x));
    ClampGrid(0, BoardH - h, Snap(y));
    Point(Clamp(0, BoardW - NodeW, Snap(x)), Clamp(0, BoardH - h, Snap(y)))
  }

  /** The candidate must lie strictly beyond the origin row in the search direction. */
  predicate DirectionOk(y: int, originY: int, yDir: int) {
    if yDir > 0 then y > originY else y < originY
  }

  /** A point the search may return: in the right direction and free of every card. */
  predicate Acceptable(nodes: seq<Node>, p: Point, originY: int, yDir: int) {
    DirectionOk(p.y, originY, yDir) && CanPlaceNodeAt(nodes, p.x, p.y, NodeH)
  }

  /** A point on the board's grid where a default-height card fits. */
  predicate OnBoard(p: Point) {
    0 <= p.x <= BoardW - NodeW && 0 <= p.y <= BoardH - NodeH &&
    p.x % GridSize == 0 && p.y % GridSize == 0
  }

  /** The candidate `dx` columns and `dy` rows away from the base point. */
  function Cand(base: Point, dx: int, dy: int): (r: Point)
    ensures OnBoard(r)
  {
    ClampedPoint(base.x + dx * StepX, base.y + dy * StepY, NodeH)
  }

  /** The k-th entry of the column order `[0, 1, -1, 2, -2, ..., 10, -10]`. */
  function DxAt(k: int): int {
    if k <= 0 then 0 else if k % 2 == 1 then (k + 1) / 2 else -(k / 2)
  }

  /** The position of column offset `dx` in that order. */
  function DxIndex(dx: int): (k: int)
    requires -Rings <= dx <= Rings
    ensures 0 <= k < 2 * Rings + 1 && DxAt(k) == dx
  {
    if dx == 0 then 0 else if dx > 0 then 2 * dx - 1 else -2 * dx
  }

  function Abs(v: int): int { if v < 0 then -v else v }
  function Max(a: int, b: int): int { if a < b then b else a }

  /** The i-th point of the vertical walk. */
  function VCand(base: Point, yDir: int, i: int): (r: Point)
    ensures OnBoard(r)
    ensures OnBoard(base) ==> r.x == base.x
  {
    SnapOfGrid(base.x);
    ClampedPoint(base.x, base.y + yDir * i * StepY, NodeH)
  }

  /** The vertical walk: steps i .. 12 below (or above) the base point. */
  function SearchVertical(nodes: seq<Node>, base: Point, originY: int, yDir: int, i: int): (r: Option<Point>)
    requires 1 <= i <= VerticalSteps + 1
    decreases VerticalSteps + 1 - i
  {
    if i > VerticalSteps then None
    else
      var p := VCand(base, yDir, i);
      if Acceptable(nodes, p, originY, yDir) then Some(p)
      else SearchVertical(nodes, base, originY, yDir, i + 1)
  }

  /** What the vertical walk finds is acceptable and on the board's grid. */
  lemma {:induction false} SearchVerticalFound(nodes: seq<Node>, base: Point, originY: int, yDir: int, i: int)
    requires 1 <= i <= VerticalSteps + 1
    ensures var r := SearchVertical(nodes, base, originY, yDir, i);
      r.Some? ==> Acceptable(nodes, r.value, originY, yDir) && OnBoard(r.value)
    decreases VerticalSteps + 1 - i
  {
    if i <= VerticalSteps && !Acceptable(nodes, VCand(base, yDir, i), originY, yDir) {
      SearchVerticalFound(nodes, base, originY, yDir, i + 1);
    }
  }

  /** The rings from `ring` to 10, each column offset in order, each row offset from top to bottom. */
  function SearchRing(nodes: seq<Node>, base: Point, originY: int, yDir: int, ring: int): (r: Option<Point>)
    requires 1 <= ring <= Rings + 1
    decreases Rings + 1 - ring, 2 * Rings + 2, 0
    ensures r.Some? ==> Acceptable(nodes, r.value, originY, yDir) && OnBoard(r.value)
  {
    if ring > Rings then None
    else SearchDx(nodes, base, originY, yDir, ring, 0)
  }

  function SearchDx(nodes: seq<Node>, base: Point, originY: int, yDir: int, ring: int, k: int): (r: Option<Point>)
    requires 1 <= ring <= Rings && 0 <= k <= 2 * Rings + 1
    decreases Rings + 1 - ring, 2 * Rings + 1 - k, 2 * ring + 2
    ensures r.Some? ==> Acceptable(nodes, r.value, originY, yDir) && OnBoard(r.value)
  {
    if k == 2 * Rings + 1 then SearchRing(nodes, base, originY, yDir, ring + 1)
    else if Abs(DxAt(k)) > ring then SearchDx(nodes, base, originY, yDir, ring, k + 1)
    else SearchDy(nodes, base, originY, yDir, ring, k, -ring)
  }

  function SearchDy(nodes: seq<Node>, base: Point, originY: int, yDir: int, ring: int, k: int, dy: int): (r: Option<Point>)
    requires 1 <= ring <= Rings && 0 <= k < 2 * Rings + 1 && -ring <= dy <= ring + 1
    decreases Rings + 1 - ring, 2 * Rings + 1 - k, ring + 1 - dy
    ensures r.Some? ==> Acceptable(nodes, r.value, originY, yDir) && OnBoard(r.value)
  {
    if dy > ring then SearchDx(nodes, base, originY, yDir, ring, k + 1)
    else if Max(Abs(DxAt(k)), Abs(dy)) != ring then SearchDy(nodes, base, originY, yDir, ring, k, dy + 1)
    else
      var p := Cand(base, DxAt(k), dy);
      if Acceptable(nodes, p, originY, yDir) then Some(p)
      else SearchDy(nodes, base, originY, yDir, ring, k, dy + 1)
  }

  /** The whole search: the base point, then the vertical walk, then the rings. */
  function FindSpec(nodes: seq<Node>, px: int, py: int, originY: int, yDir: int): (r: Option<Point>)
    ensures r.Some? ==> Acceptable(nodes, r.value, originY, yDir) && OnBoard(r.value)
  {
    var base := ClampedPoint(px, py, NodeH);
    if Acceptable(nodes, base, originY, yDir) then Some(base)
    else
      var v := SearchVertical(nodes, base, originY, yDir, 1);
      SearchVerticalFound(nodes, base, originY, yDir, 1);
      if v.Some? then v else SearchRing(nodes, base, originY, yDir, 1)
  }

  // The search gives up only when every one of its 1 + 12 + 440 candidates is rejected.

  predicate RingsRejected(nodes: seq<Node>, base: Point, originY: int, yDir: int, ring: int) {
    forall dx, dy :: -Rings <= dx <= Rings && -Rings <= dy <= Rings && ring <= Max(Abs(dx), Abs(dy)) ==>
      !Acceptable(nodes, Cand(base, dx, dy), originY, yDir)
  }

  predicate ColumnsRejected(nodes: seq<Node>, base: Point, originY: int, yDir: int, ring: int, k: int) {
    forall j, dy :: k <= j < 2 * Rings + 1 && -ring <= dy <= ring && Max(Abs(DxAt(j)), Abs(dy)) == ring ==>
      !Acceptable(nodes, Cand(base, DxAt(j), dy), originY, yDir)
  }

  predicate RowsRejected(nodes: seq<Node>, base: Point, originY: int, yDir: int, ring: int, k: int, dy0: int) {
    forall dy :: dy0 <= dy <= ring && Max(Abs(DxAt(k)), Abs(dy)) == ring ==>
      !Acceptable(nodes, Cand(base, DxAt(k), dy), originY, yDir)
  }

  lemma {:induction false} SearchVerticalNone(nodes: seq<Node>, base: Point, originY: int, yDir: int, i: int)
    requires 1 <= i <= VerticalSteps + 1
    requires SearchVertical(nodes, base, originY, yDir, i) == None
    ensures forall j :: i <= j <= VerticalSteps ==> !Acceptable(nodes, VCand(base, yDir, j), originY, yDir)
    decreases VerticalSteps + 1 - i
  {
    if i <= VerticalSteps {
      SearchVerticalNone(nodes, base, originY, yDir, i + 1);
    }
  }

  lemma {:induction false} SearchRingNone(nodes: seq<Node>, base: Point, originY: int, yDir: int, ring: int)
    requires 1 <= ring <= Rings + 1
    requires SearchRing(nodes, base, originY, yDir, ring) == None
    ensures RingsRejected(nodes, base, originY, yDir, ring)
    decreases Rings + 1 - ring, 2 * Rings + 2, 0
  {
    if ring <= Rings {
      SearchDxNone(nodes, base, originY, yDir, ring, 0);
      forall dx, dy | -Rings <= dx <= Rings && -Rings <= dy <= Rings && ring <= Max(Abs(dx), Abs(dy))
        ensures !Acceptable(nodes, Cand(base, dx, dy), originY, yDir)
      {
        if Max(Abs(dx), Abs(dy)) == ring {
          var j := DxIndex(dx);
          assert DxAt(j) == dx;
        }
      }
    }
  }

  lemma {:induction false} SearchDxNone(nodes: seq<Node>, base: Point, originY: int, yDir: int, ring: int, k: int)
    requires 1 <= ring <= Rings && 0 <= k <= 2 * Rings + 1
    requires SearchDx(nodes, base, originY, yDir, ring, k) == None
    ensures ColumnsRejected(nodes, base, originY, yDir, ring, k)
    ensures RingsRejected(nodes, base, originY, yDir, ring + 1)
    decreases Rings + 1 - ring, 2 * Rings + 1 - k, 2 * ring + 2
  {
    if k == 2 * Rings + 1 {
      SearchRingNone(nodes, base, originY, yDir, ring + 1);
    } else {
      if Abs(DxAt(k)) > ring {
        SearchDxNone(nodes, base, originY, yDir, ring, k + 1);
        ColumnOffRing(nodes, base, originY, yDir, ring, k);
      } else {
        SearchDyNone(nodes, base, originY, yDir, ring, k, -ring);
      }
      ColumnsStep(nodes, base, originY, yDir, ring, k);
    }
  }

  /** A column further out than the ring holds none of its candidates. */
  lemma ColumnOffRing(nodes: seq<Node>, base: Point, originY: int, yDir: int, ring: int, k: int)
    requires Abs(DxAt(k)) > ring
    ensures RowsRejected(nodes, base, originY, yDir, ring, k, -ring)
  {
  }

  lemma ColumnsStep(nodes: seq<Node>, base: Point, originY: int, yDir: int, ring: int, k: int)
    requires 0 <= k
    requires RowsRejected(nodes, base, originY, yDir, ring, k, -ring)
    requires ColumnsRejected(nodes, base, originY, yDir, ring, k + 1)
    ensures ColumnsRejected(nodes, base, originY, yDir, ring, k)
  {
  }

  lemma {:induction false} SearchDyNone(nodes: seq<Node>, base: Point, originY: int, yDir: int, ring: int, k: int, dy: int)
    requires 1 <= ring <= Rings && 0 <= k < 2 * Rings + 1 && -ring <= dy <= ring + 1
    requires SearchDy(nodes, base, originY, yDir, ring, k, dy) == None
    ensures RowsRejected(nodes, base, originY, yDir, ring, k, dy)
    ensures ColumnsRejected(nodes, base, originY, yDir, ring, k + 1)
    ensures RingsRejected(nodes, base, originY, yDir, ring + 1)
    decreases Rings + 1 - ring, 2 * Rings + 1 - k, ring + 1 - dy
  {
    if dy > ring {
      SearchDxNone(nodes, base, originY, yDir, ring, k + 1);
    } else {
      SearchDyNone(nodes, base, originY, yDir, ring, k, dy + 1);
    }
  }

  /**
   * When the search finds nothing, the base point, all twelve steps of the
   * vertical walk and every ring candidate with offsets in [-10, 10] other than
   * (0, 0) were rejected.
   */
  lemma FindSpecNone(nodes: seq<Node>, px: int, py: int, originY: int, yDir: int)
    requires FindSpec(nodes, px, py, originY, yDir) == None
    ensures var base := ClampedPoint(px, py, NodeH);
      !Acceptable(nodes, base, originY, yDir) &&
      (forall i :: 1 <= i <= VerticalSteps ==> !Acceptable(nodes, VCand(base, yDir, i), originY, yDir)) &&
      (forall dx, dy :: -Rings <= dx <= Rings && -Rings <= dy <= Rings && (dx, dy) != (0, 0) ==>
         !Acceptable(nodes, Cand(base, dx, dy), originY, yDir))
  {
    var base := ClampedPoint(px, py, NodeH);
    assert SearchVertical(nodes, base, originY, yDir, 1) == None;
    assert SearchRing(nodes, base, originY, yDir, 1) == None;
    SearchVerticalNone(nodes, base, originY, yDir, 1);
    SearchRingNone(nodes, base, originY, yDir, 1);
    RingOneCoversAll(nodes, base, originY, yDir);
  }

  /** Every ring offset other than (0, 0) lies on ring 1 or further out. */
  lemma RingOneCoversAll(nodes: seq<Node>, base: Point, originY: int, yDir: int)
    requires RingsRejected(nodes, base, originY, yDir, 1)
    ensures forall dx, dy :: -Rings <= dx <= Rings && -Rings <= dy <= Rings && (dx, dy) != (0, 0) ==>
      !Acceptable(nodes, Cand(base, dx, dy), originY, yDir)
  {
    forall dx, dy | -Rings <= dx <= Rings && -Rings <= dy <= Rings && (dx, dy) != (0, 0)
      ensures !Acceptable(nodes, Cand(base, dx, dy), originY, yDir)
    {
      assert 1 <= Max(Abs(dx), Abs(dy));
    }
  }

  /** `findNearbyFreePosition`, with the loops of the original and its early returns. */
  method FindNearbyFreePosition(nodes: seq<Node>, px: int, py: int, originY: int, yDir: int) returns (r: Option<Point>)
    ensures r == FindSpec(nodes, px, py, originY, yDir)
  {
    var base := ClampedPoint(px, py, NodeH);
    if Acceptable(nodes, base, originY, yDir) {
      return Some(base);
    }
    r := WalkVertically(nodes, base, originY, yDir);
    if r.Some? {
      return;
    }
    var dxOrder := ColumnOrder();
    r := SearchRings(nodes, base, originY, yDir, dxOrder);
  }

  /** The vertical phase of the search: twelve steps away from the base point, the first free one wins. */
  method WalkVertically(nodes: seq<Node>, base: Point, originY: int, yDir: int) returns (r: Option<Point>)
    ensures r == SearchVertical(nodes, base, originY, yDir, 1)
  {
    var i := 1;
    while i <= VerticalSteps
      invariant 1 <= i <= VerticalSteps + 1
      invariant SearchVertical(nodes, base, originY, yDir, 1) == SearchVertical(nodes, base, originY, yDir, i)
    {
      var p := VCand(base, yDir, i);
      VerticalStep(nodes, base, originY, yDir, i);
      if DirectionOk(p.y, originY, yDir) && CanPlaceNodeAt(nodes, p.x, p.y, NodeH) {
        return Some(p);
      }
      i := i + 1;
    }
    return None;
  }

  /** One step of the vertical walk. */
  lemma VerticalStep(nodes: seq<Node>, base: Point, originY: int, yDir: int, i: int)
    requires 1 <= i <= VerticalSteps
    ensures var p := VCand(base, yDir, i);
      SearchVertical(nodes, base, originY, yDir, i) ==
        if DirectionOk(p.y, originY, yDir) && CanPlaceNodeAt(nodes, p.x, p.y, NodeH) then Some(p)
        else SearchVertical(nodes, base, originY, yDir, i + 1)
  {
  }

  /** The column order, built as the original builds it. */
  method ColumnOrder() returns (dxOrder: seq<int>)
    ensures |dxOrder| == 2 * Rings + 1
    ensures forall k :: 0 <= k < |dxOrder| ==> dxOrder[k] == DxAt(k)
  {
    dxOrder := [0];
    var j := 1;
    while j <= Rings
      invariant 1 <= j <= Rings + 1
      invariant |dxOrder| == 2 * j - 1
      invariant forall k :: 0 <= k < |dxOrder| ==> dxOrder[k] == DxAt(k)
    {
      dxOrder := dxOrder + [j, -j];
      j := j + 1;
    }
  }

  /** The ring phase of the search: rings 1 to 10, column by column, row by row. */
  method SearchRings(nodes: seq<Node>, base: Point, originY: int, yDir: int, dxOrder: seq<int>) returns (r: Option<Point>)
    requires |dxOrder| == 2 * Rings + 1
    requires forall k :: 0 <= k < |dxOrder| ==> dxOrder[k] == DxAt(k)
    ensures r == SearchRing(nodes, base, originY, yDir, 1)
  {
    var ring := 1;
    while ring <= Rings
      invariant 1 <= ring <= Rings + 1
      invariant SearchRing(nodes, base, originY, yDir, 1) == SearchRing(nodes, base, originY, yDir, ring)
    {
      var k := 0;
      while k < |dxOrder|
        invariant 0 <= k <= 2 * Rings + 1
        invariant SearchRing(nodes, base, originY, yDir, 1) == SearchDx(nodes, base, originY, yDir, ring, k)
      {
        var dx := dxOrder[k];
        if Abs(dx) <= ring {
          var dy := -ring;
          while dy <= ring
            invariant -ring <= dy <= ring + 1
            invariant SearchRing(nodes, base, originY, yDir, 1) == SearchDy(nodes, base, originY, yDir, ring, k, dy)
          {
            if Max(Abs(dx), Abs(dy)) == ring {
              var p := Cand(base, dx, dy);
              if DirectionOk(p.y, originY, yDir) && CanPlaceNodeAt(nodes, p.x, p.y, NodeH) {
                return Some(p);
              }
            }
            dy := dy + 1;
          }
        }
        k := k + 1;
      }
      ring := ring + 1;
    }
    return None;
  }
}
