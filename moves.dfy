/**
 * Group drags in the cooking-chart editor: while dragging, every selected card,
 * step line and text is put at its position from the start of the drag plus the
 * pointer delta and clamped; on release the group is snapped to the grid.
 */
module Moves {
  import opened Geometry
  import opened Document
  import Seqs

  datatype Pos = Pos(x: int, y: int)

  /**
   * `applyGroupMove` on one card: the recorded start position (the current one
   * when the card has no recorded start) plus the delta, then clamped.
   */
  function MovedNode(n: Node, dx: int, dy: int, start: map<int, Pos>): (r: Node)
    ensures r.id == n.id && r.h == n.h && r.title == n.title
    ensures r == n.(x := r.x, y := r.y)
    ensures 0 <= r.x <= BoardW - NodeW && 0 <= r.y
    ensures n.id in start && 0 <= start[n.id].x + dx <= BoardW - NodeW ==> r.x == start[n.id].x + dx
    ensures n.id in start && 0 <= start[n.id].y + dy <= BoardH - n.h ==> r.y == start[n.id].y + dy
  {
    var p := if n.id in start then start[n.id] else Pos(n.x, n.y);
    ClampNode(n.(x := p.x + dx, y := p.y + dy))
  }

  function MoveNodeFn(dx: int, dy: int, start: map<int, Pos>): Node -> Node {
    (n: Node) => MovedNode(n, dx, dy, start)
  }

  /** A step line follows the vertical delta only, clamped into [0, 4000]. */
  function MovedLine(l: StepLine, dy: int, start: map<int, int>): (r: StepLine)
    ensures r.id == l.id && r.caption == l.caption && 0 <= r.y <= BoardH
    ensures l.id in start && 0 <= start[l.id] + dy <= BoardH ==> r.y == start[l.id] + dy
  {
    l.(y := Clamp(0, BoardH, (if l.id in start then start[l.id] else l.y) + dy))
  }

  function MoveLineFn(dy: int, start: map<int, int>): StepLine -> StepLine {
    (l: StepLine) => MovedLine(l, dy, start)
  }

  /** `applyTextGroupMove` on one text: a text without a recorded start stays where it is. */
  function MovedText(t: TextItem, dx: int, dy: int, start: map<int, Pos>): (r: TextItem)
    ensures r.id == t.id && r.text == t.text && r.bold == t.bold && r.w == t.w && r.h == t.h
    ensures t.id !in start ==> r == t
    ensures t.id in start && 0 <= start[t.id].x + dx <= BoardW - t.w ==> r.x == start[t.id].x + dx
  {
    if t.id in start then ClampText(t.(x := start[t.id].x + dx, y := start[t.id].y + dy)) else t
  }

  function MoveTextFn(dx: int, dy: int, start: map<int, Pos>): TextItem -> TextItem {
    (t: TextItem) => MovedText(t, dx, dy, start)
  }

  /** `snapGroup` on one card: snapped, then clamped. */
  function SnappedNode(n: Node): (r: Node)
    ensures r.id == n.id && r.h == n.h
    ensures r.x % GridSize == 0 && 0 <= r.x <= BoardW - NodeW
    ensures n.h % GridSize == 0 && n.h <= BoardH ==> r.y % GridSize == 0
  {
    ClampGrid(0, BoardW - NodeW, Snap(n.x));
    ClampGrid(0, BoardH - n.h, Snap(n.y));
    ClampNode(n.(x := Snap(n.x), y := Snap(n.y)))
  }

  function SnapNodeFn(): Node -> Node {
    (n: Node) => SnappedNode(n)
  }

  /** `snapGroup` on one step line: a grid row of the board. */
  function SnappedLine(l: StepLine): (r: StepLine)
    ensures r.id == l.id && r.y % GridSize == 0 && 0 <= r.y <= BoardH
  {
    ClampGrid(0, BoardH, Snap(l.y));
    l.(y := Clamp(0, BoardH, Snap(l.y)))
  }

  function SnapLineFn(): StepLine -> StepLine {
    (l: StepLine) => SnappedLine(l)
  }

  /** `snapTextGroup` on one text. */
  function SnappedText(t: TextItem): (r: TextItem)
    ensures r.id == t.id && r.w == t.w && r.h == t.h && r.text == t.text
    ensures r.x % GridSize == 0 || (t.w <= BoardW && r.x == BoardW - t.w)
  {
    ClampText(t.(x := Snap(t.x), y := Snap(t.y)))
  }

  function SnapTextFn(): TextItem -> TextItem {
    (t: TextItem) => SnappedText(t)
  }

  /**
   * Positions are taken from the start of the drag, not accumulated: after any
   * number of pointer moves a recorded card sits where the last delta puts it.
   */
  lemma MoveFromStart(n: Node, dx1: int, dy1: int, dx2: int, dy2: int, start: map<int, Pos>)
    requires n.id in start
    ensures MovedNode(MovedNode(n, dx1, dy1, start), dx2, dy2, start) == MovedNode(n, dx2, dy2, start)
  {
  }

  /**
   * With distinct card ids and a duplicate-free id list, a group move moves
   * exactly the listed cards, each once, and leaves every other card as it was.
   */
  lemma GroupMoveSpec(nodes: seq<Node>, ids: seq<int>, dx: int, dy: int, start: map<int, Pos>)
    requires Seqs.KeysUnique(nodes, NodeId) && Seqs.NoDup(ids)
    ensures var r := Seqs.UpdateAllById(nodes, NodeId, ids, MoveNodeFn(dx, dy, start));
      forall k :: 0 <= k < |nodes| ==> r[k] == if nodes[k].id in ids then MovedNode(nodes[k], dx, dy, start) else nodes[k]
  {
    Seqs.UpdateAllByIdSpec(nodes, NodeId, ids, MoveNodeFn(dx, dy, start));
  }

  lemma LineGroupMoveSpec(lines: seq<StepLine>, ids: seq<int>, dy: int, start: map<int, int>)
    requires Seqs.KeysUnique(lines, LineId) && Seqs.NoDup(ids)
    ensures var r := Seqs.UpdateAllById(lines, LineId, ids, MoveLineFn(dy, start));
      forall k :: 0 <= k < |lines| ==> r[k] == if lines[k].id in ids then MovedLine(lines[k], dy, start) else lines[k]
  {
    Seqs.UpdateAllByIdSpec(lines, LineId, ids, MoveLineFn(dy, start));
  }

  lemma TextGroupMoveSpec(texts: seq<TextItem>, ids: seq<int>, dx: int, dy: int, start: map<int, Pos>)
    requires Seqs.KeysUnique(texts, TextId) && Seqs.NoDup(ids)
    ensures var r := Seqs.UpdateAllById(texts, TextId, ids, MoveTextFn(dx, dy, start));
      forall k :: 0 <= k < |texts| ==> r[k] == if texts[k].id in ids && texts[k].id in start then MovedText(texts[k], dx, dy, start) else texts[k]
  {
    Seqs.UpdateAllByIdSpec(texts, TextId, ids, MoveTextFn(dx, dy, start));
  }

  /** After the release snap every listed card of grid height sits on the grid, and every listed line on a grid row. */
  lemma SnapGroupOnGrid(nodes: seq<Node>, lines: seq<StepLine>, ids: seq<int>, lineIds: seq<int>)
    requires Seqs.KeysUnique(nodes, NodeId) && Seqs.NoDup(ids)
    requires Seqs.KeysUnique(lines, LineId) && Seqs.NoDup(lineIds)
    ensures var r := Seqs.UpdateAllById(nodes, NodeId, ids, SnapNodeFn());
      forall k :: 0 <= k < |nodes| && nodes[k].id in ids && nodes[k].h % GridSize == 0 && nodes[k].h <= BoardH ==>
        r[k].x % GridSize == 0 && r[k].y % GridSize == 0
    ensures var r := Seqs.UpdateAllById(lines, LineId, lineIds, SnapLineFn());
      forall k :: 0 <= k < |lines| && lines[k].id in lineIds ==> r[k].y % GridSize == 0 && 0 <= r[k].y <= BoardH
  {
    Seqs.UpdateAllByIdSpec(nodes, NodeId, ids, SnapNodeFn());
    Seqs.UpdateAllByIdSpec(lines, LineId, lineIds, SnapLineFn());
  }
}
