/**
 * The cooking-chart editor: the global editor state and its undo stack, and
 * the operations the user triggers on them (adding cards, texts and step
 * lines, linking, auto-placing a child card, deleting, copy and paste, group
 * drags, selection and loading).
 */
module Editor {
  import opened Wrappers
  import opened Geometry
  import opened Document
  import Placement
  import Seqs
  import Strings
  import opened Clipboard
  import Moves
  import Marquee
  import JsValue
  import Loader

  const HistoryLimit: int := 120
  /** Each paste since the last copy moves the copies three grid cells further. */
  const PasteStep: int := 3 * GridSize

  // ---------------------------------------------------------------- undo stack

  /** `pushHistory`: push, then evict the oldest snapshot once there are more than 120. */
  function Push(h: seq<EditorState>, s: EditorState): (r: seq<EditorState>)
    ensures |h| <= HistoryLimit ==> |r| <= HistoryLimit
    ensures |r| >= 1 && r[|r| - 1] == s
  {
    if |h + [s]| > HistoryLimit then (h + [s])[1..] else h + [s]
  }

  /** Below the limit nothing is lost; at the limit exactly the oldest snapshot goes. */
  lemma PushEvictsOldest(h: seq<EditorState>, s: EditorState)
    requires |h| <= HistoryLimit
    ensures |h| < HistoryLimit ==> Push(h, s) == h + [s]
    ensures |h| == HistoryLimit ==> Push(h, s) == h[1..] + [s]
  {
    if |h| == HistoryLimit {
      assert (h + [s])[1..] == h[1..] + [s];
    }
  }

  /** `historyStack.pop()`. */
  function Pop(h: seq<EditorState>): (r: seq<EditorState>)
    requires h != []
    ensures |r| == |h| - 1 && r == h[..|h| - 1]
  {
    h[..|h| - 1]
  }

  /**
   * `createConnectedNode` as written when no free slot is found: it pushes a
   * snapshot and then pops it again.
   */
  function FailedCreateHistoryAsWritten(h: seq<EditorState>, s: EditorState): seq<EditorState> {
    Pop(Push(h, s))
  }

  /** Below the limit the push and pop cancel out. */
  lemma FailedCreateAsWrittenBelowLimit(h: seq<EditorState>, s: EditorState)
    requires |h| < HistoryLimit
    ensures FailedCreateHistoryAsWritten(h, s) == h
  {
    assert (h + [s])[..|h|] == h;
  }

  /** With a full stack the push evicts the oldest snapshot and the pop cannot bring it back. */
  lemma FailedCreateAsWrittenLosesOldest(h: seq<EditorState>, s: EditorState)
    requires |h| == HistoryLimit
    ensures FailedCreateHistoryAsWritten(h, s) == h[1..]
    ensures FailedCreateHistoryAsWritten(h, s) != h
  {
    PushEvictsOldest(h, s);
    assert (h[1..] + [s])[..|h| - 1] == h[1..];
  }

  /** `prev.nextStepLineId || 1`: a zero counter falls back to 1. */
  function OrOne(v: int): (r: int)
    ensures r != 0 && (v != 0 ==> r == v)
  {
    if v == 0 then 1 else v
  }

  /** `restoreEditorState`: the snapshot's values, with zero counters replaced by 1 and the selection de-duplicated. */
  function Restore(prev: EditorState): (r: EditorState)
    ensures r.nodes == prev.nodes && r.edges == prev.edges && r.edgeArrows == prev.edgeArrows
    ensures r.stepLines == prev.stepLines && r.texts == prev.texts && r.nextId == prev.nextId
    ensures r.nextStepLineId != 0 && r.nextTextId != 0
    ensures Seqs.NoDup(r.selectedNodeIds) && Seqs.NoDup(r.selectedStepLineIds)
    ensures Seqs.NoDup(r.selectedTextIds) && Seqs.NoDup(r.selectedEdgeKeys)
    ensures forall i :: i in r.selectedNodeIds <==> i in prev.selectedNodeIds
    ensures forall k :: k in r.selectedEdgeKeys <==> k in prev.selectedEdgeKeys
  {
    prev.(nextStepLineId := OrOne(prev.nextStepLineId), nextTextId := OrOne(prev.nextTextId),
          selectedNodeIds := Seqs.Dedup(prev.selectedNodeIds),
          selectedStepLineIds := Seqs.Dedup(prev.selectedStepLineIds),
          selectedTextIds := Seqs.Dedup(prev.selectedTextIds),
          selectedEdgeKeys := Seqs.Dedup(prev.selectedEdgeKeys))
  }

  /** A state the editor itself produces: non-zero counters and duplicate-free selection lists. */
  predicate Normal(s: EditorState) {
    s.nextStepLineId != 0 && s.nextTextId != 0 &&
    Seqs.NoDup(s.selectedNodeIds) && Seqs.NoDup(s.selectedStepLineIds) &&
    Seqs.NoDup(s.selectedTextIds) && Seqs.NoDup(s.selectedEdgeKeys)
  }

  /** Restoring a snapshot of a normal state gives that state back exactly: undo is lossless. */
  lemma RestoreOfNormal(s: EditorState)
    requires Normal(s)
    ensures Restore(s) == s
  {
    Seqs.DedupOfNoDup(s.selectedNodeIds);
    Seqs.DedupOfNoDup(s.selectedStepLineIds);
    Seqs.DedupOfNoDup(s.selectedTextIds);
    Seqs.DedupOfNoDup(s.selectedEdgeKeys);
  }

  // ---------------------------------------------------------------- auto-placed child

  /** The card `createConnectedNode` adds, at a point found by the search. */
  function NewChild(id: int, p: Placement.Point): Node {
    Node(id, p.x, p.y, NodeH, "", Material, Gray, "", [], [])
  }

  /**
   * `nodeById` followed by `autoChildPosition`: a new default card below the
   * parent (above it for the top side), or None when the parent is missing or
   * no free slot is found.
   */
  function ConnectedChild(s: EditorState, fromId: int, side: Side): (r: Option<Node>)
    ensures r.Some? ==> r.value.id == s.nextId && r.value.h == NodeH
  {
    var k := Seqs.FindById(s.nodes, NodeId, fromId);
    if k < 0 then None else ChildBeside(s.nodes, s.nextId, s.nodes[k], side)
  }

  /** `autoChildPosition(fromNode, fromSide)`: the search starts 140 below (or above) the parent. */
  function ChildBeside(nodes: seq<Node>, nextId: int, from: Node, side: Side): Option<Node> {
    var yDir := if side == Top then -1 else 1;
    var p := Placement.FindSpec(nodes, from.x, from.y + yDir * AutoChildDy, from.y, yDir);
    if p.None? then None else Some(NewChild(nextId, p.value))
  }

  /**
   * The child lands on the board, overlaps no card, and lies strictly below its
   * parent (above it for the top side); there is one only when the parent exists.
   */
  lemma ConnectedChildPlaced(s: EditorState, fromId: int, side: Side)
    ensures var r := ConnectedChild(s, fromId, side);
      r.Some? ==> Placement.OnBoard(Placement.Point(r.value.x, r.value.y)) &&
                  Placement.CanPlaceNodeAt(s.nodes, r.value.x, r.value.y, NodeH) &&
                  exists k :: 0 <= k < |s.nodes| && s.nodes[k].id == fromId &&
                              (if side == Top then r.value.y < s.nodes[k].y else r.value.y > s.nodes[k].y)
  {
    var k := Seqs.FindById(s.nodes, NodeId, fromId);
    if k >= 0 {
      var from := s.nodes[k];
      var yDir := if side == Top then -1 else 1;
      var p := Placement.FindSpec(s.nodes, from.x, from.y + yDir * AutoChildDy, from.y, yDir);
      if p.Some? {
        assert s.nodes[k].id == fromId;
      }
    }
  }

  // ---------------------------------------------------------------- step lines

  predicate Taken(lines: seq<StepLine>, y: int) {
    exists k :: 0 <= k < |lines| && lines[k].y == y
  }

  /** A grid row of the board: a multiple of 20 in [0, 4000]. */
  predicate GridRow(y: int) {
    0 <= y <= BoardH && y % GridSize == 0
  }

  function Abs(v: int): int { if v < 0 then -v else v }

  /**
   * What the row search of `addStepLineAt` promises about its answer `yy` for
   * the requested `y`: a grid row; the snapped row when it is free or when every
   * row is taken; otherwise a free row no farther from the snapped row than any
   * other free row, the lower one (larger y) on a tie.
   */
  ghost predicate ChosenRow(lines: seq<StepLine>, y: int, yy: int) {
    var y0 := Clamp(0, BoardH, Snap(y));
    GridRow(yy) &&
    (!Taken(lines, y0) ==> yy == y0) &&
    ((exists v :: GridRow(v) && !Taken(lines, v)) ==> !Taken(lines, yy)) &&
    ((forall v :: GridRow(v) ==> Taken(lines, v)) ==> yy == y0) &&
    (forall v :: GridRow(v) && !Taken(lines, v) ==> Abs(v - y0) > Abs(yy - y0) || (Abs(v - y0) == Abs(yy - y0) && v <= yy))
  }

  /** The promise pins the row down: two answers that keep it are the same row. */
  lemma ChosenRowUnique(lines: seq<StepLine>, y: int, a: int, b: int)
    requires ChosenRow(lines, y, a) && ChosenRow(lines, y, b)
    ensures a == b
  {
    var y0 := Clamp(0, BoardH, Snap(y));
    if !(forall v :: GridRow(v) ==> Taken(lines, v)) {
      var w :| GridRow(w) && !Taken(lines, w);
      assert !Taken(lines, a) && !Taken(lines, b);
      assert GridRow(a) && GridRow(b);
    }
  }

  /** The row search of `addStepLineAt`, trying below before above at each distance. */
  method FreeStepRow(lines: seq<StepLine>, y: int) returns (yy: int)
    ensures ChosenRow(lines, y, yy)
  {
    var y0 := Clamp(0, BoardH, Snap(y));
    ClampGrid(0, BoardH, Snap(y));
    yy := y0;
    if Taken(lines, yy) {
      var i := 1;
      while i < 400
        invariant 1 <= i <= 400 && yy == y0
        invariant forall v :: GridRow(v) && Abs(v - y0) < i * GridSize ==> Taken(lines, v)
      {
        var down := Clamp(0, BoardH, y0 + i * GridSize);
        if !Taken(lines, down) {
          yy := down;
          assert down == y0 + i * GridSize;
          return;
        }
        var up := Clamp(0, BoardH, y0 - i * GridSize);
        if !Taken(lines, up) {
          yy := up;
          assert up == y0 - i * GridSize;
          return;
        }
        RowsTakenStep(lines, y0, i);
        i := i + 1;
      }
    }
  }

  /** Both rows at distance `i` taken: every row closer than `i + 1` steps is taken. */
  lemma RowsTakenStep(lines: seq<StepLine>, y0: int, i: int)
    requires GridRow(y0) && i >= 1
    requires forall v :: GridRow(v) && Abs(v - y0) < i * GridSize ==> Taken(lines, v)
    requires Taken(lines, Clamp(0, BoardH, y0 + i * GridSize)) && Taken(lines, Clamp(0, BoardH, y0 - i * GridSize))
    ensures forall v :: GridRow(v) && Abs(v - y0) < (i + 1) * GridSize ==> Taken(lines, v)
  {
    forall v | GridRow(v) && Abs(v - y0) < (i + 1) * GridSize
      ensures Taken(lines, v)
    {
      var d := v / GridSize - y0 / GridSize;
      assert v - y0 == d * GridSize;
      if d >= i {
        assert d == i;
      } else if d <= -i {
        assert d == -i;
      } else {
        assert Abs(v - y0) < i * GridSize;
      }
    }
  }

  // ---------------------------------------------------------------- the editor

  /** The grid-offset spawn point of `nextRootPosition` for the `count`-th card. */
  function RootPosition(baseX: int, baseY: int, count: int): Placement.Point {
    Placement.Point(baseX + (count % 3) * 26, baseY + (count % 3) * 22)
  }

  /** The new card of `addNode`: snapped to the grid at the spawn point, then clamped. */
  function RootNode(id: int, p: Placement.Point): (r: Node)
    ensures r.id == id && r.h == NodeH
    ensures 0 <= r.x <= BoardW - NodeW && 0 <= r.y <= BoardH - NodeH
    ensures r.x % GridSize == 0 && r.y % GridSize == 0
  {
    ClampGrid(0, BoardW - NodeW, Snap(p.x));
    ClampGrid(0, BoardH - NodeH, Snap(p.y));
    ClampNode(Node(id, Snap(p.x), Snap(p.y), NodeH, "", Material, Gray, "", [], []))
  }

  /** The new text of `addText`: 220 by 22, snapped and clamped. */
  function RootText(id: int, p: Placement.Point): (r: TextItem)
    ensures r.id == id && r.w == TextW && r.h == TextH && r.text == "" && !r.bold
    ensures 0 <= r.x <= BoardW - TextW && 0 <= r.y <= BoardH - TextH
  {
    ClampText(TextItem(id, Snap(p.x), Snap(p.y), TextW, TextH, "", false))
  }

  /** Ids below the counter and pairwise distinct: a new item with the counter's id is fresh. */
  predicate FreshIds(s: EditorState) {
    Seqs.KeysUnique(s.nodes, NodeId) && (forall n :: n in s.nodes ==> n.id < s.nextId) &&
    Seqs.KeysUnique(s.stepLines, LineId) && (forall l :: l in s.stepLines ==> l.id < s.nextStepLineId) &&
    Seqs.KeysUnique(s.texts, TextId) && (forall t :: t in s.texts ==> t.id < s.nextTextId)
  }

  /** Appending a card that carries the node counter, and bumping the counter, keeps ids fresh. */
  lemma FreshIdsAddNode(s: EditorState, t: EditorState, c: Node)
    requires FreshIds(s) && c.id == s.nextId
    requires t.nodes == s.nodes + [c] && t.nextId == s.nextId + 1
    requires t.stepLines == s.stepLines && t.nextStepLineId == s.nextStepLineId
    requires t.texts == s.texts && t.nextTextId == s.nextTextId
    ensures FreshIds(t)
  {
    assert forall n :: n in t.nodes ==> n in s.nodes || n == c;
  }

  /** Appending a text that carries the text counter, and bumping the counter, keeps ids fresh. */
  lemma FreshIdsAddText(s: EditorState, t: EditorState, x: TextItem)
    requires FreshIds(s) && x.id == s.nextTextId
    requires t.texts == s.texts + [x] && t.nextTextId == s.nextTextId + 1
    requires t.nodes == s.nodes && t.nextId == s.nextId
    requires t.stepLines == s.stepLines && t.nextStepLineId == s.nextStepLineId
    ensures FreshIds(t)
  {
    assert forall u :: u in t.texts ==> u in s.texts || u == x;
  }

  /** The same for a step line and the line counter. */
  lemma FreshIdsAddLine(s: EditorState, t: EditorState, l: StepLine)
    requires FreshIds(s) && l.id == s.nextStepLineId
    requires t.stepLines == s.stepLines + [l] && t.nextStepLineId == s.nextStepLineId + 1
    requires t.nodes == s.nodes && t.nextId == s.nextId
    requires t.texts == s.texts && t.nextTextId == s.nextTextId
    ensures FreshIds(t)
  {
    assert forall u :: u in t.stepLines ==> u in s.stepLines || u == l;
  }

  // ---------------------------------------------------------------- paste

  /** The paste button is live: a clipboard holding at least one card or text. */
  predicate PasteEnabled(c: Option<Clip>) {
    c.Some? && (c.value.nodes != [] || c.value.texts != [])
  }

  /**
   * `pasteSelectionFromClipboard` for the `count`-th paste of clipboard `c`: the
   * copies appended with consecutive newIds ids, the copied edges re-attached,
   * and exactly the copies selected.
   */
  function PasteState(s: EditorState, c: Clip, count: int): (r: EditorState)
    ensures r.nextId == s.nextId + |c.nodes| && r.nextTextId == s.nextTextId + |c.texts|
    ensures |r.nodes| == |s.nodes| + |c.nodes| && r.nodes[..|s.nodes|] == s.nodes
    ensures |r.texts| == |s.texts| + |c.texts| && r.texts[..|s.texts|] == s.texts
    ensures forall k :: |s.nodes| <= k < |r.nodes| ==> r.nodes[k].id == s.nextId + (k - |s.nodes|)
    ensures forall k :: |s.texts| <= k < |r.texts| ==> r.texts[k].id == s.nextTextId + (k - |s.texts|)
    ensures r.stepLines == s.stepLines && r.edgeArrows == s.edgeArrows && r.nextStepLineId == s.nextStepLineId
    ensures r.selectedNodeIds == FreshRange(s.nextId, |c.nodes|) && r.selectedTextIds == FreshRange(s.nextTextId, |c.texts|)
    ensures r.selectedStepLineIds == [] && r.selectedEdgeKeys == []
  {
    var offset := PasteOffset(count);
    var ns := PastedNodes(c.nodes, s.nextId, offset);
    var ts := PastedTexts(c.texts, s.nextTextId, offset);
    assert forall k :: |s.nodes| <= k < |s.nodes| + |ns| ==> (s.nodes + ns)[k] == ns[k - |s.nodes|];
    assert forall k :: |s.texts| <= k < |s.texts| + |ts| ==> (s.texts + ts)[k] == ts[k - |s.texts|];
    s.(nodes := s.nodes + ns,
       edges := PasteEdges(s.edges, c.edges, PasteIdMap(c.nodes, s.nextId)),
       texts := s.texts + ts,
       nextId := s.nextId + |c.nodes|, nextTextId := s.nextTextId + |c.texts|,
       selectedNodeIds := FreshRange(s.nextId, |c.nodes|), selectedStepLineIds := [],
       selectedTextIds := FreshRange(s.nextTextId, |c.texts|), selectedEdgeKeys := [])
  }

  /** Pasting keeps ids newIds: the copies' ids are new, distinct and below the advanced counters. */
  lemma PasteKeepsFreshIds(s: EditorState, c: Clip, count: int)
    requires FreshIds(s)
    ensures FreshIds(PasteState(s, c, count))
  {
    var r := PasteState(s, c, count);
    var n0, t0 := |s.nodes|, |s.texts|;
    forall i, j | 0 <= i < j < |r.nodes| ensures r.nodes[i].id != r.nodes[j].id {
      if j < n0 {
        assert r.nodes[i] == s.nodes[i] && r.nodes[j] == s.nodes[j];
      } else if i < n0 {
        assert r.nodes[i] == s.nodes[i] && s.nodes[i] in s.nodes;
      }
    }
    forall n | n in r.nodes ensures n.id < r.nextId {
      var k :| 0 <= k < |r.nodes| && r.nodes[k] == n;
      if k < n0 {
        assert r.nodes[k] == s.nodes[k] && s.nodes[k] in s.nodes;
      }
    }
    forall i, j | 0 <= i < j < |r.texts| ensures r.texts[i].id != r.texts[j].id {
      if j < t0 {
        assert r.texts[i] == s.texts[i] && r.texts[j] == s.texts[j];
      } else if i < t0 {
        assert r.texts[i] == s.texts[i] && s.texts[i] in s.texts;
      }
    }
    forall t | t in r.texts ensures t.id < r.nextTextId {
      var k :| 0 <= k < |r.texts| && r.texts[k] == t;
      if k < t0 {
        assert r.texts[k] == s.texts[k] && s.texts[k] in s.texts;
      }
    }
  }

  /** After a paste the selection is exactly the pasted cards and texts. */
  lemma PasteSelectsCopies(s: EditorState, c: Clip, count: int)
    ensures var r := PasteState(s, c, count);
      (forall i :: i in r.selectedNodeIds <==> exists k :: |s.nodes| <= k < |r.nodes| && r.nodes[k].id == i) &&
      (forall i :: i in r.selectedTextIds <==> exists k :: |s.texts| <= k < |r.texts| && r.texts[k].id == i)
  {
    var r := PasteState(s, c, count);
    forall i | i in r.selectedNodeIds ensures exists k :: |s.nodes| <= k < |r.nodes| && r.nodes[k].id == i {
      var j :| 0 <= j < |c.nodes| && r.selectedNodeIds[j] == i;
      var k := |s.nodes| + j;
      assert r.nodes[k].id == i;
    }
    forall i | i in r.selectedTextIds ensures exists k :: |s.texts| <= k < |r.texts| && r.texts[k].id == i {
      var j :| 0 <= j < |c.texts| && r.selectedTextIds[j] == i;
      var k := |s.texts| + j;
      assert r.texts[k].id == i;
    }
    forall k | |s.nodes| <= k < |r.nodes| ensures r.nodes[k].id in r.selectedNodeIds {
      assert r.selectedNodeIds[k - |s.nodes|] == r.nodes[k].id;
    }
    forall k | |s.texts| <= k < |r.texts| ensures r.texts[k].id in r.selectedTextIds {
      assert r.selectedTextIds[k - |s.texts|] == r.texts[k].id;
    }
  }

  // ---------------------------------------------------------------- bold toggle

  /** The bold shortcut: every text named in `ids` has its bold flag flipped; nothing else changes. */
  function BoldToggled(ts: seq<TextItem>, ids: seq<int>): (r: seq<TextItem>)
    ensures |r| == |ts|
    ensures forall k :: 0 <= k < |ts| ==> r[k].(bold := ts[k].bold) == ts[k] && (r[k].bold <==> (ts[k].bold != (ts[k].id in ids)))
  {
    Seqs.Map(ts, (t: TextItem) => if t.id in ids then t.(bold := !t.bold) else t)
  }

  /** The loop of the bold shortcut: `texts.forEach(t => { if (selected.has(t.id)) t.bold = !t.bold; })`. */
  method ToggleEach(ts: seq<TextItem>, ids: seq<int>) returns (r: seq<TextItem>)
    ensures r == BoldToggled(ts, ids)
  {
    r := ts;
    var i := 0;
    while i < |ts|
      invariant 0 <= i <= |ts| == |r|
      invariant forall k :: 0 <= k < i ==> r[k] == BoldToggled(ts, ids)[k]
      invariant forall k :: i <= k < |ts| ==> r[k] == ts[k]
    {
      if r[i].id in ids {
        r := r[i := r[i].(bold := !r[i].bold)];
      }
      i := i + 1;
    }
  }

  /** Pressing the shortcut twice with the same selection gives the texts back. */
  lemma BoldToggledTwice(ts: seq<TextItem>, ids: seq<int>)
    ensures BoldToggled(BoldToggled(ts, ids), ids) == ts
  {
    var r := BoldToggled(BoldToggled(ts, ids), ids);
    forall k | 0 <= k < |ts| ensures r[k] == ts[k] {
      assert BoldToggled(ts, ids)[k].id == ts[k].id;
    }
  }

  /** The card loop of the paste: each copy gets the next id, and the id map records the pairing. */
  method PasteCardLoop(nodes: seq<Node>, first: int, cs: seq<ClipNode>, offset: int)
    returns (ns: seq<Node>, next: int, idMap: map<int, int>, newIds: seq<int>)
    ensures ns == nodes + PastedNodes(cs, first, offset) && next == first + |cs|
    ensures idMap == PasteIdMap(cs, first) && newIds == FreshRange(first, |cs|)
  {
    var added: seq<Node> := [];
    next, idMap, newIds := first, map[], [];
    var i := 0;
    while i < |cs|
      invariant 0 <= i <= |cs| && next == first + i
      invariant added == PastedNodes(cs[..i], first, offset)
      invariant idMap == PasteIdMap(cs[..i], first) && newIds == FreshRange(first, i)
    {
      var n := cs[i];
      var freshId := next;
      next := next + 1;
      var copied := PastedNode(n, first, i, offset);
      added := added + [copied];
      newIds := newIds + [freshId];
      idMap := idMap[n.sourceId := freshId];
      PastedNodesSnoc(cs, i, first, offset);
      PasteIdMapSnoc(cs, i, first);
      i := i + 1;
    }
    assert cs[..|cs|] == cs;
    ns := nodes + added;
  }

  /** The edge loop of the paste, in clipboard order: `upsertEdge` for each edge whose ends map to truthy ids. */
  method PasteEdgeLoop(edges: seq<Edge>, ces: seq<Edge>, idMap: map<int, int>) returns (es: seq<Edge>)
    ensures es == PasteEdges(edges, ces, idMap)
  {
    es := edges;
    var j := 0;
    while j < |ces|
      invariant 0 <= j <= |ces|
      invariant es == PasteEdges(edges, ces[..j], idMap)
    {
      var e := ces[j];
      assert ces[..j + 1][..j] == ces[..j];
      if e.from in idMap && e.to in idMap && idMap[e.from] != 0 && idMap[e.to] != 0 {
        es := Upsert(es, Edge(idMap[e.from], idMap[e.to], e.fromSide, e.toSide));
      }
      j := j + 1;
    }
    assert ces[..|ces|] == ces;
  }

  /** The text loop of the paste. */
  method PasteTextLoop(texts: seq<TextItem>, first: int, ts: seq<ClipText>, offset: int)
    returns (rs: seq<TextItem>, next: int, newIds: seq<int>)
    ensures rs == texts + PastedTexts(ts, first, offset) && next == first + |ts|
    ensures newIds == FreshRange(first, |ts|)
  {
    var added: seq<TextItem> := [];
    next, newIds := first, [];
    var i := 0;
    while i < |ts|
      invariant 0 <= i <= |ts| && next == first + i
      invariant added == PastedTexts(ts[..i], first, offset) && newIds == FreshRange(first, i)
    {
      var t := ts[i];
      var freshId := next;
      next := next + 1;
      var copied := ClampText(TextItem(freshId, t.x + offset, t.y + offset, t.w, t.h, t.text, t.bold));
      added := added + [copied];
      newIds := newIds + [freshId];
      PastedTextsSnoc(ts, i, first, offset);
      FreshRangeSnoc(first, i);
      i := i + 1;
    }
    assert ts[..|ts|] == ts;
    rs := texts + added;
  }

  /** `nodeById` and `autoChildPosition` for `createConnectedNode`: the card to add, if any. */
  method ChildFor(s: EditorState, fromId: int, fromSide: Side) returns (child: Option<Node>)
    ensures child == ConnectedChild(s, fromId, fromSide)
  {
    var k := Seqs.FindById(s.nodes, NodeId, fromId);
    if k < 0 {
      return None;
    }
    child := PlaceChild(s.nodes, s.nextId, s.nodes[k], fromSide);
  }

  /** `autoChildPosition` run with the search's loops. */
  method PlaceChild(nodes: seq<Node>, nextId: int, from: Node, side: Side) returns (child: Option<Node>)
    ensures child == ChildBeside(nodes, nextId, from, side)
  {
    var yDir := if side == Top then -1 else 1;
    var p := Placement.FindNearbyFreePosition(nodes, from.x, from.y + yDir * AutoChildDy, from.y, yDir);
    child := if p.None? then None else Some(NewChild(nextId, p.value));
  }

  /** The three paste loops run over one state record, then the counters and selection are set. */
  method PasteInto(s: EditorState, c: Clip, count: int) returns (r: EditorState)
    ensures r == PasteState(s, c, count)
  {
    var offset := PasteOffset(count);
    var ns, nextId, idMap, nodeIds := PasteCardLoop(s.nodes, s.nextId, c.nodes, offset);
    var es := PasteEdgeLoop(s.edges, c.edges, idMap);
    var ts, nextTextId, textIds := PasteTextLoop(s.texts, s.nextTextId, c.texts, offset);
    r := s.(nodes := ns, edges := es, texts := ts, nextId := nextId, nextTextId := nextTextId,
            selectedNodeIds := nodeIds, selectedStepLineIds := [], selectedTextIds := textIds, selectedEdgeKeys := []);
  }

  /**
   * `applyNormalizedContent`: the document and counters come from the loaded
   * content (a zero line or text counter becomes 1), the card, line and text
   * selections are cleared; the edge selection is not touched.
   */
  function LoadedState(s: EditorState, c: Content): EditorState {
    EditorState(c.nodes, c.edges, c.edgeArrows, c.stepLines, c.texts,
                c.nextId, OrOne(c.nextStepLineId), OrOne(c.nextTextId), [], [], [], s.selectedEdgeKeys)
  }

  /** Loading content whose ids are unique and below its counters leaves an editor that hands out fresh ids. */
  lemma LoadedFresh(s: EditorState, c: Content)
    requires Seqs.KeysUnique(c.nodes, NodeId) && Seqs.KeysUnique(c.stepLines, LineId) && Seqs.KeysUnique(c.texts, TextId)
    requires forall n :: n in c.nodes ==> n.id < c.nextId
    requires forall l :: l in c.stepLines ==> l.id < c.nextStepLineId
    requires forall t :: t in c.texts ==> t.id < c.nextTextId
    ensures FreshIds(LoadedState(s, c))
  {
  }

  /**
   * The editor's global variables: the `state` record (document, counters and
   * selection), the undo stack `historyStack`, and the clipboard with its paste
   * count. The record is held as a value: every write `state.f = v` of the
   * original becomes `state := state.(f := v)`, and `cloneEditorState` is `state`
   * itself.
   */
  class Editor {
    var state: EditorState
    var history: seq<EditorState>
    /** `selectionClipboard` and `clipboardPasteCount`. */
    var clipboard: Option<Clip>
    var pasteCount: int

    /** The undo stack never holds more than 120 snapshots. */
    predicate Valid()
      reads this
    {
      |history| <= HistoryLimit
    }

    /** The state at page load: an empty document with every counter at 1. */
    constructor()
      ensures Valid() && history == [] && clipboard == None && pasteCount == 0
      ensures state == EditorState([], [], [], [], [], 1, 1, 1, [], [], [], [])
    {
      state := EditorState([], [], [], [], [], 1, 1, 1, [], [], [], []);
      history := [];
      clipboard, pasteCount := None, 0;
    }

    /** `pushHistory(prev)`. */
    method PushHistory(prev: EditorState)
      requires Valid()
      modifies this`history
      ensures Valid() && history == Push(old(history), prev)
    {
      history := history + [prev];
      if |history| > HistoryLimit {
        history := history[1..];
      }
    }

    /** `undo`: nothing on an empty stack, otherwise pop the newest snapshot and restore it. */
    method Undo()
      requires Valid()
      modifies this`state, this`history
      ensures Valid()
      ensures old(history) == [] ==> history == [] && state == old(state)
      ensures old(history) != [] ==> history == Pop(old(history)) && state == Restore(old(history)[|old(history)| - 1])
    {
      if history == [] {
        return;
      }
      var prev := history[|history| - 1];
      history := history[..|history| - 1];
      state := Restore(prev);
    }

    /** `upsertEdge`. */
    method UpsertEdge(from: int, to: int, fromSide: Side, toSide: Side)
      modifies this`state
      ensures state == old(state).(edges := Upsert(old(state).edges, Edge(from, to, fromSide, toSide)))
    {
      var idx := FindEdge(state.edges, from, to);
      var next := Edge(from, to, fromSide, toSide);
      if idx >= 0 {
        state := state.(edges := state.edges[idx := next]);
      } else {
        state := state.(edges := state.edges + [next]);
      }
    }

    /** `setSelection`: cards and lines de-duplicated; texts and edges cleared. */
    method SetSelection(nodeIds: seq<int>, lineIds: seq<int>)
      modifies this`state
      ensures state == old(state).(selectedNodeIds := Seqs.Dedup(nodeIds), selectedStepLineIds := Seqs.Dedup(lineIds),
                                   selectedTextIds := [], selectedEdgeKeys := [])
    {
      state := state.(selectedNodeIds := Seqs.Dedup(nodeIds), selectedStepLineIds := Seqs.Dedup(lineIds),
                      selectedTextIds := [], selectedEdgeKeys := []);
    }

    /** `setEdgeSelection`: empty keys dropped and duplicates removed; other kinds cleared unless kept. */
    method SetEdgeSelection(keys: seq<string>, keepNodeLineSelection: bool)
      modifies this`state
      ensures state.selectedEdgeKeys == Seqs.Dedup(Document.NonEmpty(keys))
      ensures keepNodeLineSelection ==> state == old(state).(selectedEdgeKeys := state.selectedEdgeKeys)
      ensures !keepNodeLineSelection ==>
        state == old(state).(selectedNodeIds := [], selectedStepLineIds := [], selectedTextIds := [],
                             selectedEdgeKeys := state.selectedEdgeKeys)
    {
      if !keepNodeLineSelection {
        state := state.(selectedNodeIds := [], selectedStepLineIds := [], selectedTextIds := []);
      }
      state := state.(selectedEdgeKeys := Seqs.Dedup(Document.NonEmpty(keys)));
    }

    /**
     * `createConnectedNode`, with the undo snapshot taken only when a card is
     * actually added: when the parent is missing or no slot is free, neither the
     * document nor the undo stack changes.
     */
    method CreateConnectedNode(fromId: int, fromSide: Side)
      requires Valid()
      modifies this`state, this`history
      ensures Valid()
      ensures var child := ConnectedChild(old(state), fromId, fromSide);
        if child.None? then state == old(state) && history == old(history)
        else
          history == Push(old(history), old(state)) &&
          state == old(state).(nodes := old(state).nodes + [child.value],
                               edges := Upsert(old(state).edges, Edge(fromId, old(state).nextId, fromSide, Opposite(fromSide))),
                               nextId := old(state).nextId + 1,
                               selectedNodeIds := [old(state).nextId], selectedStepLineIds := [],
                               selectedTextIds := [], selectedEdgeKeys := [])
      ensures old(FreshIds(state)) ==> FreshIds(state)
    {
      var s0 := state;
      var p := ChildFor(state, fromId, fromSide);
      if p.None? {
        return;
      }
      PushHistory(state);
      var child := p.value;
      state := state.(nodes := state.nodes + [child]);
      UpsertEdge(fromId, child.id, fromSide, Opposite(fromSide));
      state := state.(nextId := state.nextId + 1);
      SetSelection([child.id], []);
      Seqs.DedupOfNoDup([child.id]);
      if FreshIds(s0) {
        FreshIdsAddNode(s0, state, child);
      }
    }

    /**
     * `addNode`, with the viewport spawn point (baseX, baseY) as a parameter: a
     * default card at the offset spawn point, snapped and clamped, and only that
     * card selected.
     */
    method AddNode(baseX: int, baseY: int)
      requires Valid()
      modifies this`state, this`history
      ensures Valid() && history == Push(old(history), old(state))
      ensures var card := RootNode(old(state).nextId, RootPosition(baseX, baseY, |old(state).nodes|));
        state == old(state).(nodes := old(state).nodes + [card], nextId := old(state).nextId + 1,
                             selectedNodeIds := [card.id], selectedStepLineIds := [],
                             selectedTextIds := [], selectedEdgeKeys := [])
      ensures old(FreshIds(state)) ==> FreshIds(state)
    {
      var s0 := state;
      PushHistory(state);
      var pos := RootPosition(baseX, baseY, |state.nodes|);
      var card := RootNode(state.nextId, pos);
      state := state.(nodes := state.nodes + [card], nextId := state.nextId + 1);
      SetSelection([card.id], []);
      Seqs.DedupOfNoDup([card.id]);
      if FreshIds(s0) {
        FreshIdsAddNode(s0, state, card);
      }
    }

    /** `addText`: a 220 by 22 text at the same spawn point, and only that text selected. */
    method AddText(baseX: int, baseY: int)
      requires Valid()
      modifies this`state, this`history
      ensures Valid() && history == Push(old(history), old(state))
      ensures var item := RootText(old(state).nextTextId, RootPosition(baseX, baseY, |old(state).nodes|));
        state == old(state).(texts := old(state).texts + [item], nextTextId := old(state).nextTextId + 1,
                             selectedNodeIds := [], selectedStepLineIds := [],
                             selectedTextIds := [item.id], selectedEdgeKeys := [])
      ensures old(FreshIds(state)) ==> FreshIds(state)
    {
      var s0 := state;
      PushHistory(state);
      var pos := RootPosition(baseX, baseY, |state.nodes|);
      var item := RootText(state.nextTextId, pos);
      state := state.(texts := state.texts + [item], nextTextId := state.nextTextId + 1);
      state := state.(selectedNodeIds := [], selectedStepLineIds := [], selectedTextIds := [item.id], selectedEdgeKeys := []);
      if FreshIds(s0) {
        FreshIdsAddText(s0, state, item);
      }
    }

    /**
     * `addStepLineAt(y)`: a new step line on the row the search chooses, with the
     * line counter as its id, and only that line selected.
     */
    method AddStepLineAt(y: int)
      requires Valid()
      modifies this`state, this`history
      ensures Valid() && history == Push(old(history), old(state))
      ensures |state.stepLines| == |old(state).stepLines| + 1
      ensures var line := state.stepLines[|state.stepLines| - 1];
        line.id == old(state).nextStepLineId && line.caption == "" && ChosenRow(old(state).stepLines, y, line.y) &&
        state == old(state).(stepLines := old(state).stepLines + [line], nextStepLineId := old(state).nextStepLineId + 1,
                             selectedNodeIds := [], selectedStepLineIds := [line.id],
                             selectedTextIds := [], selectedEdgeKeys := [])
      ensures old(FreshIds(state)) ==> FreshIds(state)
    {
      var s0 := state;
      var yy := FreeStepRow(state.stepLines, y);
      PushHistory(state);
      var line := StepLine(state.nextStepLineId, yy, "");
      state := state.(stepLines := state.stepLines + [line]);
      SetSelection([], [state.nextStepLineId]);
      Seqs.DedupOfNoDup([line.id]);
      state := state.(nextStepLineId := state.nextStepLineId + 1);
      if FreshIds(s0) {
        FreshIdsAddLine(s0, state, line);
      }
    }

    /** The delete button of one card: the cascade of `Document.DeleteNode`, after an undo snapshot. */
    method DeleteNode(id: int)
      requires Valid()
      modifies this`state, this`history
      ensures Valid() && history == Push(old(history), old(state))
      ensures state == Document.DeleteNode(old(state), id)
      ensures old(Consistent(state.nodes, state.edges, state.edgeArrows)) ==> Consistent(state.nodes, state.edges, state.edgeArrows)
      ensures old(FreshIds(state)) ==> FreshIds(state)
    {
      var s0 := state;
      PushHistory(state);
      state := Document.DeleteNode(state, id);
      if Consistent(s0.nodes, s0.edges, s0.edgeArrows) {
        DeleteNodeConsistent(s0, id);
      }
      if FreshIds(s0) {
        DeleteNodeKeepsKeys(s0, id);
      }
    }

    /**
     * The Delete key: when anything is selected, an undo snapshot and the cascade
     * of `Document.DeleteSelection`; otherwise nothing happens.
     */
    method DeleteSelection() returns (deleted: bool)
      requires Valid()
      modifies this`state, this`history
      ensures Valid()
      ensures deleted <==> (old(state).selectedNodeIds != [] || old(state).selectedStepLineIds != [] ||
                            old(state).selectedTextIds != [] || old(state).selectedEdgeKeys != [])
      ensures !deleted ==> state == old(state) && history == old(history)
      ensures deleted ==> history == Push(old(history), old(state)) && state == Document.DeleteSelection(old(state))
      ensures old(Consistent(state.nodes, state.edges, state.edgeArrows)) ==> Consistent(state.nodes, state.edges, state.edgeArrows)
      ensures old(FreshIds(state)) ==> FreshIds(state)
    {
      var s0 := state;
      if s0.selectedNodeIds == [] && s0.selectedStepLineIds == [] && s0.selectedTextIds == [] && s0.selectedEdgeKeys == [] {
        return false;
      }
      PushHistory(state);
      state := Document.DeleteSelection(state);
      if Consistent(s0.nodes, s0.edges, s0.edgeArrows) {
        DeleteSelectionConsistent(s0);
      }
      if FreshIds(s0) {
        DeleteSelectionKeepsKeys(s0);
      }
      return true;
    }

    /**
     * The bold shortcut: when texts are selected, flip their bold flags one by
     * one and push the state from before the flips.
     */
    method ToggleBold() returns (toggled: bool)
      requires Valid()
      modifies this`state, this`history
      ensures Valid()
      ensures toggled <==> old(state).selectedTextIds != []
      ensures !toggled ==> state == old(state) && history == old(history)
      ensures toggled ==> state == old(state).(texts := BoldToggled(old(state).texts, old(state).selectedTextIds)) &&
                          history == Push(old(history), old(state))
    {
      if state.selectedTextIds == [] {
        return false;
      }
      var before := state;
      var ts := ToggleEach(state.texts, state.selectedTextIds);
      state := state.(texts := ts);
      PushHistory(before);
      return true;
    }

    /**
     * `copySelectionToClipboard`: when something selected exists, the clipboard
     * takes the copy and the paste count restarts; the document is not touched.
     */
    method Copy() returns (ok: bool)
      modifies this`clipboard, this`pasteCount
      ensures ok <==> CopyOf(state).Some?
      ensures ok ==> clipboard == CopyOf(state) && pasteCount == 0
      ensures !ok ==> clipboard == old(clipboard) && pasteCount == old(pasteCount)
    {
      var c := CopyOf(state);
      if c.None? {
        return false;
      }
      clipboard := c;
      pasteCount := 0;
      return true;
    }

    /**
     * `pasteSelectionFromClipboard`: nothing without a non-empty clipboard;
     * otherwise an undo snapshot, the paste count goes up, and the state becomes
     * `PasteState` for that count.
     */
    method Paste() returns (ok: bool)
      requires Valid()
      modifies this`state, this`history, this`pasteCount
      ensures Valid()
      ensures ok <==> PasteEnabled(clipboard)
      ensures !ok ==> state == old(state) && history == old(history) && pasteCount == old(pasteCount)
      ensures ok ==> history == Push(old(history), old(state)) && pasteCount == old(pasteCount) + 1
      ensures ok ==> state == PasteState(old(state), clipboard.value, pasteCount)
      ensures ok && old(FreshIds(state)) ==> FreshIds(state)
    {
      if !PasteEnabled(clipboard) {
        return false;
      }
      var s0 := state;
      var c := clipboard.value;
      PushHistory(state);
      pasteCount := pasteCount + 1;
      state := PasteInto(state, c, pasteCount);
      if FreshIds(s0) {
        PasteKeepsFreshIds(s0, c, pasteCount);
      }
      return true;
    }

    /**
     * `applyGroupMove`: each listed card moves to its drag-start position plus the
     * delta and is clamped; each listed step line likewise, vertically.
     */
    method ApplyGroupMove(dx: int, dy: int, nodeIds: seq<int>, lineIds: seq<int>,
                          startNodes: map<int, Moves.Pos>, startLines: map<int, int>)
      modifies this`state
      ensures state == old(state).(nodes := Seqs.UpdateAllById(old(state).nodes, NodeId, nodeIds, Moves.MoveNodeFn(dx, dy, startNodes)),
                                   stepLines := Seqs.UpdateAllById(old(state).stepLines, LineId, lineIds, Moves.MoveLineFn(dy, startLines)))
    {
      var ns := Seqs.UpdateEach(state.nodes, NodeId, nodeIds, Moves.MoveNodeFn(dx, dy, startNodes));
      var ls := Seqs.UpdateEach(state.stepLines, LineId, lineIds, Moves.MoveLineFn(dy, startLines));
      state := state.(nodes := ns, stepLines := ls);
    }

    /** `applyTextGroupMove`: each listed text with a start position moves by the delta and is clamped. */
    method ApplyTextGroupMove(dx: int, dy: int, textIds: seq<int>, startTexts: map<int, Moves.Pos>)
      modifies this`state
      ensures state == old(state).(texts := Seqs.UpdateAllById(old(state).texts, TextId, textIds, Moves.MoveTextFn(dx, dy, startTexts)))
    {
      var ts := Seqs.UpdateEach(state.texts, TextId, textIds, Moves.MoveTextFn(dx, dy, startTexts));
      state := state.(texts := ts);
    }

    /** `snapGroup`: the listed cards and step lines snapped to the grid and clamped. */
    method SnapGroup(nodeIds: seq<int>, lineIds: seq<int>)
      modifies this`state
      ensures state == old(state).(nodes := Seqs.UpdateAllById(old(state).nodes, NodeId, nodeIds, Moves.SnapNodeFn()),
                                   stepLines := Seqs.UpdateAllById(old(state).stepLines, LineId, lineIds, Moves.SnapLineFn()))
    {
      var ns := Seqs.UpdateEach(state.nodes, NodeId, nodeIds, Moves.SnapNodeFn());
      var ls := Seqs.UpdateEach(state.stepLines, LineId, lineIds, Moves.SnapLineFn());
      state := state.(nodes := ns, stepLines := ls);
    }

    /** `snapTextGroup`. */
    method SnapTextGroup(textIds: seq<int>)
      modifies this`state
      ensures state == old(state).(texts := Seqs.UpdateAllById(old(state).texts, TextId, textIds, Moves.SnapTextFn()))
    {
      var ts := Seqs.UpdateEach(state.texts, TextId, textIds, Moves.SnapTextFn());
      state := state.(texts := ts);
    }

    /**
     * `applyMarqueeSelection` for a drag from (sx, sy) to (ex, ey), with the
     * selection at drag start as the base and the keys of the edges the curve
     * test hits as a parameter.
     */
    method ApplyMarqueeSelection(sx: int, sy: int, ex: int, ey: int, additive: bool,
                                 baseNodeIds: seq<int>, baseLineIds: seq<int>, baseTextIds: seq<int>,
                                 baseKeys: seq<string>, hitKeys: seq<string>)
      modifies this`state
      ensures var r := Marquee.RectOf(sx, sy, ex, ey);
        state == old(state).(selectedNodeIds := Marquee.MarqueeNodes(old(state).nodes, r, additive, baseNodeIds),
                             selectedStepLineIds := Marquee.MarqueeLines(old(state).stepLines, r, additive, baseLineIds),
                             selectedTextIds := Marquee.MarqueeTexts(old(state).texts, r, additive, baseTextIds),
                             selectedEdgeKeys := Marquee.MarqueeKeys(hitKeys, additive, baseKeys))
    {
      var r := Marquee.RectOf(sx, sy, ex, ey);
      var hitNodes := Marquee.HitNodeIds(state.nodes, r);
      var hitLines := Marquee.HitLineIds(state.stepLines, r);
      var hitTexts := Marquee.HitTextIds(state.texts, r);
      if additive {
        state := state.(selectedNodeIds := Seqs.Dedup(baseNodeIds + hitNodes),
                        selectedStepLineIds := Seqs.Dedup(baseLineIds + hitLines),
                        selectedTextIds := Seqs.Dedup(baseTextIds + hitTexts),
                        selectedEdgeKeys := Seqs.Dedup(baseKeys + hitKeys));
      } else {
        assert [] + hitNodes == hitNodes && [] + hitLines == hitLines;
        assert [] + hitTexts == hitTexts && [] + hitKeys == hitKeys;
        state := state.(selectedNodeIds := Seqs.Dedup(hitNodes), selectedStepLineIds := Seqs.Dedup(hitLines),
                        selectedTextIds := Seqs.Dedup(hitTexts), selectedEdgeKeys := Seqs.Dedup(hitKeys));
      }
    }

    /**
     * `applyNormalizedContent`: the loaded document replaces the current one,
     * zero line and text counters fall back to 1, the card, line and text
     * selections are cleared and the undo stack is emptied. The edge selection
     * is left as it was.
     */
    method LoadContent(c: Content)
      modifies this`state, this`history
      ensures Valid() && history == []
      ensures state == LoadedState(old(state), c)
    {
      state := state.(nodes := c.nodes, edges := c.edges, edgeArrows := c.edgeArrows, stepLines := c.stepLines,
                      texts := c.texts, nextId := c.nextId, nextStepLineId := OrOne(c.nextStepLineId),
                      nextTextId := OrOne(c.nextTextId), selectedNodeIds := [], selectedStepLineIds := [],
                      selectedTextIds := []);
      history := [];
    }

    /**
     * `applyJsonEditorText` once `JSON.parse` has succeeded: a falsy value or one
     * that is not an object or array is refused; otherwise the converted content
     * replaces the document. A TypeError thrown by the conversion leaves the
     * editor as it was.
     */
    method ApplyJsonEditorText(parsed: JsValue.Value) returns (applied: bool)
      modifies this`state, this`history
      ensures applied <==> JsValue.Truthy(parsed) && (parsed.Arr? || parsed.Obj?) && Loader.Convert(parsed).Ok?
      ensures !applied ==> state == old(state) && history == old(history)
      ensures applied ==> Valid() && history == [] && state == LoadedState(old(state), Loader.Convert(parsed).value)
    {
      if !JsValue.Truthy(parsed) || !(parsed.Arr? || parsed.Obj?) {
        return false;
      }
      var converted := Loader.Convert(parsed);
      if converted.TypeError? {
        return false;
      }
      LoadContent(converted.value);
      return true;
    }

    /**
     * The document part of `loadRecipe` once the recipe has been fetched: a
     * missing or falsy `content` is read as `{}`; a TypeError thrown by the
     * conversion leaves the editor as it was.
     */
    method LoadRecipe(content: JsValue.Value) returns (loaded: bool)
      modifies this`state, this`history
      ensures var data := if JsValue.Truthy(content) then content else JsValue.Obj(map[]);
        (loaded <==> Loader.Convert(data).Ok?) &&
        (!loaded ==> state == old(state) && history == old(history)) &&
        (loaded ==> Valid() && history == [] && state == LoadedState(old(state), Loader.Convert(data).value))
    {
      var data := if JsValue.Truthy(content) then content else JsValue.Obj(map[]);
      var converted := Loader.Convert(data);
      if converted.TypeError? {
        return false;
      }
      LoadContent(converted.value);
      return true;
    }

    /**
     * The document part of `clearEditorToEmpty`: an empty document, counters at
     * 1, the card, line and text selections and the undo stack cleared; the edge
     * selection is left as it was.
     */
    method ClearToEmpty()
      modifies this`state, this`history
      ensures Valid() && history == []
      ensures state == EditorState([], [], [], [], [], 1, 1, 1, [], [], [], old(state).selectedEdgeKeys)
    {
      state := state.(nodes := [], edges := [], edgeArrows := [], stepLines := [], texts := [],
                      nextId := 1, nextStepLineId := 1, nextTextId := 1,
                      selectedNodeIds := [], selectedStepLineIds := [], selectedTextIds := []);
      history := [];
    }
  }
}
