/**
 * The cooking-chart document: its entities (cards called nodes, edges between
 * them, arrows from a node onto an edge, horizontal step lines and free texts),
 * the editor state that holds them, and the pure rules on that state: edge
 * keys, clamping into the board, edge upsert, cascading deletes and the
 * normalisation of node fields.
 */
module Document {
  import opened Geometry
  import Strings
  import Seqs

  datatype Side = Top | Bottom | Left | Right
  datatype Mode = Material | Cook
  datatype Color = Gray | Green | Orange

  datatype Node = Node(id: int, x: int, y: int, h: int, title: string, mode: Mode,
                       color: Color, time: string, tags: seq<string>, memos: seq<string>)
  datatype Edge = Edge(from: int, to: int, fromSide: Side, toSide: Side)
  /** An arrow drawn from a node onto the middle of an edge, named by its key. */
  datatype EdgeArrow = EdgeArrow(from: int, toEdgeKey: string)
  /** A step line; `caption` is the `label` field of the source record. */
  datatype StepLine = StepLine(id: int, y: int, caption: string)
  datatype TextItem = TextItem(id: int, x: int, y: int, w: int, h: int, text: string, bold: bool)

  /** Everything one undo snapshot holds: the document, the id counters and the selection. */
  datatype EditorState = EditorState(
    nodes: seq<Node>, edges: seq<Edge>, edgeArrows: seq<EdgeArrow>,
    stepLines: seq<StepLine>, texts: seq<TextItem>,
    nextId: int, nextStepLineId: int, nextTextId: int,
    selectedNodeIds: seq<int>, selectedStepLineIds: seq<int>,
    selectedTextIds: seq<int>, selectedEdgeKeys: seq<string>)

  /** The document part of a state, as loaded from and saved to a recipe. */
  datatype Content = Content(
    nodes: seq<Node>, edges: seq<Edge>, edgeArrows: seq<EdgeArrow>,
    stepLines: seq<StepLine>, texts: seq<TextItem>,
    nextId: int, nextStepLineId: int, nextTextId: int)

  function Opposite(s: Side): (r: Side)
    ensures r != s
    ensures (s == Top <==> r == Bottom) && (s == Left <==> r == Right)
  {
    match s
    case Top => Bottom
    case Bottom => Top
    case Left => Right
    case Right => Left
  }

  // ---------------------------------------------------------------- edge keys

  /** The key `"from:to"` that names an edge in the selection and in arrows. */
  function EdgeKey(from: int, to: int): string {
    Strings.IntToString(from) + ":" + Strings.IntToString(to)
  }

  function KeyOf(e: Edge): string {
    EdgeKey(e.from, e.to)
  }

  /** Distinct ordered pairs have distinct keys, so a key names at most one edge. */
  lemma EdgeKeyInjective(a: int, b: int, c: int, d: int)
    requires EdgeKey(a, b) == EdgeKey(c, d)
    ensures a == c && b == d
  {
    var sa, sb := Strings.IntToString(a), Strings.IntToString(b);
    var sc, sd := Strings.IntToString(c), Strings.IntToString(d);
    Strings.IntToStringChars(a, ':');
    Strings.IntToStringChars(b, ':');
    Strings.IntToStringChars(c, ':');
    Strings.IntToStringChars(d, ':');
    Strings.SplitAppend(sa, sb, ':');
    Strings.SplitAppend(sc, sd, ':');
    Strings.SplitNoSep(sb, ':');
    Strings.SplitNoSep(sd, ':');
    assert EdgeKey(a, b) == sa + [':'] + sb;
    assert EdgeKey(c, d) == sc + [':'] + sd;
    assert Strings.Split(EdgeKey(a, b), ':') == [sa, sb];
    assert Strings.Split(EdgeKey(c, d), ':') == [sc, sd];
    Strings.IntToStringInjective(a, c);
    Strings.IntToStringInjective(b, d);
  }

  function NodeId(n: Node): int { n.id }
  function LineId(l: StepLine): int { l.id }
  function TextId(t: TextItem): int { t.id }

  function NodeIds(nodes: seq<Node>): set<int> {
    set n | n in nodes :: n.id
  }

  function EdgeKeys(edges: seq<Edge>): set<string> {
    set e | e in edges :: KeyOf(e)
  }

  /** At most one edge per ordered pair of ends. */
  predicate EdgesUnique(edges: seq<Edge>) {
    forall i, j :: 0 <= i < j < |edges| ==> !(edges[i].from == edges[j].from && edges[i].to == edges[j].to)
  }

  /** Every edge joins existing nodes; every arrow starts at a node and points at an existing edge. */
  predicate Consistent(nodes: seq<Node>, edges: seq<Edge>, arrows: seq<EdgeArrow>) {
    (forall e :: e in edges ==> e.from in NodeIds(nodes) && e.to in NodeIds(nodes)) &&
    (forall a :: a in arrows ==> a.from in NodeIds(nodes) && a.toEdgeKey in EdgeKeys(edges))
  }

  // ---------------------------------------------------------------- clamping

  /** `clampNode`: the card is pulled inside the board; nothing but its position changes. */
  function ClampNode(n: Node): (r: Node)
    ensures r == n.(x := r.x, y := r.y)
    ensures 0 <= r.x <= BoardW - NodeW && 0 <= r.y
    ensures n.h <= BoardH ==> r.y <= BoardH - n.h
    ensures 0 <= n.x <= BoardW - NodeW ==> r.x == n.x
    ensures 0 <= n.y <= BoardH - n.h ==> r.y == n.y
  {
    n.(x := Clamp(0, BoardW - NodeW, n.x), y := Clamp(0, BoardH - n.h, n.y))
  }

  /** `clampText`: the same as for cards, with the text's own width and height. */
  function ClampText(t: TextItem): (r: TextItem)
    ensures r == t.(x := r.x, y := r.y)
    ensures 0 <= r.x && 0 <= r.y
    ensures t.w <= BoardW ==> r.x <= BoardW - t.w
    ensures t.h <= BoardH ==> r.y <= BoardH - t.h
    ensures 0 <= t.x <= BoardW - t.w ==> r.x == t.x
    ensures 0 <= t.y <= BoardH - t.h ==> r.y == t.y
  {
    t.(x := Clamp(0, BoardW - t.w, t.x), y := Clamp(0, BoardH - t.h, t.y))
  }

  lemma ClampNodeIdempotent(n: Node)
    requires n.h <= BoardH
    ensures ClampNode(ClampNode(n)) == ClampNode(n)
  {
  }

  // ---------------------------------------------------------------- edges

  /** `edgeExists(from, to)`. */
  predicate EdgeExists(edges: seq<Edge>, from: int, to: int) {
    exists i :: 0 <= i < |edges| && edges[i].from == from && edges[i].to == to
  }

  /** `edges.findIndex(e => e.from === from && e.to === to)`, with -1 for none. */
  function FindEdge(edges: seq<Edge>, from: int, to: int): (r: int)
    ensures -1 <= r < |edges|
    ensures r >= 0 ==> edges[r].from == from && edges[r].to == to
    ensures forall k :: 0 <= k < |edges| && (r < 0 || k < r) ==> !(edges[k].from == from && edges[k].to == to)
  {
    if edges == [] then -1
    else if edges[0].from == from && edges[0].to == to then 0
    else
      var k := FindEdge(edges[1..], from, to);
      if k < 0 then -1 else k + 1
  }

  /** `upsertEdge`: replace the edge with the same ends where it stands, or append. */
  function Upsert(edges: seq<Edge>, e: Edge): seq<Edge> {
    var i := FindEdge(edges, e.from, e.to);
    if i >= 0 then edges[i := e] else edges + [e]
  }

  /**
   * After an upsert the edge is present exactly once, every other edge is kept in
   * place, and uniqueness of ends is preserved.
   */
  lemma UpsertSpec(edges: seq<Edge>, e: Edge)
    requires EdgesUnique(edges)
    ensures EdgesUnique(Upsert(edges, e))
    ensures e in Upsert(edges, e)
    ensures forall f :: f in edges && !(f.from == e.from && f.to == e.to) ==> f in Upsert(edges, e)
    ensures forall f :: f in Upsert(edges, e) ==> f == e || f in edges
    ensures |Upsert(edges, e)| == if EdgeExists(edges, e.from, e.to) then |edges| else |edges| + 1
  {
    var i := FindEdge(edges, e.from, e.to);
    var r := Upsert(edges, e);
    if i >= 0 {
      assert r[i] == e;
      forall f | f in edges && !(f.from == e.from && f.to == e.to) ensures f in r {
        var k :| 0 <= k < |edges| && edges[k] == f;
        assert r[k] == f;
      }
    } else {
      assert r[|edges|] == e;
    }
  }

  /** What an upsert keeps and adds, whatever the edges were. */
  lemma UpsertBasics(edges: seq<Edge>, e: Edge)
    ensures EdgeExists(Upsert(edges, e), e.from, e.to)
    ensures forall f :: f in Upsert(edges, e) ==> f == e || f in edges
    ensures forall a, b :: EdgeExists(edges, a, b) ==> EdgeExists(Upsert(edges, e), a, b)
  {
    var i := FindEdge(edges, e.from, e.to);
    var r := Upsert(edges, e);
    if i >= 0 {
      assert r[i] == e;
    } else {
      assert r[|edges|] == e;
    }
    forall a, b | EdgeExists(edges, a, b) ensures EdgeExists(r, a, b) {
      var k :| 0 <= k < |edges| && edges[k].from == a && edges[k].to == b;
      if i >= 0 && k == i {
        assert r[i].from == a && r[i].to == b;
      } else {
        assert r[k] == edges[k];
      }
    }
  }

  // ---------------------------------------------------------------- deletes

  /** The keys of the edges removed when deleting `nodeSet` and the selected `keySet`. */
  function RemovedKeys(edges: seq<Edge>, nodeSet: set<int>, keySet: set<string>): set<string> {
    set e | e in edges && (e.from in nodeSet || e.to in nodeSet || KeyOf(e) in keySet) :: KeyOf(e)
  }

  /** The filters of the deletes: keep what is not named in `ids`. */
  function NodeKept(ids: set<int>): Node -> bool { (n: Node) => n.id !in ids }
  function LineKept(ids: set<int>): StepLine -> bool { (l: StepLine) => l.id !in ids }
  function TextKept(ids: set<int>): TextItem -> bool { (t: TextItem) => t.id !in ids }

  /** Removing the selection: nodes, lines and texts by id, edges by end or key, arrows by source or target. */
  function DeleteSelection(s: EditorState): (r: EditorState)
    ensures r.selectedNodeIds == [] && r.selectedStepLineIds == [] && r.selectedTextIds == [] && r.selectedEdgeKeys == []
    ensures forall n :: n in r.nodes <==> n in s.nodes && n.id !in s.selectedNodeIds
    ensures forall l :: l in r.stepLines <==> l in s.stepLines && l.id !in s.selectedStepLineIds
    ensures forall t :: t in r.texts <==> t in s.texts && t.id !in s.selectedTextIds
    ensures forall e :: e in r.edges <==> e in s.edges && e.from !in s.selectedNodeIds &&
                                          e.to !in s.selectedNodeIds && KeyOf(e) !in s.selectedEdgeKeys
    ensures forall a :: a in r.edgeArrows <==> a in s.edgeArrows && a.from !in s.selectedNodeIds &&
                                                a.toEdgeKey !in RemovedKeys(s.edges, set i | i in s.selectedNodeIds, set k | k in s.selectedEdgeKeys)
    ensures (r.nextId, r.nextStepLineId, r.nextTextId) == (s.nextId, s.nextStepLineId, s.nextTextId)
  {
    var nodeSet := set i | i in s.selectedNodeIds;
    var lineSet := set i | i in s.selectedStepLineIds;
    var textSet := set i | i in s.selectedTextIds;
    var keySet := set k | k in s.selectedEdgeKeys;
    var removed := RemovedKeys(s.edges, nodeSet, keySet);
    var edgeKept := (e: Edge) => e.from !in nodeSet && e.to !in nodeSet && KeyOf(e) !in keySet;
    var arrowKept := (a: EdgeArrow) => a.from !in nodeSet && a.toEdgeKey !in removed;
    Seqs.FilterMembers(s.nodes, NodeKept(nodeSet));
    Seqs.FilterMembers(s.stepLines, LineKept(lineSet));
    Seqs.FilterMembers(s.texts, TextKept(textSet));
    Seqs.FilterMembers(s.edges, edgeKept);
    Seqs.FilterMembers(s.edgeArrows, arrowKept);
    s.(nodes := Seqs.Filter(s.nodes, NodeKept(nodeSet)),
       stepLines := Seqs.Filter(s.stepLines, LineKept(lineSet)),
       texts := Seqs.Filter(s.texts, TextKept(textSet)),
       edges := Seqs.Filter(s.edges, edgeKept),
       edgeArrows := Seqs.Filter(s.edgeArrows, arrowKept),
       selectedNodeIds := [], selectedStepLineIds := [], selectedTextIds := [], selectedEdgeKeys := [])
  }

  /** Deleting the selection never leaves an edge or an arrow dangling. */
  lemma DeleteSelectionConsistent(s: EditorState)
    requires Consistent(s.nodes, s.edges, s.edgeArrows)
    ensures var r := DeleteSelection(s); Consistent(r.nodes, r.edges, r.edgeArrows)
  {
    var r := DeleteSelection(s);
    forall e | e in r.edges ensures e.from in NodeIds(r.nodes) && e.to in NodeIds(r.nodes) {
      var m :| m in s.nodes && m.id == e.from;
      var k :| k in s.nodes && k.id == e.to;
      assert m in r.nodes && k in r.nodes;
    }
    forall a | a in r.edgeArrows ensures a.from in NodeIds(r.nodes) && a.toEdgeKey in EdgeKeys(r.edges) {
      var m :| m in s.nodes && m.id == a.from;
      assert m in r.nodes;
      var e :| e in s.edges && KeyOf(e) == a.toEdgeKey;
      assert e in r.edges;
    }
  }

  /** The delete button on one card: its edges go, and so do arrows from it or onto those edges. */
  function DeleteNode(s: EditorState, id: int): (r: EditorState)
    ensures forall n :: n in r.nodes <==> n in s.nodes && n.id != id
    ensures forall e :: e in r.edges <==> e in s.edges && e.from != id && e.to != id
    ensures forall a :: a in r.edgeArrows <==> a in s.edgeArrows && a.from != id &&
                                                a.toEdgeKey !in RemovedKeys(s.edges, {id}, {})
    ensures forall i :: i in r.selectedNodeIds <==> i in s.selectedNodeIds && i != id
    ensures r.stepLines == s.stepLines && r.texts == s.texts
    ensures r.selectedStepLineIds == s.selectedStepLineIds && r.selectedTextIds == s.selectedTextIds
    ensures r.selectedEdgeKeys == s.selectedEdgeKeys
  {
    var removed := RemovedKeys(s.edges, {id}, {});
    var edgeKept := (e: Edge) => e.from != id && e.to != id;
    var arrowKept := (a: EdgeArrow) => a.from != id && a.toEdgeKey !in removed;
    var idKept := (i: int) => i != id;
    Seqs.FilterMembers(s.nodes, NodeKept({id}));
    Seqs.FilterMembers(s.edges, edgeKept);
    Seqs.FilterMembers(s.edgeArrows, arrowKept);
    Seqs.FilterMembers(s.selectedNodeIds, idKept);
    s.(nodes := Seqs.Filter(s.nodes, NodeKept({id})),
       edges := Seqs.Filter(s.edges, edgeKept),
       edgeArrows := Seqs.Filter(s.edgeArrows, arrowKept),
       selectedNodeIds := Seqs.Filter(s.selectedNodeIds, idKept))
  }

  lemma DeleteNodeConsistent(s: EditorState, id: int)
    requires Consistent(s.nodes, s.edges, s.edgeArrows)
    ensures var r := DeleteNode(s, id); Consistent(r.nodes, r.edges, r.edgeArrows)
  {
    var r := DeleteNode(s, id);
    var removed := RemovedKeys(s.edges, {id}, {});
    forall e | e in r.edges ensures e.from in NodeIds(r.nodes) && e.to in NodeIds(r.nodes) {
      var m :| m in s.nodes && m.id == e.from;
      var k :| k in s.nodes && k.id == e.to;
      assert m in r.nodes && k in r.nodes;
    }
    forall a | a in r.edgeArrows ensures a.from in NodeIds(r.nodes) && a.toEdgeKey in EdgeKeys(r.edges) {
      var m :| m in s.nodes && m.id == a.from;
      assert m in r.nodes;
      var e :| e in s.edges && KeyOf(e) == a.toEdgeKey;
      assert a.toEdgeKey !in removed;
      assert e.from != id && e.to != id;
      assert e in r.edges;
    }
  }

  /** Deleting keeps the ids of what remains pairwise distinct. */
  lemma DeleteSelectionKeepsKeys(s: EditorState)
    requires Seqs.KeysUnique(s.nodes, NodeId) && Seqs.KeysUnique(s.stepLines, LineId) && Seqs.KeysUnique(s.texts, TextId)
    ensures var r := DeleteSelection(s);
      Seqs.KeysUnique(r.nodes, NodeId) && Seqs.KeysUnique(r.stepLines, LineId) && Seqs.KeysUnique(r.texts, TextId)
  {
    Seqs.FilterKeysUnique(s.nodes, NodeId, NodeKept(set i | i in s.selectedNodeIds));
    Seqs.FilterKeysUnique(s.stepLines, LineId, LineKept(set i | i in s.selectedStepLineIds));
    Seqs.FilterKeysUnique(s.texts, TextId, TextKept(set i | i in s.selectedTextIds));
  }

  lemma DeleteNodeKeepsKeys(s: EditorState, id: int)
    requires Seqs.KeysUnique(s.nodes, NodeId)
    ensures Seqs.KeysUnique(DeleteNode(s, id).nodes, NodeId)
  {
    Seqs.FilterKeysUnique(s.nodes, NodeId, NodeKept({id}));
  }

  // ---------------------------------------------------------------- node fields

  function TrimAll(xs: seq<string>): (r: seq<string>)
    ensures |r| == |xs|
    ensures forall i :: 0 <= i < |xs| ==> r[i] == Strings.Trim(xs[i])
  {
    if xs == [] then [] else [Strings.Trim(xs[0])] + TrimAll(xs[1..])
  }

  function NonEmpty(xs: seq<string>): (r: seq<string>)
    ensures |r| <= |xs|
    ensures forall s :: s in r <==> s in xs && s != ""
  {
    if xs == [] then [] else (if xs[0] != "" then [xs[0]] else []) + NonEmpty(xs[1..])
  }

  lemma {:induction false} NonEmptyOfNonEmpty(xs: seq<string>)
    requires forall s :: s in xs ==> s != ""
    ensures NonEmpty(xs) == xs
  {
    if xs != [] {
      assert forall s :: s in xs[1..] ==> s in xs;
      NonEmptyOfNonEmpty(xs[1..]);
      assert xs[0] != "" by { assert xs[0] in xs; }
      assert [xs[0]] + xs[1..] == xs;
    }
  }

  /** `normalizeNodeTags` on a list of strings: trimmed, blanks dropped, order kept. */
  function NormalizeTags(tags: seq<string>): (r: seq<string>)
    ensures |r| <= |tags|
    ensures forall t :: t in r ==> t != "" && Strings.IsTrimmed(t)
  {
    NonEmpty(TrimAll(tags))
  }

  /** `normalizeNodeMemos`: like tags, but at most the first non-blank memo is kept. */
  function NormalizeMemos(memos: seq<string>): (r: seq<string>)
    ensures |r| <= 1
    ensures forall t :: t in r ==> t != "" && Strings.IsTrimmed(t)
  {
    var m := NormalizeTags(memos);
    if |m| <= 1 then m else m[..1]
  }

  lemma {:induction false} TrimAllOfTrimmed(xs: seq<string>)
    requires forall t :: t in xs ==> Strings.IsTrimmed(t)
    ensures TrimAll(xs) == xs
  {
    if xs != [] {
      Strings.TrimmedIsFixed(xs[0]);
      TrimAllOfTrimmed(xs[1..]);
      assert [xs[0]] + xs[1..] == xs;
    }
  }

  /** Normalising tags twice is the same as once. */
  lemma NormalizeTagsIdempotent(tags: seq<string>)
    ensures NormalizeTags(NormalizeTags(tags)) == NormalizeTags(tags)
  {
    var m := NormalizeTags(tags);
    TrimAllOfTrimmed(m);
    NonEmptyOfNonEmpty(m);
  }

  lemma NormalizeMemosIdempotent(memos: seq<string>)
    ensures NormalizeMemos(NormalizeMemos(memos)) == NormalizeMemos(memos)
  {
    var m := NormalizeMemos(memos);
    TrimAllOfTrimmed(m);
    NonEmptyOfNonEmpty(m);
  }
}
