/**
 * Copy and paste in the cooking-chart editor: what a copy records, where the
 * pasted copies go, which fresh ids they get and how copied edges are
 * re-attached to the copies.
 */
module Clipboard {
  import opened Wrappers
  import opened Geometry
  import opened Document
  import Seqs
  import Strings

  /** A copied card; `sourceId` is the id of the card it was copied from. */
  datatype ClipNode = ClipNode(sourceId: int, x: int, y: int, h: int, title: string, color: Color,
                               time: string, tags: seq<string>, memos: seq<string>)
  datatype ClipText = ClipText(x: int, y: int, w: int, h: int, text: string, bold: bool)
  datatype Clip = Clip(sourceIds: seq<int>, sourceTextIds: seq<int>, nodes: seq<ClipNode>,
                       edges: seq<Edge>, texts: seq<ClipText>)

  /**
   * A card as copied, with time, tags and memos normalised. The paste
   * normalises them again, which leaves them as they are (CopiedFieldsNormal),
   * so the model's paste takes them over unchanged.
   */
  function ClipNodeOf(n: Node): ClipNode {
    ClipNode(n.id, n.x, n.y, n.h, n.title, n.color, Strings.Trim(n.time), NormalizeTags(n.tags), NormalizeMemos(n.memos))
  }

  /** The fields a copy records are already normal: normalising them again is the identity. */
  lemma CopiedFieldsNormal(n: Node)
    ensures var c := ClipNodeOf(n);
      Strings.Trim(c.time) == c.time && NormalizeTags(c.tags) == c.tags && NormalizeMemos(c.memos) == c.memos
  {
    Strings.TrimmedIsFixed(Strings.Trim(n.time));
    NormalizeTagsIdempotent(n.tags);
    NormalizeMemosIdempotent(n.memos);
  }

  function ClipTextOf(t: TextItem): ClipText {
    ClipText(t.x, t.y, t.w, t.h, t.text, t.bold)
  }

  function SourceIds(cs: seq<ClipNode>): set<int> {
    set c | c in cs :: c.sourceId
  }

  /** The cards whose ids are in `ids`, in document order. */
  function NodesIn(ns: seq<Node>, ids: seq<int>): (r: seq<Node>)
    ensures forall n :: n in r <==> n in ns && n.id in ids
  {
    if ns == [] then []
    else (if ns[0].id in ids then [ns[0]] else []) + NodesIn(ns[1..], ids)
  }

  function TextsIn(ts: seq<TextItem>, ids: seq<int>): (r: seq<TextItem>)
    ensures forall t :: t in r <==> t in ts && t.id in ids
  {
    if ts == [] then []
    else (if ts[0].id in ids then [ts[0]] else []) + TextsIn(ts[1..], ids)
  }

  /** The edges with both ends in `ids`. */
  function EdgesWithin(es: seq<Edge>, ids: seq<int>): (r: seq<Edge>)
    ensures forall e :: e in r <==> e in es && e.from in ids && e.to in ids
  {
    if es == [] then []
    else (if es[0].from in ids && es[0].to in ids then [es[0]] else []) + EdgesWithin(es[1..], ids)
  }

  function ClipNodes(ns: seq<Node>): (r: seq<ClipNode>)
    ensures |r| == |ns| && forall k :: 0 <= k < |ns| ==> r[k] == ClipNodeOf(ns[k])
  {
    seq(|ns|, k requires 0 <= k < |ns| => ClipNodeOf(ns[k]))
  }

  lemma ClipNodesIds(ns: seq<Node>)
    ensures SourceIds(ClipNodes(ns)) == NodeIds(ns)
  {
    var cs := ClipNodes(ns);
    forall i | i in NodeIds(ns) ensures i in SourceIds(cs) {
      var n :| n in ns && n.id == i;
      var k :| 0 <= k < |ns| && ns[k] == n;
      assert cs[k].sourceId == i;
    }
  }

  /** Every selected card is on the clipboard, as its normalised copy. */
  lemma CopyHoldsSelected(s: EditorState, n: Node)
    requires CopyOf(s).Some? && n in s.nodes && n.id in s.selectedNodeIds
    ensures ClipNodeOf(n) in CopyOf(s).value.nodes
  {
    var ns := NodesIn(s.nodes, s.selectedNodeIds);
    var k :| 0 <= k < |ns| && ns[k] == n;
    assert ClipNodes(ns)[k] == ClipNodeOf(n);
  }

  /**
   * `copySelectionToClipboard`: the selected cards and texts in document order
   * and the edges with both ends selected; None when nothing selected exists.
   */
  function CopyOf(s: EditorState): (r: Option<Clip>)
    ensures r.Some? ==> r.value.sourceIds == s.selectedNodeIds && r.value.sourceTextIds == s.selectedTextIds
    ensures r.Some? ==> r.value.nodes != [] || r.value.texts != []
    ensures r.Some? ==> r.value.nodes == ClipNodes(NodesIn(s.nodes, s.selectedNodeIds))
    ensures r.Some? ==> forall e :: e in r.value.edges <==> e in s.edges && e.from in s.selectedNodeIds && e.to in s.selectedNodeIds
    ensures r.None? <==> (forall n :: n in s.nodes ==> n.id !in s.selectedNodeIds) &&
                         (forall t :: t in s.texts ==> t.id !in s.selectedTextIds)
  {
    var ns := NodesIn(s.nodes, s.selectedNodeIds);
    var ts := TextsIn(s.texts, s.selectedTextIds);
    if ns == [] && ts == [] then None
    else
      assert ns != [] ==> ns[0] in ns;
      assert ts != [] ==> ts[0] in ts;
      Some(Clip(s.selectedNodeIds, s.selectedTextIds, ClipNodes(ns), EdgesWithin(s.edges, s.selectedNodeIds), Seqs.Map(ts, ClipTextOf)))
  }

  /** The copied cards carry exactly the ids of the selected cards that exist. */
  lemma CopySourceIds(s: EditorState)
    requires CopyOf(s).Some?
    ensures SourceIds(CopyOf(s).value.nodes) == (set n | n in s.nodes && n.id in s.selectedNodeIds :: n.id)
  {
    ClipNodesIds(NodesIn(s.nodes, s.selectedNodeIds));
  }

  /** When every edge joins existing cards, every copied edge joins two copied cards. */
  lemma CopyEdgesClosed(s: EditorState)
    requires Consistent(s.nodes, s.edges, s.edgeArrows)
    requires CopyOf(s).Some?
    ensures var c := CopyOf(s).value;
      forall e :: e in c.edges ==> e.from in SourceIds(c.nodes) && e.to in SourceIds(c.nodes)
  {
    var c := CopyOf(s).value;
    forall e | e in c.edges ensures e.from in SourceIds(c.nodes) && e.to in SourceIds(c.nodes) {
      var m :| m in s.nodes && m.id == e.from;
      var k :| k in s.nodes && k.id == e.to;
    }
  }

  // ---------------------------------------------------------------- paste

  /** The k-th paste since the last copy moves the copies by 60 * k on both axes. */
  function PasteOffset(count: int): int {
    3 * GridSize * count
  }

  /**
   * The k-th pasted card: the fresh id first + k, the offset position and the
   * copied fields, then clamped. The original normalises time, tags and memos
   * again here; the copy already holds them normalised (CopiedFieldsNormal).
   */
  function PastedNode(c: ClipNode, first: int, k: int, offset: int): (r: Node)
    ensures r.id == first + k && r.h == c.h && r.title == c.title && r.mode == Material
    ensures 0 <= r.x <= BoardW - NodeW && 0 <= r.y && (c.h <= BoardH ==> r.y <= BoardH - c.h)
  {
    ClampNode(Node(first + k, c.x + offset, c.y + offset, c.h, c.title, Material, c.color, c.time, c.tags, c.memos))
  }

  function PastedNodes(cs: seq<ClipNode>, first: int, offset: int): (r: seq<Node>)
    ensures |r| == |cs|
    ensures forall i :: 0 <= i < |cs| ==> r[i] == PastedNode(cs[i], first, i, offset)
  {
    seq(|cs|, i requires 0 <= i < |cs| => PastedNode(cs[i], first, i, offset))
  }

  /** Pasting one more card appends its copy. */
  lemma PastedNodesSnoc(cs: seq<ClipNode>, i: int, first: int, offset: int)
    requires 0 <= i < |cs|
    ensures PastedNodes(cs[..i + 1], first, offset) == PastedNodes(cs[..i], first, offset) + [PastedNode(cs[i], first, i, offset)]
  {
    assert cs[..i + 1][..i] == cs[..i];
  }

  function PastedText(t: ClipText, id: int, offset: int): (r: TextItem)
    ensures r.id == id && r.text == t.text && r.bold == t.bold
  {
    ClampText(TextItem(id, t.x + offset, t.y + offset, t.w, t.h, t.text, t.bold))
  }

  function PastedTexts(ts: seq<ClipText>, first: int, offset: int): (r: seq<TextItem>)
    ensures |r| == |ts|
    ensures forall i :: 0 <= i < |ts| ==> r[i] == PastedText(ts[i], first + i, offset)
  {
    seq(|ts|, i requires 0 <= i < |ts| => PastedText(ts[i], first + i, offset))
  }

  lemma PastedTextsSnoc(ts: seq<ClipText>, i: int, first: int, offset: int)
    requires 0 <= i < |ts|
    ensures PastedTexts(ts[..i + 1], first, offset) == PastedTexts(ts[..i], first, offset) + [PastedText(ts[i], first + i, offset)]
  {
    assert ts[..i + 1][..i] == ts[..i];
  }

  /** The ids first, first + 1, ..., first + n - 1. */
  function FreshRange(first: int, n: nat): (r: seq<int>)
    ensures |r| == n && forall i :: 0 <= i < n ==> r[i] == first + i
    ensures Seqs.NoDup(r)
  {
    seq(n, i requires 0 <= i < n => first + i)
  }

  /** The range grows by one id at its end. */
  lemma FreshRangeSnoc(first: int, n: nat)
    ensures FreshRange(first, n + 1) == FreshRange(first, n) + [first + n]
  {
    var a, b := FreshRange(first, n + 1), FreshRange(first, n) + [first + n];
    forall i | 0 <= i < n + 1
      ensures a[i] == b[i]
    {
      if i < n {
        assert b[i] == FreshRange(first, n)[i];
      }
    }
  }

  function SourceIdSeq(cs: seq<ClipNode>): (r: seq<int>)
    ensures |r| == |cs| && forall i :: 0 <= i < |cs| ==> r[i] == cs[i].sourceId
  {
    seq(|cs|, i requires 0 <= i < |cs| => cs[i].sourceId)
  }

  /**
   * The map from a copied card's id to its copy's id, as the paste loop fills it
   * in order: the i-th copied card is pasted with id `first + i`.
   */
  function PasteIdMap(cs: seq<ClipNode>, first: int): map<int, int>
    decreases |cs|
  {
    if cs == [] then map[]
    else PasteIdMap(cs[..|cs| - 1], first)[cs[|cs| - 1].sourceId := first + |cs| - 1]
  }

  /** The map has an entry for exactly the copied cards' ids. */
  lemma {:induction false} PasteIdMapKeys(cs: seq<ClipNode>, first: int)
    ensures PasteIdMap(cs, first).Keys == SourceIds(cs)
    decreases |cs|
  {
    if cs != [] {
      var n := |cs| - 1;
      PasteIdMapKeys(cs[..n], first);
      assert cs == cs[..n] + [cs[n]];
      assert SourceIds(cs) == SourceIds(cs[..n]) + {cs[n].sourceId};
    }
  }

  /** One more card extends the map by its pairing. */
  lemma PasteIdMapSnoc(cs: seq<ClipNode>, i: int, first: int)
    requires 0 <= i < |cs|
    ensures PasteIdMap(cs[..i + 1], first) == PasteIdMap(cs[..i], first)[cs[i].sourceId := first + i]
  {
    assert cs[..i + 1][..i] == cs[..i];
  }

  /** With distinct source ids, each copied card's id maps to the id of its own copy. */
  lemma {:induction false} PasteIdMapPairs(cs: seq<ClipNode>, first: int)
    requires Seqs.NoDup(SourceIdSeq(cs))
    ensures forall i :: 0 <= i < |cs| ==>
      cs[i].sourceId in PasteIdMap(cs, first) && PasteIdMap(cs, first)[cs[i].sourceId] == first + i
    decreases |cs|
  {
    if cs != [] {
      var n := |cs| - 1;
      assert SourceIdSeq(cs[..n]) == SourceIdSeq(cs)[..n];
      PasteIdMapPairs(cs[..n], first);
      forall i | 0 <= i < n ensures cs[i].sourceId != cs[n].sourceId {
        assert SourceIdSeq(cs)[i] != SourceIdSeq(cs)[n];
      }
    }
  }

  /** Re-attaching one copied edge: only when both ends were copied and both new ids are truthy. */
  function PasteEdge(edges: seq<Edge>, e: Edge, m: map<int, int>): seq<Edge> {
    if e.from in m && e.to in m && m[e.from] != 0 && m[e.to] != 0
    then Upsert(edges, Edge(m[e.from], m[e.to], e.fromSide, e.toSide))
    else edges
  }

  /** The edge loop of the paste, in clipboard order. */
  function PasteEdges(edges: seq<Edge>, ces: seq<Edge>, m: map<int, int>): seq<Edge>
    decreases |ces|
  {
    if ces == [] then edges
    else PasteEdge(PasteEdges(edges, ces[..|ces| - 1], m), ces[|ces| - 1], m)
  }

  /**
   * Every edge after the paste was there before or is the image of a copied edge
   * under the id map; every copied edge whose ends both map to truthy ids has an
   * image, and no edge that was there disappears.
   */
  lemma {:induction false} PasteEdgesSpec(edges: seq<Edge>, ces: seq<Edge>, m: map<int, int>)
    ensures var r := PasteEdges(edges, ces, m);
      (forall f :: f in r ==> (f in edges ||
        exists e :: e in ces && e.from in m && e.to in m && f == Edge(m[e.from], m[e.to], e.fromSide, e.toSide))) &&
      (forall e :: e in ces && e.from in m && e.to in m && m[e.from] != 0 && m[e.to] != 0 ==> EdgeExists(r, m[e.from], m[e.to])) &&
      (forall a, b :: EdgeExists(edges, a, b) ==> EdgeExists(r, a, b))
    decreases |ces|
  {
    if ces != [] {
      var n := |ces| - 1;
      var p := PasteEdges(edges, ces[..n], m);
      PasteEdgesSpec(edges, ces[..n], m);
      var e := ces[n];
      assert forall x :: x in ces[..n] ==> x in ces;
      if e.from in m && e.to in m && m[e.from] != 0 && m[e.to] != 0 {
        UpsertBasics(p, Edge(m[e.from], m[e.to], e.fromSide, e.toSide));
      }
      assert forall x :: x in ces ==> x in ces[..n] || x == e by {
        assert ces == ces[..n] + [e];
      }
    }
  }

  /**
   * The intended remapping: an edge between two copied cards is re-created
   * between their two copies, whatever order the cards were selected in.
   */
  lemma PasteConnectsCopies(edges: seq<Edge>, cs: seq<ClipNode>, ces: seq<Edge>, first: int, e: Edge, i: int, j: int)
    requires Seqs.NoDup(SourceIdSeq(cs)) && first > 0
    requires e in ces && 0 <= i < |cs| && 0 <= j < |cs| && cs[i].sourceId == e.from && cs[j].sourceId == e.to
    ensures EdgeExists(PasteEdges(edges, ces, PasteIdMap(cs, first)), first + i, first + j)
  {
    var m := PasteIdMap(cs, first);
    PasteIdMapPairs(cs, first);
    assert cs[i] in cs && cs[j] in cs;
    PasteEdgesSpec(edges, ces, m);
  }

  // ---------------------------------------------------------------- the paste as written

  /**
   * The id map as the original fills it: the idx-th pasted card's new id is
   * stored under `sourceIds[idx]`, the idx-th id in SELECTION order, although the
   * cards themselves are in document order.
   */
  function PasteIdMapAsWritten(sourceIds: seq<int>, count: nat, first: int): map<int, int>
    decreases count
  {
    if count == 0 then map[]
    else
      var m := PasteIdMapAsWritten(sourceIds, count - 1, first);
      if count - 1 < |sourceIds| then m[sourceIds[count - 1] := first + count - 1] else m
  }

  /** Cards 3 and 5 joined by the edge 3 -> 5, selected as [5, 3]. */
  function ExampleState(): EditorState {
    EditorState([Node(3, 0, 0, NodeH, "", Material, Gray, "", [], []), Node(5, 0, 200, NodeH, "", Material, Gray, "", [], [])],
                [Edge(3, 5, Bottom, Top)], [], [], [], 6, 1, 1, [5, 3], [], [], [])
  }

  function ExampleClip(): Clip {
    var s := ExampleState();
    Clip([5, 3], [], [ClipNodeOf(s.nodes[0]), ClipNodeOf(s.nodes[1])], [Edge(3, 5, Bottom, Top)], [])
  }

  lemma CopyOfExample()
    ensures CopyOf(ExampleState()) == Some(ExampleClip())
  {
    var s := ExampleState();
    assert s.selectedNodeIds[0] == 5 && s.selectedNodeIds[1] == 3;
    var ns := NodesIn(s.nodes, s.selectedNodeIds);
    assert ns == s.nodes by {
      assert s.nodes[1..][1..] == [];
      assert NodesIn(s.nodes[1..][1..], s.selectedNodeIds) == [];
      assert NodesIn(s.nodes[1..], s.selectedNodeIds) == [s.nodes[1]];
    }
    var es := EdgesWithin(s.edges, s.selectedNodeIds);
    assert es == s.edges by {
      assert s.edges[1..] == [];
      assert EdgesWithin(s.edges[1..], s.selectedNodeIds) == [];
    }
    var cs := ClipNodes(ns);
    assert cs == ExampleClip().nodes;
    var ts := TextsIn(s.texts, s.selectedTextIds);
    assert ts == [];
    assert Seqs.Map(ts, ClipTextOf) == [];
  }

  lemma ExampleMaps()
    ensures PasteIdMapAsWritten(ExampleClip().sourceIds, 2, 6) == map[5 := 6, 3 := 7]
    ensures PasteIdMap(ExampleClip().nodes, 6) == map[3 := 6, 5 := 7]
  {
    var c := ExampleClip();
    assert c.nodes[..1] == [c.nodes[0]];
    assert c.nodes[0].sourceId == 3 && c.nodes[1].sourceId == 5;
  }

  /** One edge pasted into no edges lands between the two mapped ids. */
  lemma PasteOneEdge(e: Edge, m: map<int, int>)
    requires e.from in m && e.to in m && m[e.from] != 0 && m[e.to] != 0
    ensures PasteEdges([], [e], m) == [Edge(m[e.from], m[e.to], e.fromSide, e.toSide)]
  {
    assert [e][..0] == [];
    assert FindEdge([], m[e.from], m[e.to]) == -1;
  }

  /**
   * In the example the copy of card 3 gets id 6 and the copy of card 5 gets 7, but
   * the map as written sends 3 to 7 and 5 to 6, so the pasted edge runs 7 -> 6,
   * from the copy of 5 to the copy of 3. The corrected map gives 6 -> 7.
   */
  lemma PasteAsWrittenReversesEdge()
    ensures CopyOf(ExampleState()) == Some(ExampleClip())
    ensures var c := ExampleClip();
      PastedNodes(c.nodes, 6, 60)[0].id == 6 && c.nodes[0].sourceId == 3 &&
      PastedNodes(c.nodes, 6, 60)[1].id == 7 && c.nodes[1].sourceId == 5 &&
      PasteEdges([], c.edges, PasteIdMapAsWritten(c.sourceIds, |c.nodes|, 6)) == [Edge(7, 6, Bottom, Top)] &&
      PasteEdges([], c.edges, PasteIdMap(c.nodes, 6)) == [Edge(6, 7, Bottom, Top)]
  {
    CopyOfExample();
    ExampleMaps();
    var c := ExampleClip();
    assert c.edges == [c.edges[0]];
    PasteOneEdge(c.edges[0], map[5 := 6, 3 := 7]);
    PasteOneEdge(c.edges[0], map[3 := 6, 5 := 7]);
  }
}
