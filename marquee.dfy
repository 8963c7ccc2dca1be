/**
 * The rectangle selection of the cooking-chart editor: the dragged rectangle,
 * the hit tests for cards, step lines and texts, and the resulting selection
 * (added to the selection at drag start when the drag is additive).
 */
module Marquee {
  import opened Geometry
  import opened Document
  import Seqs

  /** The dragged rectangle with its corners ordered: x1 <= x2 and y1 <= y2. */
  datatype Rect = Rect(x1: int, y1: int, x2: int, y2: int)

  function Min(a: int, b: int): int { if a <= b then a else b }
  function Max(a: int, b: int): int { if a <= b then b else a }

  function RectOf(sx: int, sy: int, ex: int, ey: int): (r: Rect)
    ensures r.x1 <= r.x2 && r.y1 <= r.y2
    ensures r.x1 <= sx <= r.x2 && r.x1 <= ex <= r.x2 && r.y1 <= sy <= r.y2 && r.y1 <= ey <= r.y2
  {
    Rect(Min(sx, ex), Min(sy, ey), Max(sx, ex), Max(sy, ey))
  }

  /** Dragging from either corner to the other gives the same rectangle. */
  lemma RectOfSymmetric(sx: int, sy: int, ex: int, ey: int)
    ensures RectOf(sx, sy, ex, ey) == RectOf(ex, ey, sx, sy)
    ensures RectOf(sx, sy, ex, ey) == RectOf(sx, ey, ex, sy)
  {
  }

  /** A card is hit unless its box lies wholly to one side of the rectangle (touching counts). */
  predicate NodeHit(n: Node, r: Rect) {
    !(n.x + NodeW < r.x1 || n.x > r.x2 || n.y + n.h < r.y1 || n.y > r.y2)
  }

  predicate LineHit(l: StepLine, r: Rect) {
    r.y1 <= l.y <= r.y2
  }

  predicate TextHit(t: TextItem, r: Rect) {
    !(t.x + t.w < r.x1 || t.x > r.x2 || t.y + t.h < r.y1 || t.y > r.y2)
  }

  predicate Within(a: Rect, b: Rect) {
    b.x1 <= a.x1 && a.x2 <= b.x2 && b.y1 <= a.y1 && a.y2 <= b.y2
  }

  /** Growing the rectangle never loses a hit. */
  lemma HitMonotone(n: Node, l: StepLine, t: TextItem, a: Rect, b: Rect)
    requires a.x1 <= a.x2 && a.y1 <= a.y2 && Within(a, b)
    ensures NodeHit(n, a) ==> NodeHit(n, b)
    ensures LineHit(l, a) ==> LineHit(l, b)
    ensures TextHit(t, a) ==> TextHit(t, b)
  {
  }

  /** A card lying wholly inside the rectangle is hit. */
  lemma InsideIsHit(n: Node, r: Rect)
    requires r.x1 <= n.x && n.x + NodeW <= r.x2 && r.y1 <= n.y && n.y + n.h <= r.y2 && 0 <= n.h
    ensures NodeHit(n, r)
  {
  }

  /** The ids of the hit cards, in document order. */
  function HitNodeIds(nodes: seq<Node>, r: Rect): (ids: seq<int>)
    ensures forall i :: i in ids <==> exists n :: n in nodes && n.id == i && NodeHit(n, r)
  {
    if nodes == [] then []
    else
      var rest := HitNodeIds(nodes[1..], r);
      assert forall n :: n in nodes <==> n == nodes[0] || n in nodes[1..];
      (if NodeHit(nodes[0], r) then [nodes[0].id] else []) + rest
  }

  function HitLineIds(lines: seq<StepLine>, r: Rect): (ids: seq<int>)
    ensures forall i :: i in ids <==> exists l :: l in lines && l.id == i && LineHit(l, r)
  {
    if lines == [] then []
    else
      var rest := HitLineIds(lines[1..], r);
      assert forall l :: l in lines <==> l == lines[0] || l in lines[1..];
      (if LineHit(lines[0], r) then [lines[0].id] else []) + rest
  }

  function HitTextIds(texts: seq<TextItem>, r: Rect): (ids: seq<int>)
    ensures forall i :: i in ids <==> exists t :: t in texts && t.id == i && TextHit(t, r)
  {
    if texts == [] then []
    else
      var rest := HitTextIds(texts[1..], r);
      assert forall t :: t in texts <==> t == texts[0] || t in texts[1..];
      (if TextHit(texts[0], r) then [texts[0].id] else []) + rest
  }

  /** The base selection of an additive drag, or nothing. */
  function Base<T>(additive: bool, base: seq<T>): seq<T> {
    if additive then base else []
  }

  /**
   * `applyMarqueeSelection` on the card list: the new selection holds a card id
   * exactly when it was in the base of an additive drag or a card with that id
   * is hit, once each, base ids first.
   */
  function MarqueeNodes(nodes: seq<Node>, r: Rect, additive: bool, base: seq<int>): (sel: seq<int>)
    ensures Seqs.NoDup(sel)
    ensures forall i :: i in sel <==> (additive && i in base) || exists n :: n in nodes && n.id == i && NodeHit(n, r)
    ensures additive ==> |Seqs.Dedup(base)| <= |sel| && sel[..|Seqs.Dedup(base)|] == Seqs.Dedup(base)
  {
    Seqs.DedupPrefixOfAppend(base, HitNodeIds(nodes, r));
    Seqs.Dedup(Base(additive, base) + HitNodeIds(nodes, r))
  }

  /** The same on the step lines. */
  function MarqueeLines(lines: seq<StepLine>, r: Rect, additive: bool, base: seq<int>): (sel: seq<int>)
    ensures Seqs.NoDup(sel)
    ensures forall i :: i in sel <==> (additive && i in base) || exists l :: l in lines && l.id == i && LineHit(l, r)
    ensures additive ==> |Seqs.Dedup(base)| <= |sel| && sel[..|Seqs.Dedup(base)|] == Seqs.Dedup(base)
  {
    Seqs.DedupPrefixOfAppend(base, HitLineIds(lines, r));
    Seqs.Dedup(Base(additive, base) + HitLineIds(lines, r))
  }

  /** The same on the texts. */
  function MarqueeTexts(texts: seq<TextItem>, r: Rect, additive: bool, base: seq<int>): (sel: seq<int>)
    ensures Seqs.NoDup(sel)
    ensures forall i :: i in sel <==> (additive && i in base) || exists t :: t in texts && t.id == i && TextHit(t, r)
    ensures additive ==> |Seqs.Dedup(base)| <= |sel| && sel[..|Seqs.Dedup(base)|] == Seqs.Dedup(base)
  {
    Seqs.DedupPrefixOfAppend(base, HitTextIds(texts, r));
    Seqs.Dedup(Base(additive, base) + HitTextIds(texts, r))
  }

  /**
   * The same on edge keys, given the keys of the edges whose curve box the
   * rectangle touches (that test is floating point and not part of this model).
   */
  function MarqueeKeys(hitKeys: seq<string>, additive: bool, base: seq<string>): (sel: seq<string>)
    ensures Seqs.NoDup(sel)
    ensures forall k :: k in sel <==> (additive && k in base) || k in hitKeys
    ensures additive ==> |Seqs.Dedup(base)| <= |sel| && sel[..|Seqs.Dedup(base)|] == Seqs.Dedup(base)
  {
    Seqs.DedupPrefixOfAppend(base, hitKeys);
    Seqs.Dedup(Base(additive, base) + hitKeys)
  }
}
