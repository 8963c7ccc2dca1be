/**
 * The legacy-tolerant loader of recipe content: `normalizeEdges` and
 * `convertLegacyContent` with the `normalizeNode*` field rules, applied to a
 * parsed JSON value. Content in the current format (a `nodes` array) is read
 * field by field with defaults; older content (a `cards` array with grid
 * columns and rows) is laid out on the board. Reading a property of a `null`
 * element throws a TypeError, which the model returns as an outcome.
 */
module Loader {
  import opened Wrappers
  import opened JsValue
  import opened Geometry
  import opened Document
  import Strings
  import Seqs

  /** The loader either returns its result or throws a TypeError. */
  datatype Outcome<T> = Ok(value: T) | TypeError

  /** `Array.isArray(v) ? v : []`. */
  function Items(v: Value): seq<Value> {
    if v.Arr? then v.items else []
  }

  /** Some element of the array is `null` or `undefined`, so mapping over it reads a property of it and throws. */
  predicate HasNullish(v: Value) {
    v.Arr? && exists i :: 0 <= i < |v.items| && Nullish(v.items[i])
  }

  /** `xs.map(f).filter(x => x !== null)` for a mapping that drops an element by answering None. */
  function Collect<T>(xs: seq<Value>, f: Value -> Option<T>): (r: seq<T>)
    ensures |r| <= |xs|
    ensures forall y :: y in r ==> exists i :: 0 <= i < |xs| && f(xs[i]) == Some(y)
    ensures forall i :: 0 <= i < |xs| && f(xs[i]).Some? ==> f(xs[i]).value in r
    decreases |xs|
  {
    if xs == [] then []
    else
      var rest := Collect(xs[1..], f);
      assert forall i :: 1 <= i < |xs| ==> xs[1..][i - 1] == xs[i];
      match f(xs[0])
      case Some(y) => [y] + rest
      case None => rest
  }

  /** `reduce((m, x) => Math.max(m, x), 0)`: the largest value, or 0. */
  function MaxOf(xs: seq<int>): (r: int)
    ensures r >= 0 && forall i :: 0 <= i < |xs| ==> xs[i] <= r
    ensures r == 0 || exists i :: 0 <= i < |xs| && xs[i] == r
    decreases |xs|
  {
    if xs == [] then 0
    else
      var m := MaxOf(xs[..|xs| - 1]);
      assert forall i :: 0 <= i < |xs| - 1 ==> xs[..|xs| - 1][i] == xs[i];
      if xs[|xs| - 1] > m then xs[|xs| - 1] else m
  }

  /** `Number.isInteger(v) ? v : maxId + 1`. */
  function Counter(v: Value, maxId: int): int {
    if v.Num? then v.n else maxId + 1
  }

  // ---------------------------------------------------------------- edges

  /** One element of `normalizeEdges`: dropped unless both ends are numeric; the sides are coerced. */
  function EdgeOf(e: Value): (r: Option<Edge>)
    ensures r.Some? <==> ToNumber(Get(e, "from")).Some? && ToNumber(Get(e, "to")).Some?
    ensures r.Some? ==> r.value.from == ToNumber(Get(e, "from")).value && r.value.to == ToNumber(Get(e, "to")).value
    ensures r.Some? ==> (r.value.fromSide == Top <==> Get(e, "fromSide") == Str("top")) && r.value.fromSide != Left && r.value.fromSide != Right
    ensures r.Some? ==> (r.value.toSide == Bottom <==> Get(e, "toSide") == Str("bottom")) && r.value.toSide != Left && r.value.toSide != Right
  {
    var from, to := ToNumber(Get(e, "from")), ToNumber(Get(e, "to"));
    if from.Some? && to.Some? then
      Some(Edge(from.value, to.value,
                if Get(e, "fromSide") == Str("top") then Top else Bottom,
                if Get(e, "toSide") == Str("bottom") then Bottom else Top))
    else None
  }

  /** `normalizeEdges`: [] for a non-array; a TypeError when an element is nullish. */
  function NormalizeEdges(v: Value): (r: Outcome<seq<Edge>>)
    ensures r.TypeError? <==> HasNullish(v)
    ensures r.Ok? ==> forall e :: e in r.value ==> exists i :: 0 <= i < |Items(v)| && EdgeOf(Items(v)[i]) == Some(e)
    ensures r.Ok? ==> forall i :: 0 <= i < |Items(v)| && EdgeOf(Items(v)[i]).Some? ==> EdgeOf(Items(v)[i]).value in r.value
  {
    if HasNullish(v) then TypeError else Ok(Collect(Items(v), EdgeOf))
  }

  // ---------------------------------------------------------------- node fields

  /** `normalizeNodeMode`: only the exact string "cook" selects cook mode. */
  function ModeOf(v: Value): Mode {
    if v == Str("cook") then Cook else Material
  }

  /** `normalizeNodeColor`: "green" and "orange" are kept, everything else is gray. */
  function ColorOf(v: Value): Color {
    if v == Str("green") then Green else if v == Str("orange") then Orange else Gray
  }

  /** `normalizeNodeTime`: `String(time || "").trim()`. */
  function TimeOf(v: Value): string {
    Strings.Trim(OrEmptyString(v))
  }

  /** `normalizeNodeTags`: [] for a non-array, else each element as a string, trimmed, blanks dropped. */
  function TagsOf(v: Value): (r: seq<string>)
    ensures forall t :: t in r ==> t != "" && Strings.IsTrimmed(t)
  {
    if v.Arr? then NormalizeTags(Seqs.Map(v.items, OrEmptyString)) else []
  }

  /** `normalizeNodeMemos`: as tags, cut to the first one. */
  function MemosOf(v: Value): (r: seq<string>)
    ensures |r| <= 1 && forall t :: t in r ==> t != "" && Strings.IsTrimmed(t)
  {
    if v.Arr? then NormalizeMemos(Seqs.Map(v.items, OrEmptyString)) else []
  }

  // ---------------------------------------------------------------- the current format

  /** `Number.isFinite(v) ? v : d` (no coercion). */
  function FiniteOr(v: Value, d: int): int {
    if v.Num? then v.n else d
  }

  /** The `i`-th element of `data.nodes`, its fields defaulted and normalised, then clamped. */
  function CurrentNode(n: Value, i: int): (r: Node)
    ensures r.id == NumberOr(Get(n, "id"), i + 1) && r.h == NumberOr(Get(n, "h"), NodeH)
    ensures 0 <= r.x <= BoardW - NodeW && 0 <= r.y && (r.h <= BoardH ==> r.y <= BoardH - r.h)
    ensures |r.memos| <= 1
  {
    ClampNode(Node(NumberOr(Get(n, "id"), i + 1), FiniteOr(Get(n, "x"), 24), FiniteOr(Get(n, "y"), 24),
                   NumberOr(Get(n, "h"), NodeH), OrEmptyString(Get(n, "title")), ModeOf(Get(n, "mode")),
                   ColorOf(Get(n, "color")), TimeOf(Get(n, "time")), TagsOf(Get(n, "tags")), MemosOf(Get(n, "memos"))))
  }

  /** The `i`-th element of `data.stepLines` before the board filter: its y snapped to the grid. */
  function CurrentLine(l: Value, i: int): (r: StepLine)
    ensures r.id == NumberOr(Get(l, "id"), i + 1)
    ensures r.y % GridSize == 0 && NumberOr(Get(l, "y"), 0) - 10 < r.y <= NumberOr(Get(l, "y"), 0) + 10
  {
    StepLine(NumberOr(Get(l, "id"), i + 1), Snap(NumberOr(Get(l, "y"), 0)), Strings.Trim(OrEmptyString(Get(l, "label"))))
  }

  predicate LineOnBoard(l: StepLine) {
    0 <= l.y <= BoardH
  }

  /** The `i`-th element of `data.texts`: a numeric position is snapped, a missing one is 24; then clamped. */
  function CurrentText(t: Value, i: int): (r: TextItem)
    ensures r.id == NumberOr(Get(t, "id"), i + 1) && r.w == NumberOr(Get(t, "w"), TextW) && r.h == NumberOr(Get(t, "h"), TextH)
    ensures 0 <= r.x && 0 <= r.y && (r.w <= BoardW ==> r.x <= BoardW - r.w) && (r.h <= BoardH ==> r.y <= BoardH - r.h)
  {
    var x, y := ToNumber(Get(t, "x")), ToNumber(Get(t, "y"));
    ClampText(TextItem(NumberOr(Get(t, "id"), i + 1),
                       if x.Some? then Snap(x.value) else 24, if y.Some? then Snap(y.value) else 24,
                       NumberOr(Get(t, "w"), TextW), NumberOr(Get(t, "h"), TextH),
                       OrEmptyString(Get(t, "text")), Truthy(Get(t, "bold"))))
  }

  /** One element of `data.edgeArrows`: kept when its source is numeric and its key names a loaded edge. */
  function ArrowOf(a: Value, keys: set<string>): (r: Option<EdgeArrow>)
    ensures r.Some? ==> r.value.toEdgeKey in keys
    ensures r.Some? <==> ToNumber(Get(a, "from")).Some? && OrEmptyString(Get(a, "toEdgeKey")) in keys
  {
    var from := ToNumber(Get(a, "from"));
    var key := OrEmptyString(Get(a, "toEdgeKey"));
    if from.Some? && key in keys then Some(EdgeArrow(from.value, key)) else None
  }

  function ArrowFn(keys: set<string>): Value -> Option<EdgeArrow> {
    a => ArrowOf(a, keys)
  }

  function NodesOf(xs: seq<Value>): (r: seq<Node>)
    ensures |r| == |xs| && forall i :: 0 <= i < |xs| ==> r[i] == CurrentNode(xs[i], i)
  {
    seq(|xs|, i requires 0 <= i < |xs| => CurrentNode(xs[i], i))
  }

  function LinesOf(xs: seq<Value>): (r: seq<StepLine>)
    ensures |r| == |xs| && forall i :: 0 <= i < |xs| ==> r[i] == CurrentLine(xs[i], i)
  {
    seq(|xs|, i requires 0 <= i < |xs| => CurrentLine(xs[i], i))
  }

  function TextsOf(xs: seq<Value>): (r: seq<TextItem>)
    ensures |r| == |xs| && forall i :: 0 <= i < |xs| ==> r[i] == CurrentText(xs[i], i)
  {
    seq(|xs|, i requires 0 <= i < |xs| => CurrentText(xs[i], i))
  }

  /** Some list the current format maps over holds a nullish element. */
  predicate CurrentThrows(data: Value) {
    HasNullish(Get(data, "nodes")) || HasNullish(Get(data, "stepLines")) || HasNullish(Get(data, "texts")) ||
    HasNullish(Get(data, "edges")) || HasNullish(Get(data, "edgeArrows"))
  }

  /** The first branch of `convertLegacyContent`, taken when `data.nodes` is an array. */
  function ConvertCurrent(data: Value): (r: Outcome<Content>)
    ensures r.TypeError? <==> CurrentThrows(data)
    ensures r.Ok? ==> |r.value.nodes| == |Items(Get(data, "nodes"))| && r.value.edgeArrows == Collect(Items(Get(data, "edgeArrows")), ArrowFn(EdgeKeys(r.value.edges)))
    ensures r.Ok? ==> NormalizeEdges(Get(data, "edges")) == Ok(r.value.edges)
  {
    if CurrentThrows(data) then TypeError
    else
      var nodes := NodesOf(Items(Get(data, "nodes")));
      var lines := Seqs.Filter(LinesOf(Items(Get(data, "stepLines"))), LineOnBoard);
      var texts := TextsOf(Items(Get(data, "texts")));
      var edges := Collect(Items(Get(data, "edges")), EdgeOf);
      var arrows := Collect(Items(Get(data, "edgeArrows")), ArrowFn(EdgeKeys(edges)));
      Ok(Content(nodes, edges, arrows, lines, texts,
                 Counter(Get(data, "nextId"), MaxOf(Seqs.Map(nodes, NodeId))),
                 Counter(Get(data, "nextStepLineId"), MaxOf(Seqs.Map(lines, LineId))),
                 Counter(Get(data, "nextTextId"), MaxOf(Seqs.Map(texts, TextId)))))
  }

  // ---------------------------------------------------------------- the legacy format

  /** A legacy card: its own position if numeric, else its grid cell (column · 240 + 24, row · 110 + 24); then clamped. */
  function LegacyNode(c: Value, i: int): (r: Node)
    ensures r.id == (if Get(c, "id").Num? then Get(c, "id").n else i + 1)
    ensures !Get(c, "x").Num? ==> r.x == Clamp(0, BoardW - NodeW, NumberOr(Get(c, "col"), 0) * 240 + 24)
    ensures !Get(c, "y").Num? ==> r.y == Clamp(0, BoardH - NodeH, NumberOr(Get(c, "row"), 0) * 110 + 24)
    ensures r.h == NodeH && r.mode == Material && r.color == Gray && r.time == "" && r.tags == [] && r.memos == []
  {
    var x := if Get(c, "x").Num? then Get(c, "x").n else NumberOr(Get(c, "col"), 0) * 240 + 24;
    var y := if Get(c, "y").Num? then Get(c, "y").n else NumberOr(Get(c, "row"), 0) * 110 + 24;
    ClampNode(Node(if Get(c, "id").Num? then Get(c, "id").n else i + 1, x, y, NodeH,
                   OrEmptyString(Get(c, "title")), Material, Gray, "", [], []))
  }

  function LegacyNodesOf(xs: seq<Value>): (r: seq<Node>)
    ensures |r| == |xs| && forall i :: 0 <= i < |xs| ==> r[i] == LegacyNode(xs[i], i)
  {
    seq(|xs|, i requires 0 <= i < |xs| => LegacyNode(xs[i], i))
  }

  /** The second branch: cards and edges only, the line and text counters at 1. */
  function ConvertLegacy(data: Value): (r: Outcome<Content>)
    ensures r.TypeError? <==> HasNullish(Get(data, "cards")) || HasNullish(Get(data, "edges"))
    ensures r.Ok? ==> r.value.edgeArrows == [] && r.value.stepLines == [] && r.value.texts == []
    ensures r.Ok? ==> r.value.nextStepLineId == 1 && r.value.nextTextId == 1
    ensures r.Ok? ==> |r.value.nodes| == |Items(Get(data, "cards"))| && NormalizeEdges(Get(data, "edges")) == Ok(r.value.edges)
  {
    if HasNullish(Get(data, "cards")) || HasNullish(Get(data, "edges")) then TypeError
    else
      var nodes := LegacyNodesOf(Items(Get(data, "cards")));
      Ok(Content(nodes, Collect(Items(Get(data, "edges")), EdgeOf), [], [], [],
                 Counter(Get(data, "nextId"), MaxOf(Seqs.Map(nodes, NodeId))), 1, 1))
  }

  /** `convertLegacyContent(data)`; `data` itself nullish throws as well. */
  function Convert(data: Value): (r: Outcome<Content>)
    ensures Nullish(data) ==> r.TypeError?
  {
    if Nullish(data) then TypeError
    else if Get(data, "nodes").Arr? then ConvertCurrent(data)
    else ConvertLegacy(data)
  }

  // ---------------------------------------------------------------- what the loader promises

  /** Every key is at most the maximum the reduce finds. */
  lemma BelowMax<T>(xs: seq<T>, key: T -> int)
    ensures forall x :: x in xs ==> key(x) <= MaxOf(Seqs.Map(xs, key))
  {
    forall x | x in xs ensures key(x) <= MaxOf(Seqs.Map(xs, key)) {
      var k :| 0 <= k < |xs| && xs[k] == x;
      assert Seqs.Map(xs, key)[k] == key(x);
    }
  }

  /** Every id read is below its counter when the counter was not given as an integer. */
  lemma ConvertCountersFresh(data: Value)
    requires Convert(data).Ok?
    ensures var c := Convert(data).value;
      (!Get(data, "nextId").Num? ==> forall n :: n in c.nodes ==> n.id < c.nextId) &&
      (!Get(data, "nextStepLineId").Num? ==> forall l :: l in c.stepLines ==> l.id < c.nextStepLineId) &&
      (!Get(data, "nextTextId").Num? ==> forall t :: t in c.texts ==> t.id < c.nextTextId)
  {
    var c := Convert(data).value;
    BelowMax(c.nodes, NodeId);
    BelowMax(c.stepLines, LineId);
    BelowMax(c.texts, TextId);
    if Get(data, "nodes").Arr? {
      assert c == ConvertCurrent(data).value;
    } else {
      assert c == ConvertLegacy(data).value;
    }
  }

  /** Loaded step lines are on the grid and on the board. */
  lemma ConvertLinesOnGrid(data: Value)
    requires Convert(data).Ok?
    ensures forall l :: l in Convert(data).value.stepLines ==> l.y % GridSize == 0 && 0 <= l.y <= BoardH
  {
    var c := Convert(data).value;
    if Get(data, "nodes").Arr? {
      var ls := LinesOf(Items(Get(data, "stepLines")));
      assert c.stepLines == Seqs.Filter(ls, LineOnBoard);
      Seqs.FilterMembers(ls, LineOnBoard);
      forall l | l in c.stepLines ensures l.y % GridSize == 0 && 0 <= l.y <= BoardH {
        assert l in ls && LineOnBoard(l);
        var k :| 0 <= k < |ls| && ls[k] == l;
      }
    }
  }

  /** Loaded arrows point at loaded edges, and loaded edges use only the top and bottom sides. */
  lemma ConvertArrowsAndSides(data: Value)
    requires Convert(data).Ok?
    ensures var c := Convert(data).value;
      (forall a :: a in c.edgeArrows ==> a.toEdgeKey in EdgeKeys(c.edges)) &&
      (forall e :: e in c.edges ==> e.fromSide in {Top, Bottom} && e.toSide in {Top, Bottom})
  {
    var c := Convert(data).value;
    assert c.edgeArrows == [] || c.edgeArrows == Collect(Items(Get(data, "edgeArrows")), ArrowFn(EdgeKeys(c.edges)));
    ArrowsKeyed(Items(Get(data, "edgeArrows")), EdgeKeys(c.edges));
    assert NormalizeEdges(Get(data, "edges")) == Ok(c.edges);
    EdgesVertical(Items(Get(data, "edges")));
  }

  lemma ArrowsKeyed(xs: seq<Value>, keys: set<string>)
    ensures forall a :: a in Collect(xs, ArrowFn(keys)) ==> a.toEdgeKey in keys
  {
    forall a | a in Collect(xs, ArrowFn(keys)) ensures a.toEdgeKey in keys {
      var k :| 0 <= k < |xs| && ArrowFn(keys)(xs[k]) == Some(a);
    }
  }

  lemma EdgesVertical(xs: seq<Value>)
    ensures forall e :: e in Collect(xs, EdgeOf) ==> e.fromSide in {Top, Bottom} && e.toSide in {Top, Bottom}
  {
    forall e | e in Collect(xs, EdgeOf) ensures e.fromSide in {Top, Bottom} && e.toSide in {Top, Bottom} {
      var k :| 0 <= k < |xs| && EdgeOf(xs[k]) == Some(e);
    }
  }

  /** The cards a successful load returns, by format. */
  lemma ConvertNodes(data: Value)
    requires Convert(data).Ok?
    ensures Convert(data).value.nodes ==
      if Get(data, "nodes").Arr? then NodesOf(Items(Get(data, "nodes"))) else LegacyNodesOf(Items(Get(data, "cards")))
  {
  }

  /** A card on the board that holds at most one memo. */
  predicate NodeOnBoard(n: Node) {
    0 <= n.x <= BoardW - NodeW && 0 <= n.y && |n.memos| <= 1
  }

  lemma NodesOnBoard(xs: seq<Value>)
    ensures forall n :: n in NodesOf(xs) ==> NodeOnBoard(n)
    ensures forall n :: n in LegacyNodesOf(xs) ==> NodeOnBoard(n)
  {
    forall n | n in NodesOf(xs) ensures NodeOnBoard(n) {
      var k :| 0 <= k < |xs| && NodesOf(xs)[k] == n;
    }
    forall n | n in LegacyNodesOf(xs) ensures NodeOnBoard(n) {
      var k :| 0 <= k < |xs| && LegacyNodesOf(xs)[k] == n;
    }
  }

  /** Loaded cards lie on the board and hold at most one memo. */
  lemma ConvertNodesOnBoard(data: Value)
    requires Convert(data).Ok?
    ensures forall n :: n in Convert(data).value.nodes ==> 0 <= n.x <= BoardW - NodeW && 0 <= n.y && |n.memos| <= 1
  {
    ConvertNodes(data);
    NodesOnBoard(Items(Get(data, "nodes")));
    NodesOnBoard(Items(Get(data, "cards")));
    assert forall n :: n in Convert(data).value.nodes ==> NodeOnBoard(n);
  }
}

/**
 * Saving and loading again: the content the editor saves (`snapshot()`, as
 * `JSON.parse(JSON.stringify(...))` gives it back) and the conditions under
 * which `convertLegacyContent` returns exactly that content.
 */
module SavedContent {
  import opened Wrappers
  import opened JsValue
  import opened Geometry
  import opened Document
  import opened Loader
  import Strings
  import Seqs

  function SideName(s: Side): string {
    match s
    case Top => "top"
    case Bottom => "bottom"
    case Left => "left"
    case Right => "right"
  }

  function ModeName(m: Mode): string {
    if m == Cook then "cook" else "material"
  }

  function ColorName(c: Color): string {
    match c
    case Gray => "gray"
    case Green => "green"
    case Orange => "orange"
  }

  function StrValue(s: string): Value {
    Str(s)
  }

  function StrArr(xs: seq<string>): Value {
    Arr(Seqs.Map(xs, StrValue))
  }

  function EncodeNode(n: Node): Value {
    Obj(map["id" := Num(n.id), "x" := Num(n.x), "y" := Num(n.y), "h" := Num(n.h), "title" := Str(n.title),
            "mode" := Str(ModeName(n.mode)), "color" := Str(ColorName(n.color)), "time" := Str(n.time),
            "tags" := StrArr(n.tags), "memos" := StrArr(n.memos)])
  }

  function EncodeEdge(e: Edge): Value {
    Obj(map["from" := Num(e.from), "to" := Num(e.to), "fromSide" := Str(SideName(e.fromSide)), "toSide" := Str(SideName(e.toSide))])
  }

  function EncodeArrow(a: EdgeArrow): Value {
    Obj(map["from" := Num(a.from), "toEdgeKey" := Str(a.toEdgeKey)])
  }

  function EncodeLine(l: StepLine): Value {
    Obj(map["id" := Num(l.id), "y" := Num(l.y), "label" := Str(l.caption)])
  }

  function EncodeText(t: TextItem): Value {
    Obj(map["id" := Num(t.id), "x" := Num(t.x), "y" := Num(t.y), "w" := Num(t.w), "h" := Num(t.h),
            "text" := Str(t.text), "bold" := Bool(t.bold)])
  }

  /** `snapshot()` as a parsed JSON value. */
  function Encode(c: Content): Value {
    Obj(map["nodes" := Arr(Seqs.Map(c.nodes, EncodeNode)), "edges" := Arr(Seqs.Map(c.edges, EncodeEdge)),
            "edgeArrows" := Arr(Seqs.Map(c.edgeArrows, EncodeArrow)), "stepLines" := Arr(Seqs.Map(c.stepLines, EncodeLine)),
            "texts" := Arr(Seqs.Map(c.texts, EncodeText)), "nextId" := Num(c.nextId),
            "nextStepLineId" := Num(c.nextStepLineId), "nextTextId" := Num(c.nextTextId)])
  }

  predicate NormalStrings(xs: seq<string>) {
    forall t :: t in xs ==> t != "" && Strings.IsTrimmed(t)
  }

  /** A card the loader leaves as it is: on the board, with normalised time, tags and memos. */
  predicate NormalNode(n: Node) {
    0 <= n.x <= BoardW - NodeW && 0 <= n.y <= BoardH - n.h && Strings.IsTrimmed(n.time) &&
    NormalStrings(n.tags) && NormalStrings(n.memos) && |n.memos| <= 1
  }

  predicate NormalEdge(e: Edge) {
    (e.fromSide == Top || e.fromSide == Bottom) && (e.toSide == Top || e.toSide == Bottom)
  }

  predicate NormalLine(l: StepLine) {
    l.y % GridSize == 0 && 0 <= l.y <= BoardH && Strings.IsTrimmed(l.caption)
  }

  predicate NormalText(t: TextItem) {
    t.x % GridSize == 0 && t.y % GridSize == 0 && 0 <= t.x <= BoardW - t.w && 0 <= t.y <= BoardH - t.h
  }

  predicate NormalContent(c: Content) {
    (forall n :: n in c.nodes ==> NormalNode(n)) && (forall e :: e in c.edges ==> NormalEdge(e)) &&
    (forall a :: a in c.edgeArrows ==> a.toEdgeKey in EdgeKeys(c.edges)) &&
    (forall l :: l in c.stepLines ==> NormalLine(l)) && (forall t :: t in c.texts ==> NormalText(t))
  }

  lemma NormalStringsKept(xs: seq<string>)
    requires NormalStrings(xs)
    ensures Seqs.Map(Seqs.Map(xs, StrValue), OrEmptyString) == xs && NormalizeTags(xs) == xs
    ensures |xs| <= 1 ==> NormalizeMemos(xs) == xs
  {
    TrimAllOfTrimmed(xs);
    NonEmptyOfNonEmpty(xs);
  }

  lemma NodeFields(n: Node)
    ensures var v := EncodeNode(n);
      Get(v, "id") == Num(n.id) && Get(v, "x") == Num(n.x) && Get(v, "y") == Num(n.y) && Get(v, "h") == Num(n.h) &&
      Get(v, "mode") == Str(ModeName(n.mode)) && Get(v, "color") == Str(ColorName(n.color)) &&
      Get(v, "title") == Str(n.title) && Get(v, "time") == Str(n.time) &&
      Get(v, "tags") == StrArr(n.tags) && Get(v, "memos") == StrArr(n.memos)
  {
  }

  lemma TagsKept(xs: seq<string>)
    requires NormalStrings(xs)
    ensures TagsOf(StrArr(xs)) == xs && (|xs| <= 1 ==> MemosOf(StrArr(xs)) == xs)
  {
    NormalStringsKept(xs);
  }

  lemma TimeKept(t: string)
    requires Strings.IsTrimmed(t)
    ensures TimeOf(Str(t)) == t
  {
    Strings.TrimmedIsFixed(t);
  }

  lemma NodeStringsKept(n: Node, i: int)
    requires NormalNode(n)
    ensures var r := CurrentNode(EncodeNode(n), i);
      r.title == n.title && r.time == n.time && r.tags == n.tags && r.memos == n.memos
  {
    NodeFields(n);
    TagsKept(n.tags);
    TagsKept(n.memos);
    TimeKept(n.time);
  }

  lemma NodeNumbersKept(n: Node, i: int)
    requires NormalNode(n)
    ensures var r := CurrentNode(EncodeNode(n), i);
      r.id == n.id && r.x == n.x && r.y == n.y && r.h == n.h && r.mode == n.mode && r.color == n.color
  {
    NodeFields(n);
    NumberOfNum(n.id, i + 1);
    NumberOfNum(n.h, NodeH);
    ModeKept(n.mode);
    ColorKept(n.color);
  }

  lemma ModeKept(m: Mode)
    ensures ModeOf(Str(ModeName(m))) == m
  {
  }

  lemma ColorKept(c: Color)
    ensures ColorOf(Str(ColorName(c))) == c
  {
  }

  lemma NodeKept(n: Node, i: int)
    requires NormalNode(n)
    ensures CurrentNode(EncodeNode(n), i) == n
  {
    NodeStringsKept(n, i);
    NodeNumbersKept(n, i);
  }

  lemma LineCaptionKept(l: StepLine)
    requires Strings.IsTrimmed(l.caption)
    ensures Strings.Trim(OrEmptyString(Get(EncodeLine(l), "label"))) == l.caption
  {
    assert Get(EncodeLine(l), "label") == Str(l.caption);
    Strings.TrimmedIsFixed(l.caption);
  }

  lemma LineKept(l: StepLine, i: int)
    requires NormalLine(l)
    ensures CurrentLine(EncodeLine(l), i) == l
  {
    var v := EncodeLine(l);
    assert Get(v, "id") == Num(l.id) && Get(v, "y") == Num(l.y);
    SnapOfGrid(l.y);
    LineCaptionKept(l);
  }

  lemma TextKept(t: TextItem, i: int)
    requires NormalText(t)
    ensures CurrentText(EncodeText(t), i) == t
  {
    var v := EncodeText(t);
    assert Get(v, "id") == Num(t.id) && Get(v, "x") == Num(t.x) && Get(v, "y") == Num(t.y);
    assert Get(v, "w") == Num(t.w) && Get(v, "h") == Num(t.h) && Get(v, "text") == Str(t.text) && Get(v, "bold") == Bool(t.bold);
    SnapOfGrid(t.x);
    SnapOfGrid(t.y);
    assert NumberOr(Num(t.id), i + 1) == t.id && NumberOr(Num(t.w), TextW) == t.w && NumberOr(Num(t.h), TextH) == t.h;
    assert OrEmptyString(Str(t.text)) == t.text && Truthy(Bool(t.bold)) == t.bold;
  }

  /** Collecting encoded elements that the mapping decodes back gives the elements. */
  lemma {:induction false} CollectEncoded<T>(xs: seq<T>, enc: T -> Value, f: Value -> Option<T>)
    requires forall x :: x in xs ==> f(enc(x)) == Some(x)
    ensures Collect(Seqs.Map(xs, enc), f) == xs
  {
    if xs != [] {
      assert Seqs.Map(xs, enc)[1..] == Seqs.Map(xs[1..], enc);
      assert forall x :: x in xs[1..] ==> x in xs;
      CollectEncoded(xs[1..], enc, f);
      assert f(enc(xs[0])) == Some(xs[0]) by { assert xs[0] in xs; }
      assert [xs[0]] + xs[1..] == xs;
    }
  }

  lemma ContentFields(c: Content)
    ensures var v := Encode(c);
      Get(v, "nodes") == Arr(Seqs.Map(c.nodes, EncodeNode)) && Get(v, "edges") == Arr(Seqs.Map(c.edges, EncodeEdge)) &&
      Get(v, "edgeArrows") == Arr(Seqs.Map(c.edgeArrows, EncodeArrow)) && Get(v, "stepLines") == Arr(Seqs.Map(c.stepLines, EncodeLine)) &&
      Get(v, "texts") == Arr(Seqs.Map(c.texts, EncodeText)) && Get(v, "nextId") == Num(c.nextId) &&
      Get(v, "nextStepLineId") == Num(c.nextStepLineId) && Get(v, "nextTextId") == Num(c.nextTextId)
  {
  }

  lemma NodesKept(nodes: seq<Node>)
    requires forall n :: n in nodes ==> NormalNode(n)
    ensures NodesOf(Seqs.Map(nodes, EncodeNode)) == nodes
  {
    forall i | 0 <= i < |nodes| ensures NodesOf(Seqs.Map(nodes, EncodeNode))[i] == nodes[i] {
      NodeKept(nodes[i], i);
    }
  }

  lemma LinesKept(lines: seq<StepLine>)
    requires forall l :: l in lines ==> NormalLine(l)
    ensures Seqs.Filter(LinesOf(Seqs.Map(lines, EncodeLine)), LineOnBoard) == lines
  {
    forall i | 0 <= i < |lines| ensures LinesOf(Seqs.Map(lines, EncodeLine))[i] == lines[i] {
      LineKept(lines[i], i);
    }
    assert LinesOf(Seqs.Map(lines, EncodeLine)) == lines;
    Seqs.FilterAll(lines, LineOnBoard);
  }

  lemma TextsKept(texts: seq<TextItem>)
    requires forall t :: t in texts ==> NormalText(t)
    ensures TextsOf(Seqs.Map(texts, EncodeText)) == texts
  {
    forall i | 0 <= i < |texts| ensures TextsOf(Seqs.Map(texts, EncodeText))[i] == texts[i] {
      TextKept(texts[i], i);
    }
  }

  lemma EdgeKept(e: Edge)
    requires NormalEdge(e)
    ensures EdgeOf(EncodeEdge(e)) == Some(e)
  {
    var v := EncodeEdge(e);
    assert Get(v, "from") == Num(e.from) && Get(v, "to") == Num(e.to);
    assert Get(v, "fromSide") == Str(SideName(e.fromSide)) && Get(v, "toSide") == Str(SideName(e.toSide));
  }

  lemma ArrowKept(a: EdgeArrow, keys: set<string>)
    requires a.toEdgeKey in keys
    ensures ArrowFn(keys)(EncodeArrow(a)) == Some(a)
  {
    var v := EncodeArrow(a);
    assert Get(v, "from") == Num(a.from) && Get(v, "toEdgeKey") == Str(a.toEdgeKey);
  }

  lemma LinksKept(c: Content)
    requires NormalContent(c)
    ensures Collect(Seqs.Map(c.edges, EncodeEdge), EdgeOf) == c.edges
    ensures Collect(Seqs.Map(c.edgeArrows, EncodeArrow), ArrowFn(EdgeKeys(c.edges))) == c.edgeArrows
  {
    forall e | e in c.edges ensures EdgeOf(EncodeEdge(e)) == Some(e) {
      EdgeKept(e);
    }
    CollectEncoded(c.edges, EncodeEdge, EdgeOf);
    forall a | a in c.edgeArrows ensures ArrowFn(EdgeKeys(c.edges))(EncodeArrow(a)) == Some(a) {
      ArrowKept(a, EdgeKeys(c.edges));
    }
    CollectEncoded(c.edgeArrows, EncodeArrow, ArrowFn(EdgeKeys(c.edges)));
  }

  /** The saved value is read by the current-format branch, and no list in it holds a nullish element. */
  lemma EncodedReads(c: Content)
    ensures Get(Encode(c), "nodes").Arr? && !CurrentThrows(Encode(c))
  {
    ContentFields(c);
  }

  /** Loading what was saved gives back the same content, whenever that content is in the loader's normal form. */
  lemma LoadSaved(c: Content)
    requires NormalContent(c)
    ensures Convert(Encode(c)) == Ok(c)
  {
    var data := Encode(c);
    ContentFields(c);
    NodesKept(c.nodes);
    LinesKept(c.stepLines);
    TextsKept(c.texts);
    LinksKept(c);
    EncodedReads(c);
  }
}
