/**
 * The grouping loop of `fetch_diary_entries` (notion_fetcher.py): the blocks
 * of a Notion page are read in order; a level-2 heading opens a new diary
 * day, whose date is the heading text read as `YYYY-MM-DD` and rewritten as
 * `M/D` (or the heading text itself when it is not such a date), and the
 * non-blank lines of the paragraphs after it become that day's entry, one
 * `<p class='diary-block'>` element per line.
 *
 * The pages of blocks the Notion API hands out one after another are modelled
 * as the single sequence they add up to.
 */
module Diary {
  import opened Wrappers
  import Strings
  import Seqs

  /** The blocks the loop looks at; `texts` are the `plain_text` fields of a block's rich-text pieces. */
  datatype Block = Heading(texts: seq<string>) | Paragraph(texts: seq<string>) | Other

  /** A day as `datetime.strptime(text, "%Y-%m-%d")` reads it. */
  datatype Date = Date(year: int, month: nat, day: nat)

  /** One element of the returned list: `{"date": ..., "html": ...}`. */
  datatype Entry = Entry(date: string, html: string)

  /** The lines collected under one dated heading, before they are rendered. */
  datatype Group = Group(date: string, lines: seq<string>)

  /**
   * The loop's variables: the days finished so far, `current_date` and
   * `current_lines`. The empty date stands for `None` as well: the source tests
   * the date for truth, and `None` and `""` are both false.
   */
  datatype State = State(groups: seq<Group>, date: string, lines: seq<string>)

  /** `diary = []`, `current_date = None`, `current_lines = []`. */
  const Start := State([], "", [])

  /** `f"<p class='diary-block'>{line}</p>"`. */
  function Wrap(line: string): string {
    "<p class='diary-block'>" + line + "</p>"
  }

  /** `"\n".join(...)` of the wrapped lines. */
  function HtmlOf(lines: seq<string>): string {
    Strings.Join(Seqs.Map(lines, Wrap), "\n")
  }

  function EntryOf(g: Group): Entry {
    Entry(g.date, HtmlOf(g.lines))
  }

  /**
   * The date of a heading: `strftime("%-m/%-d")` of the parsed day, month and
   * day without leading zeros, or the text unchanged when `parse` (standing for
   * `strptime`, which raises `ValueError`) rejects it.
   */
  function DateOf(text: string, parse: string -> Option<Date>): (r: string)
    ensures parse(text).None? ==> r == text
    ensures parse(text).Some? ==> r != "" && Strings.HasChar(r, '/')
  {
    match parse(text)
    case Some(d) =>
      var r := Strings.NatToString(d.month) + "/" + Strings.NatToString(d.day);
      assert r[|Strings.NatToString(d.month)|] == '/';
      r
    case None => text
  }

  /** The stripped, non-blank lines among `pieces`, in order. */
  function Kept(pieces: seq<string>): (r: seq<string>)
    ensures |r| <= |pieces|
  {
    if pieces == [] then []
    else
      var line := Strings.Trim(pieces[|pieces| - 1]);
      if line != "" then Kept(pieces[..|pieces| - 1]) + [line] else Kept(pieces[..|pieces| - 1])
  }

  /** The lines a paragraph adds: its pieces joined, split at line breaks, stripped, blank ones dropped. */
  function ParagraphLines(texts: seq<string>): seq<string> {
    if texts == [] then [] else Kept(Strings.Split(Strings.Join(texts, ""), '\n'))
  }

  /** `if current_date and current_lines:` the pending lines become a finished day. */
  function Close(st: State): State {
    if st.date != "" && st.lines != [] then State(st.groups + [Group(st.date, st.lines)], st.date, [])
    else st
  }

  /**
   * One block. A heading whose rich text is empty fails: `rich_text[0]` raises
   * `IndexError`, which ends the whole call.
   */
  function Step(st: State, b: Block, parse: string -> Option<Date>): Option<State> {
    match b
    case Heading(texts) =>
      var c := Close(st);
      if texts == [] then None else Some(State(c.groups, DateOf(texts[0], parse), c.lines))
    case Paragraph(texts) => Some(State(st.groups, st.date, st.lines + ParagraphLines(texts)))
    case Other => Some(st)
  }

  /** The state after the blocks, or `None` once one of them failed. */
  function Run(blocks: seq<Block>, parse: string -> Option<Date>): Option<State> {
    if blocks == [] then Some(Start)
    else
      var prev := Run(blocks[..|blocks| - 1], parse);
      if prev.None? then None else Step(prev.value, blocks[|blocks| - 1], parse)
  }

  /** The finished days, the last one closed after the loop. */
  function Groups(blocks: seq<Block>, parse: string -> Option<Date>): Option<seq<Group>> {
    var st := Run(blocks, parse);
    if st.None? then None else Some(Close(st.value).groups)
  }

  /** What `fetch_diary_entries` returns, or `None` when it raises. */
  function Diary(blocks: seq<Block>, parse: string -> Option<Date>): Option<seq<Entry>> {
    var gs := Groups(blocks, parse);
    if gs.None? then None else Some(Seqs.Map(gs.value, EntryOf))
  }

  /** The loop of `fetch_diary_entries`, over all blocks of the page. */
  method FetchDiaryEntries(blocks: seq<Block>, parse: string -> Option<Date>) returns (r: Option<seq<Entry>>)
    ensures r == Diary(blocks, parse)
  {
    var diary: seq<Entry> := [];
    var date := "";
    var lines: seq<string> := [];
    ghost var groups: seq<Group> := [];
    for i := 0 to |blocks|
      invariant Run(blocks[..i], parse) == Some(State(groups, date, lines))
      invariant diary == Seqs.Map(groups, EntryOf)
    {
      assert blocks[..i + 1][..i] == blocks[..i];
      ghost var next := Step(State(groups, date, lines), blocks[i], parse);
      assert Run(blocks[..i + 1], parse) == next;
      match blocks[i]
      case Heading(texts) =>
        if date != "" && lines != [] {
          diary := diary + [Entry(date, HtmlOf(lines))];
          groups := groups + [Group(date, lines)];
          lines := [];
        }
        if texts == [] {
          RunFailureStays(blocks, i + 1, parse);
          return None;
        }
        date := DateOf(texts[0], parse);
      case Paragraph(texts) =>
        lines := AddParagraph(lines, texts);
      case Other =>
    }
    assert blocks[..|blocks|] == blocks;
    if date != "" && lines != [] {
      diary := diary + [Entry(date, HtmlOf(lines))];
      groups := groups + [Group(date, lines)];
      assert diary == Seqs.Map(groups, EntryOf);
    }
    assert Groups(blocks, parse) == Some(groups);
    return Some(diary);
  }

  /** The paragraph branch: `current_lines.append(line.strip())` for each non-blank line of the joined text. */
  method AddParagraph(lines: seq<string>, texts: seq<string>) returns (r: seq<string>)
    ensures r == lines + ParagraphLines(texts)
  {
    r := lines;
    if texts != [] {
      r := AddLines(lines, Strings.Split(Strings.Join(texts, ""), '\n'));
    }
  }

  /** `for line in lines: if line.strip(): current_lines.append(line.strip())`. */
  method AddLines(lines: seq<string>, pieces: seq<string>) returns (r: seq<string>)
    ensures r == lines + Kept(pieces)
  {
    r := lines;
    for j := 0 to |pieces|
      invariant r == lines + Kept(pieces[..j])
    {
      var line := Strings.Trim(pieces[j]);
      ghost var kept := Kept(pieces[..j]);
      assert pieces[..j + 1][..j] == pieces[..j];
      if line != "" {
        assert Kept(pieces[..j + 1]) == kept + [line];
        r := r + [line];
        assert r == lines + (kept + [line]);
      } else {
        assert Kept(pieces[..j + 1]) == kept;
      }
    }
    assert pieces[..|pieces|] == pieces;
  }

  /** Once a block has failed, the whole call has. */
  lemma {:induction false} RunFailureStays(blocks: seq<Block>, i: nat, parse: string -> Option<Date>)
    requires i <= |blocks| && Run(blocks[..i], parse).None?
    ensures Run(blocks, parse).None?
    decreases |blocks| - i
  {
    if i < |blocks| {
      assert blocks[..i + 1][..i] == blocks[..i];
      RunFailureStays(blocks, i + 1, parse);
    } else {
      assert blocks[..i] == blocks;
    }
  }

  // Failure

  /** The call fails exactly when some heading has no rich text. */
  lemma {:induction false} FailsIffEmptyHeading(blocks: seq<Block>, parse: string -> Option<Date>)
    ensures Run(blocks, parse).None? <==> exists k :: 0 <= k < |blocks| && blocks[k] == Heading([])
  {
    if blocks != [] {
      var init := blocks[..|blocks| - 1];
      FailsIffEmptyHeading(init, parse);
      if exists k :: 0 <= k < |init| && init[k] == Heading([]) {
        var k :| 0 <= k < |init| && init[k] == Heading([]);
        assert blocks[k] == Heading([]);
      }
      if exists k :: 0 <= k < |blocks| && blocks[k] == Heading([]) {
        var k :| 0 <= k < |blocks| && blocks[k] == Heading([]);
        if k < |init| {
          assert init[k] == Heading([]);
        }
      }
    }
  }

  // The fold only depends on the state it has reached

  /** Two block lists that reach the same state go on alike. */
  lemma {:induction false} RunAppend(a: seq<Block>, a': seq<Block>, b: seq<Block>, parse: string -> Option<Date>)
    requires Run(a, parse) == Run(a', parse)
    ensures Run(a + b, parse) == Run(a' + b, parse)
  {
    if b != [] {
      var init := b[..|b| - 1];
      RunAppend(a, a', init, parse);
      assert (a + b)[..|a + b| - 1] == a + init;
      assert (a' + b)[..|a' + b| - 1] == a' + init;
    } else {
      assert a + b == a && a' + b == a';
    }
  }

  /** Blocks that are neither headings nor paragraphs change nothing wherever they stand. */
  lemma OtherIgnored(a: seq<Block>, b: seq<Block>, parse: string -> Option<Date>)
    ensures Run(a + [Other] + b, parse) == Run(a + b, parse)
  {
    assert (a + [Other])[..|a|] == a;
    RunAppend(a + [Other], a, b, parse);
  }

  // What each line and each day looks like

  /** A line as it is stored: stripped, non-blank and on one line. */
  predicate GoodLine(line: string) {
    line != "" && Strings.IsTrimmed(line) && Strings.NoChar(line, '\n')
  }

  predicate GoodLines(lines: seq<string>) {
    forall k :: 0 <= k < |lines| ==> GoodLine(lines[k])
  }

  /** A finished day has a date and at least one line, all of them good. */
  predicate GoodGroup(g: Group) {
    g.date != "" && g.lines != [] && GoodLines(g.lines)
  }

  predicate GoodState(st: State) {
    (forall k :: 0 <= k < |st.groups| ==> GoodGroup(st.groups[k])) && GoodLines(st.lines)
  }

  lemma TrimNoChar(s: string, c: char)
    requires Strings.NoChar(s, c)
    ensures Strings.NoChar(Strings.Trim(s), c)
  {
    var a := Strings.TrimStart(s);
    Strings.TrimStartSuffix(s);
    assert Strings.NoChar(a, c);
  }

  lemma {:induction false} KeptGood(pieces: seq<string>)
    requires forall k :: 0 <= k < |pieces| ==> Strings.NoChar(pieces[k], '\n')
    ensures GoodLines(Kept(pieces))
  {
    if pieces != [] {
      KeptGood(pieces[..|pieces| - 1]);
      TrimNoChar(pieces[|pieces| - 1], '\n');
    }
  }

  /** Every line a paragraph adds is stripped, non-blank and free of line breaks. */
  lemma ParagraphLinesGood(texts: seq<string>)
    ensures GoodLines(ParagraphLines(texts))
  {
    if texts != [] {
      Strings.SplitJoin(Strings.Join(texts, ""), '\n');
      KeptGood(Strings.Split(Strings.Join(texts, ""), '\n'));
    }
  }

  lemma {:induction false} RunGood(blocks: seq<Block>, parse: string -> Option<Date>)
    requires Run(blocks, parse).Some?
    ensures GoodState(Run(blocks, parse).value)
  {
    if blocks != [] {
      var init := blocks[..|blocks| - 1];
      RunGood(init, parse);
      var b := blocks[|blocks| - 1];
      if b.Paragraph? {
        ParagraphLinesGood(b.texts);
      }
    }
  }

  /** Every returned day has a date and at least one good line. */
  lemma GroupsGood(blocks: seq<Block>, parse: string -> Option<Date>)
    requires Groups(blocks, parse).Some?
    ensures forall k :: 0 <= k < |Groups(blocks, parse).value| ==> GoodGroup(Groups(blocks, parse).value[k])
  {
    RunGood(blocks, parse);
  }

  /** The html of a day splits at its line breaks back into the wrapped lines, one per stored line. */
  lemma HtmlLines(lines: seq<string>)
    requires lines != [] && GoodLines(lines)
    ensures Strings.Split(HtmlOf(lines), '\n') == Seqs.Map(lines, Wrap)
  {
    var parts := Seqs.Map(lines, Wrap);
    forall k | 0 <= k < |parts|
      ensures Strings.NoChar(parts[k], '\n')
    {
      assert parts[k] == "<p class='diary-block'>" + lines[k] + "</p>";
    }
    Strings.JoinSplit(parts, '\n');
  }

  lemma WrapInjective(a: string, b: string)
    requires Wrap(a) == Wrap(b)
    ensures a == b
  {
    var n := |"<p class='diary-block'>"|;
    assert a == Wrap(a)[n..|Wrap(a)| - 4];
    assert b == Wrap(b)[n..|Wrap(b)| - 4];
  }

  /** A returned entry has a date and html from which its lines can be read back. */
  lemma EntriesReadBack(blocks: seq<Block>, parse: string -> Option<Date>, k: int)
    requires Groups(blocks, parse).Some?
    requires 0 <= k < |Groups(blocks, parse).value|
    ensures var g := Groups(blocks, parse).value[k];
      var e := Diary(blocks, parse).value[k];
      e.date == g.date && e.date != "" && Strings.Split(e.html, '\n') == Seqs.Map(g.lines, Wrap)
  {
    GroupsGood(blocks, parse);
    HtmlLines(Groups(blocks, parse).value[k].lines);
  }

  // No line is lost

  /** Every line the paragraphs provide, in order. */
  function AllLines(blocks: seq<Block>): seq<string> {
    if blocks == [] then []
    else
      var b := blocks[|blocks| - 1];
      if b.Paragraph? then AllLines(blocks[..|blocks| - 1]) + ParagraphLines(b.texts)
      else AllLines(blocks[..|blocks| - 1])
  }

  /** The lines of the days, one day after another. */
  function Flat(gs: seq<Group>): seq<string> {
    if gs == [] then [] else Flat(gs[..|gs| - 1]) + gs[|gs| - 1].lines
  }

  lemma FlatAppend(gs: seq<Group>, g: Group)
    ensures Flat(gs + [g]) == Flat(gs) + g.lines
  {
    assert (gs + [g])[..|gs|] == gs;
  }

  lemma CloseKeepsLines(st: State)
    ensures Flat(Close(st).groups) + Close(st).lines == Flat(st.groups) + st.lines
  {
    if st.date != "" && st.lines != [] {
      FlatAppend(st.groups, Group(st.date, st.lines));
    }
  }

  /** Along the fold, the finished days followed by the pending lines are exactly the lines read so far. */
  lemma {:induction false} RunKeepsLines(blocks: seq<Block>, parse: string -> Option<Date>)
    requires Run(blocks, parse).Some?
    ensures var st := Run(blocks, parse).value; Flat(st.groups) + st.lines == AllLines(blocks)
  {
    if blocks != [] {
      var init := blocks[..|blocks| - 1];
      RunKeepsLines(init, parse);
      var st := Run(init, parse).value;
      match blocks[|blocks| - 1]
      case Heading(texts) =>
        CloseKeepsLines(st);
      case Paragraph(texts) =>
      case Other =>
    }
  }

  /**
   * Every line is returned, in order, except the lines that follow the last
   * heading when that heading gave no date (or when there is no heading at all).
   */
  lemma LinesReturned(blocks: seq<Block>, parse: string -> Option<Date>)
    requires Run(blocks, parse).Some?
    ensures var st := Run(blocks, parse).value;
      var gs := Groups(blocks, parse).value;
      if st.date != "" then Flat(gs) == AllLines(blocks) else Flat(gs) + st.lines == AllLines(blocks)
  {
    var st := Run(blocks, parse).value;
    RunKeepsLines(blocks, parse);
    CloseKeepsLines(st);
  }

  /** Before the first heading the lines only pile up, with no date. */
  lemma {:induction false} Preamble(blocks: seq<Block>, parse: string -> Option<Date>)
    requires forall k :: 0 <= k < |blocks| ==> !blocks[k].Heading?
    ensures Run(blocks, parse) == Some(State([], "", AllLines(blocks)))
  {
    if blocks != [] {
      Preamble(blocks[..|blocks| - 1], parse);
    }
  }

  /** A heading that follows an undated stretch keeps its lines: they join the new day. */
  lemma UndatedLinesCarryOver(st: State, texts: seq<string>, parse: string -> Option<Date>)
    requires st.date == "" && texts != []
    ensures Step(st, Heading(texts), parse) == Some(State(st.groups, DateOf(texts[0], parse), st.lines))
  {
  }

  /** A dated heading with no lines under it yields no entry; the next heading just replaces its date. */
  lemma EmptyDayDropped(st: State, texts: seq<string>, parse: string -> Option<Date>)
    requires st.lines == [] && texts != []
    ensures Step(st, Heading(texts), parse) == Some(State(st.groups, DateOf(texts[0], parse), []))
  {
  }

  // How many days

  function Headings(blocks: seq<Block>): nat {
    if blocks == [] then 0
    else Headings(blocks[..|blocks| - 1]) + (if blocks[|blocks| - 1].Heading? then 1 else 0)
  }

  /** Each finished day, and the open one, was opened by its own heading. */
  lemma {:induction false} RunCount(blocks: seq<Block>, parse: string -> Option<Date>)
    requires Run(blocks, parse).Some?
    ensures var st := Run(blocks, parse).value;
      |st.groups| + (if st.date != "" then 1 else 0) <= Headings(blocks)
  {
    if blocks != [] {
      RunCount(blocks[..|blocks| - 1], parse);
    }
  }

  /** There are at most as many entries as headings. */
  lemma AtMostOneEntryPerHeading(blocks: seq<Block>, parse: string -> Option<Date>)
    requires Diary(blocks, parse).Some?
    ensures |Diary(blocks, parse).value| <= Headings(blocks)
  {
    RunCount(blocks, parse);
  }
}
