/**
 * The listening-history dashboard's CSV reader (lab/spotify_history_viz/app.js):
 * splitting one line into fields with double-quote escaping, splitting the
 * text into lines, and turning each data row into a play record.
 */
module Csv {
  import opened Wrappers
  import Strings
  import Seqs
  import JsValue

  // ---------------------------------------------------------------- splitCsvLine

  /**
   * Reading the rest `s` of a line, given the fields finished so far, the
   * field being read and whether a quoted section is open. A doubled quote
   * inside a quoted section stands for one quote; any other quote opens or
   * closes the section and is dropped; a comma outside quotes ends a field.
   */
  function Scan(s: string, out: seq<string>, cur: string, quoted: bool): seq<string>
    decreases |s|
  {
    if s == [] then out + [cur]
    else if s[0] == '"' then
      if quoted && |s| > 1 && s[1] == '"' then Scan(s[2..], out, cur + ['"'], quoted)
      else Scan(s[1..], out, cur, !quoted)
    else if s[0] == ',' && !quoted then Scan(s[1..], out + [cur], "", quoted)
    else Scan(s[1..], out, cur + [s[0]], quoted)
  }

  /** The fields of one CSV line. */
  function Fields(line: string): seq<string> {
    Scan(line, [], "", false)
  }

  /** `splitCsvLine(line)`: one pass over the characters with a one-character look-ahead. */
  method SplitCsvLine(line: string) returns (fields: seq<string>)
    ensures fields == Fields(line)
  {
    var out: seq<string> := [];
    var cur := "";
    var quoted := false;
    var i := 0;
    while i < |line|
      invariant 0 <= i <= |line|
      invariant Scan(line[i..], out, cur, quoted) == Fields(line)
    {
      var ch := line[i];
      if ch == '"' {
        if quoted && i + 1 < |line| && line[i + 1] == '"' {
          assert line[i..][2..] == line[i + 2..];
          cur := cur + ['"'];
          i := i + 1;
        } else {
          quoted := !quoted;
        }
      } else if ch == ',' && !quoted {
        out := out + [cur];
        cur := "";
      } else {
        cur := cur + [ch];
      }
      i := i + 1;
    }
    fields := out + [cur];
  }

  /**
   * The commas of `s` preceded by an even number of quote characters (or an
   * odd number when `quoted`): every quote character flips the parity.
   */
  function OpenCommas(s: string, quoted: bool): nat
    decreases |s|
  {
    if s == [] then 0
    else if s[0] == '"' then OpenCommas(s[1..], !quoted)
    else (if s[0] == ',' && !quoted then 1 else 0) + OpenCommas(s[1..], quoted)
  }

  lemma {:induction false} ScanCount(s: string, out: seq<string>, cur: string, quoted: bool)
    ensures |Scan(s, out, cur, quoted)| == |out| + 1 + OpenCommas(s, quoted)
    decreases |s|
  {
    if s == [] {
    } else if s[0] == '"' {
      if quoted && |s| > 1 && s[1] == '"' {
        ScanCount(s[2..], out, cur + ['"'], quoted);
        assert s[1..][1..] == s[2..];
      } else {
        ScanCount(s[1..], out, cur, !quoted);
      }
    } else if s[0] == ',' && !quoted {
      ScanCount(s[1..], out + [cur], "", quoted);
    } else {
      ScanCount(s[1..], out, cur + [s[0]], quoted);
    }
  }

  /** A line has one field more than it has commas outside quoted sections. */
  lemma FieldCount(line: string)
    ensures |Fields(line)| == 1 + OpenCommas(line, false)
  {
    ScanCount(line, [], "", false);
  }

  lemma {:induction false} ScanPlain(s: string, out: seq<string>, cur: string)
    requires Strings.NoChar(s, '"')
    ensures var parts := Strings.Split(s, ',');
      Scan(s, out, cur, false) == out + [cur + parts[0]] + parts[1..]
    decreases |s|
  {
    if s != [] {
      var rest := Strings.Split(s[1..], ',');
      if s[0] == ',' {
        ScanPlain(s[1..], out + [cur], "");
        assert "" + rest[0] == rest[0];
        assert cur + "" == cur;
        assert Strings.Split(s, ',') == [""] + rest;
      } else {
        ScanPlain(s[1..], out, cur + [s[0]]);
        assert cur + [s[0]] + rest[0] == cur + ([s[0]] + rest[0]);
      }
    }
  }

  /** Without quote characters a line splits exactly as `line.split(",")` would split it. */
  lemma PlainLine(line: string)
    requires Strings.NoChar(line, '"')
    ensures Fields(line) == Strings.Split(line, ',')
  {
    ScanPlain(line, [], "");
    var parts := Strings.Split(line, ',');
    assert "" + parts[0] == parts[0];
    assert [parts[0]] + parts[1..] == parts;
  }

  /** A field written the way a CSV writer quotes it: each `"` doubled, the whole wrapped in quotes. */
  function Doubled(f: string): string {
    Strings.ReplaceAll(f, '"', "\"\"")
  }

  function Quote(f: string): string {
    "\"" + Doubled(f) + "\""
  }

  /** Quoted fields joined by commas. */
  function EncodeLine(fields: seq<string>): string
    decreases |fields|
  {
    if |fields| == 0 then ""
    else if |fields| == 1 then Quote(fields[0])
    else Quote(fields[0]) + "," + EncodeLine(fields[1..])
  }

  lemma {:induction false} ScanQuoted(f: string, rest: string, out: seq<string>, cur: string)
    requires rest == [] || rest[0] != '"'
    ensures Scan(Doubled(f) + ['"'] + rest, out, cur, true) == Scan(rest, out, cur + f, false)
    decreases |f|
  {
    var s := Doubled(f) + ['"'] + rest;
    if f == [] {
      assert s == ['"'] + rest;
      assert s[1..] == rest;
      assert cur + f == cur;
    } else if f[0] == '"' {
      assert Doubled(f) == "\"\"" + Doubled(f[1..]);
      assert s[2..] == Doubled(f[1..]) + ['"'] + rest;
      ScanQuoted(f[1..], rest, out, cur + ['"']);
      assert cur + ['"'] + f[1..] == cur + f;
    } else {
      assert Doubled(f) == [f[0]] + Doubled(f[1..]);
      assert s[1..] == Doubled(f[1..]) + ['"'] + rest;
      ScanQuoted(f[1..], rest, out, cur + [f[0]]);
      assert cur + [f[0]] + f[1..] == cur + f;
    }
  }

  lemma ScanOpenQuote(x: string, out: seq<string>)
    ensures Scan(['"'] + x, out, "", false) == Scan(x, out, "", true)
  {
    assert (['"'] + x)[1..] == x;
  }

  lemma ScanComma(x: string, out: seq<string>, cur: string)
    ensures Scan([','] + x, out, cur, false) == Scan(x, out + [cur], "", false)
  {
    assert ([','] + x)[1..] == x;
  }

  /** A quoted field followed by the rest of the line, read from its opening quote. */
  lemma QuoteShape(f: string, tail: string)
    ensures Quote(f) + tail == ['"'] + (Doubled(f) + ['"'] + tail)
  {
    var q := Doubled(f);
    assert Quote(f) == ['"'] + q + ['"'];
  }

  /** A quoted field is read whole, up to the character after its closing quote. */
  lemma ScanField(f: string, tail: string, out: seq<string>)
    requires tail == [] || tail[0] != '"'
    ensures Scan(Quote(f) + tail, out, "", false) == Scan(tail, out, f, false)
  {
    QuoteShape(f, tail);
    ScanOpenQuote(Doubled(f) + ['"'] + tail, out);
    ScanQuoted(f, tail, out, "");
    assert "" + f == f;
  }

  lemma {:induction false} ScanEncoded(fields: seq<string>, out: seq<string>)
    requires |fields| >= 1
    ensures Scan(EncodeLine(fields), out, "", false) == out + fields
    decreases |fields|
  {
    var f := fields[0];
    var tail := if |fields| == 1 then "" else "," + EncodeLine(fields[1..]);
    assert EncodeLine(fields) == Quote(f) + tail;
    ScanField(f, tail, out);
    if |fields| == 1 {
      assert fields == [f];
    } else {
      ScanComma(EncodeLine(fields[1..]), out, f);
      ScanEncoded(fields[1..], out + [f]);
      assert out + [f] + fields[1..] == out + fields;
    }
  }

  /** Splitting a line written by quoting every field gives back the fields. */
  lemma SplitEncoded(fields: seq<string>)
    requires |fields| >= 1
    ensures Fields(EncodeLine(fields)) == fields
  {
    ScanEncoded(fields, []);
  }

  // ---------------------------------------------------------------- lines

  /** A carriage return at the end of a piece, which the `\r?\n` separator swallows. */
  function DropCR(s: string): string {
    if s != [] && s[|s| - 1] == '\r' then s[..|s| - 1] else s
  }

  /** `text.split(/\r?\n/)`: the last piece is not followed by a newline and keeps its carriage return. */
  function SplitLines(text: string): (r: seq<string>)
    ensures |r| == |Strings.Split(text, '\n')|
  {
    var pieces := Strings.Split(text, '\n');
    seq(|pieces|, k requires 0 <= k < |pieces| => if k < |pieces| - 1 then DropCR(pieces[k]) else pieces[k])
  }

  predicate NonEmpty(s: string) {
    s != []
  }

  /** `text.split(/\r?\n/).filter(Boolean)`. */
  function Lines(text: string): seq<string> {
    Seqs.Filter(SplitLines(text), NonEmpty)
  }

  predicate EndsWithCR(s: string) {
    s != [] && s[|s| - 1] == '\r'
  }

  /** Non-empty lines without newlines or trailing carriage returns, joined by "\n", are read back as they were. */
  lemma LinesOfJoin(ls: seq<string>)
    requires |ls| >= 1
    requires forall k :: 0 <= k < |ls| ==> ls[k] != [] && Strings.NoChar(ls[k], '\n') && !EndsWithCR(ls[k])
    ensures Lines(Strings.Join(ls, "\n")) == ls
  {
    Strings.JoinSplit(ls, '\n');
    var text := Strings.Join(ls, "\n");
    assert Strings.Split(text, '\n') == ls;
    assert SplitLines(text) == ls;
    Seqs.FilterAll(ls, NonEmpty);
  }

  // ---------------------------------------------------------------- parseCsv

  datatype Kind = Music | Podcast

  /**
   * One listening record. `ts` is the instant the date parser gave, `ms` is
   * `Number(...)` of the ms_played cell (None for NaN).
   */
  datatype Play = Play(ts: int, ms: Option<int>, kind: Kind, artist: string, reasonStart: string, track: string)

  /** The column positions found in the header row, -1 when absent. */
  datatype Header = Header(ts: int, ms: int, kind: int, artist: int, reasonStart: int, track: int)

  function HeaderOf(names: seq<string>): Header {
    Header(Seqs.IndexOf(names, "ts"), Seqs.IndexOf(names, "ms_played"), Seqs.IndexOf(names, "content_type"),
           Seqs.IndexOf(names, "artist_name"), Seqs.IndexOf(names, "reason_start"), Seqs.IndexOf(names, "track_name"))
  }

  /** Every column but reason_start is required. */
  predicate Complete(h: Header) {
    h.ts != -1 && h.ms != -1 && h.kind != -1 && h.artist != -1 && h.track != -1
  }

  /** `String(cols[k] || "")`: a column the row does not reach reads as "". */
  function Col(cols: seq<string>, k: int): string {
    if 0 <= k < |cols| then cols[k] else ""
  }

  /** `s.replace(" ", "T")`: only the first space is replaced. */
  function ReplaceFirstSpace(s: string): (r: string)
    ensures |r| == |s|
  {
    if s == [] then s
    else if s[0] == ' ' then "T" + s[1..]
    else [s[0]] + ReplaceFirstSpace(s[1..])
  }

  /** An ISO date with a space between date and time gets its `T`. */
  function NormalizeTs(s: string): string {
    if Strings.HasChar(s, 'T') then s else ReplaceFirstSpace(s)
  }

  /** The trimmed timestamp cell. */
  function TsText(cols: seq<string>, h: Header): string {
    Strings.Trim(Col(cols, h.ts))
  }

  /** The trimmed, lower-cased content type cell. */
  function TypeText(cols: seq<string>, h: Header): string {
    Strings.Lower(Strings.Trim(Col(cols, h.kind)))
  }

  /** The content type, with "episode" read as podcast; anything else is not kept. */
  function KindOf(t: string): (r: Option<Kind>)
    ensures r == Some(Music) <==> t == "music"
    ensures r == Some(Podcast) <==> t == "podcast" || t == "episode"
  {
    if t == "music" then Some(Music)
    else if t == "podcast" || t == "episode" then Some(Podcast)
    else None
  }

  /** The record of a row whose timestamp and type were accepted. */
  function PlayOf(cols: seq<string>, h: Header, ts: int, kind: Kind): (p: Play)
    ensures p.ts == ts && p.kind == kind
    ensures Strings.IsTrimmed(p.artist) && Strings.IsTrimmed(p.track)
    ensures p.reasonStart == Strings.Lower(Strings.Trim(Col(cols, h.reasonStart)))
  {
    Play(ts, JsValue.StrToNumber(Col(cols, h.ms)), kind,
         Strings.Trim(Col(cols, h.artist)),
         Strings.Lower(Strings.Trim(Col(cols, h.reasonStart))),
         Strings.Trim(Col(cols, h.track)))
  }

  /**
   * One data row: skipped when the timestamp is blank or does not parse or
   * the type is neither music nor podcast. `parseDate` stands for
   * `new Date(...)`, None for an invalid date.
   */
  function Row(cols: seq<string>, h: Header, parseDate: string -> Option<int>): (r: Option<Play>)
    ensures r.Some? <==>
      TsText(cols, h) != "" && parseDate(NormalizeTs(TsText(cols, h))).Some? && KindOf(TypeText(cols, h)).Some?
    ensures r.Some? ==> r.value.kind == KindOf(TypeText(cols, h)).value
  {
    var tsRaw := TsText(cols, h);
    if tsRaw == "" then None
    else
      match parseDate(NormalizeTs(tsRaw))
      case None => None
      case Some(ts) =>
        match KindOf(TypeText(cols, h))
        case None => None
        case Some(kind) => Some(PlayOf(cols, h, ts, kind))
  }

  /** Reading one data line. */
  function Reader(h: Header, parseDate: string -> Option<int>): string -> Option<Play> {
    line => Row(Fields(line), h, parseDate)
  }

  /** The plays of the data lines, in order. */
  function Rows(lines: seq<string>, read: string -> Option<Play>): seq<Play>
    decreases |lines|
  {
    if lines == [] then []
    else
      var init := Rows(lines[..|lines| - 1], read);
      match read(lines[|lines| - 1])
      case None => init
      case Some(p) => init + [p]
  }

  /** What `parseCsv(text)` returns. */
  function Parsed(text: string, parseDate: string -> Option<int>): seq<Play> {
    var lines := Lines(text);
    if |lines| <= 1 then []
    else
      var h := HeaderOf(Fields(lines[0]));
      if !Complete(h) then [] else Rows(lines[1..], Reader(h, parseDate))
  }

  /** The loop of `parseCsv` over the data lines: each is split and read, and kept rows are appended. */
  method ReadRows(lines: seq<string>, h: Header, parseDate: string -> Option<int>) returns (items: seq<Play>)
    ensures items == Rows(lines, Reader(h, parseDate))
  {
    ghost var read := Reader(h, parseDate);
    items := [];
    var i := 0;
    while i < |lines|
      invariant 0 <= i <= |lines|
      invariant items == Rows(lines[..i], read)
    {
      var cols := SplitCsvLine(lines[i]);
      var r := Row(cols, h, parseDate);
      assert lines[..i + 1][..i] == lines[..i];
      assert read(lines[i]) == r;
      if r.Some? {
        items := items + [r.value];
      }
      i := i + 1;
    }
    assert lines[..i] == lines;
  }

  /** `parseCsv(text)`: the header line names the columns, then every later line is read. */
  method ParseCsv(text: string, parseDate: string -> Option<int>) returns (items: seq<Play>)
    ensures items == Parsed(text, parseDate)
  {
    var lines := Lines(text);
    if |lines| <= 1 {
      return [];
    }
    var header := SplitCsvLine(lines[0]);
    var h := HeaderOf(header);
    if !Complete(h) {
      return [];
    }
    items := ReadRows(lines[1..], h, parseDate);
  }

  /** Each play comes from one data line, in line order, and every line that reads as a play gives one. */
  lemma {:induction false} RowsFromLines(lines: seq<string>, read: string -> Option<Play>)
    ensures |Rows(lines, read)| <= |lines|
    ensures forall p :: p in Rows(lines, read) <==> exists k :: 0 <= k < |lines| && read(lines[k]) == Some(p)
    decreases |lines|
  {
    if lines != [] {
      var init := lines[..|lines| - 1];
      RowsFromLines(init, read);
      forall p
        ensures p in Rows(lines, read) <==> exists k :: 0 <= k < |lines| && read(lines[k]) == Some(p)
      {
        if p in Rows(lines, read) {
          if p in Rows(init, read) {
            var k :| 0 <= k < |init| && read(init[k]) == Some(p);
            assert lines[k] == init[k];
          } else {
            assert read(lines[|lines| - 1]) == Some(p);
          }
        }
        if exists k :: 0 <= k < |lines| && read(lines[k]) == Some(p) {
          var k :| 0 <= k < |lines| && read(lines[k]) == Some(p);
          if k < |init| {
            assert init[k] == lines[k];
          }
        }
      }
    }
  }

  /** Episodes are counted as podcasts. */
  lemma EpisodeIsPodcast(cols: seq<string>, h: Header, parseDate: string -> Option<int>)
    requires TypeText(cols, h) == "episode"
    ensures var r := Row(cols, h, parseDate); r.Some? ==> r.value.kind == Podcast
  {
  }

  /** A kept row's artist and track cells are trimmed. */
  lemma RowTrimmed(cols: seq<string>, h: Header, parseDate: string -> Option<int>)
    ensures var r := Row(cols, h, parseDate);
      r.Some? ==> Strings.IsTrimmed(r.value.artist) && Strings.IsTrimmed(r.value.track)
  {
  }

  /** Text with at most one line, or a header missing a required column, yields no plays. */
  lemma NoHeaderNoPlays(text: string, parseDate: string -> Option<int>)
    requires |Lines(text)| <= 1 || !Complete(HeaderOf(Fields(Lines(text)[0])))
    ensures Parsed(text, parseDate) == []
  {
  }
}
