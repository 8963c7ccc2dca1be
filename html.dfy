/**
 * `escapeHtml` of the listening-history dashboard
 * (lab/spotify_history_viz/app.js): the five characters that are special in
 * HTML become entities, `&` first, so that the result can be placed inside
 * element text and attribute values.
 */
module Html {
  import Strings

  /** `String(value).replace(/&/g, "&amp;").replace(/</g, "&lt;")...replace(/'/g, "&#39;")`. */
  function EscapeHtml(s: string): string {
    var amp := Strings.ReplaceAll(s, '&', "&amp;");
    var lt := Strings.ReplaceAll(amp, '<', "&lt;");
    var gt := Strings.ReplaceAll(lt, '>', "&gt;");
    var quot := Strings.ReplaceAll(gt, '"', "&quot;");
    Strings.ReplaceAll(quot, '\'', "&#39;")
  }

  /** The entity a single character becomes, or the character itself. */
  function EscapeChar(c: char): string {
    match c
    case '&' => "&amp;"
    case '<' => "&lt;"
    case '>' => "&gt;"
    case '"' => "&quot;"
    case '\'' => "&#39;"
    case _ => [c]
  }

  /** Character-by-character escaping. */
  function Escaped(s: string): string {
    if s == [] then "" else EscapeChar(s[0]) + Escaped(s[1..])
  }

  /** The five passes in their order escape each character on its own: no pass rewrites what an earlier one produced. */
  lemma {:induction false} EscapeHtmlPerChar(s: string)
    ensures EscapeHtml(s) == Escaped(s)
  {
    if s != [] {
      EscapeHtmlPerChar(s[1..]);
      EscapeHtmlSplit([s[0]], s[1..]);
      assert [s[0]] + s[1..] == s;
      EscapeOneChar(s[0]);
    }
  }

  lemma EscapeHtmlSplit(a: string, b: string)
    ensures EscapeHtml(a + b) == EscapeHtml(a) + EscapeHtml(b)
  {
    var amp := Strings.ReplaceAll(a + b, '&', "&amp;");
    Strings.ReplaceAllAppend(a, b, '&', "&amp;");
    var a1, b1 := Strings.ReplaceAll(a, '&', "&amp;"), Strings.ReplaceAll(b, '&', "&amp;");
    Strings.ReplaceAllAppend(a1, b1, '<', "&lt;");
    var a2, b2 := Strings.ReplaceAll(a1, '<', "&lt;"), Strings.ReplaceAll(b1, '<', "&lt;");
    Strings.ReplaceAllAppend(a2, b2, '>', "&gt;");
    var a3, b3 := Strings.ReplaceAll(a2, '>', "&gt;"), Strings.ReplaceAll(b2, '>', "&gt;");
    Strings.ReplaceAllAppend(a3, b3, '"', "&quot;");
    var a4, b4 := Strings.ReplaceAll(a3, '"', "&quot;"), Strings.ReplaceAll(b3, '"', "&quot;");
    Strings.ReplaceAllAppend(a4, b4, '\'', "&#39;");
  }

  lemma EscapeOneChar(c: char)
    ensures EscapeHtml([c]) == EscapeChar(c)
  {
    var e := EscapeChar(c);
    if c == '&' { ReplaceOne(c, e); } else { Strings.ReplaceAllAbsent([c], '&', "&amp;"); }
    var r1 := if c == '&' then e else [c];
    if c == '<' { ReplaceOne(c, e); } else { Strings.ReplaceAllAbsent(r1, '<', "&lt;"); }
    var r2 := if c in "&<" then e else [c];
    if c == '>' { ReplaceOne(c, e); } else { Strings.ReplaceAllAbsent(r2, '>', "&gt;"); }
    var r3 := if c in "&<>" then e else [c];
    if c == '"' { ReplaceOne(c, e); } else { Strings.ReplaceAllAbsent(r3, '"', "&quot;"); }
    var r4 := if c in "&<>\"" then e else [c];
    if c == '\'' { ReplaceOne(c, e); } else { Strings.ReplaceAllAbsent(r4, '\'', "&#39;"); }
  }

  lemma ReplaceOne(c: char, rep: string)
    ensures Strings.ReplaceAll([c], c, rep) == rep
  {
    assert [c][1..] == [];
    assert rep + [] == rep;
  }

  /** No character that HTML treats specially, other than the `&` of an entity, is left in the output. */
  lemma {:induction false} EscapedHasNoMarkup(s: string)
    ensures NoMarkup(EscapeHtml(s))
  {
    EscapeHtmlPerChar(s);
    EscapedNoMarkup(s);
  }

  /** None of `<`, `>`, `"` and `'` occurs in `r`. */
  predicate NoMarkup(r: string) {
    Strings.NoChar(r, '<') && Strings.NoChar(r, '>') && Strings.NoChar(r, '"') && Strings.NoChar(r, '\'')
  }

  lemma {:induction false} EscapedNoMarkup(s: string)
    ensures NoMarkup(Escaped(s))
  {
    if s != [] {
      EscapedNoMarkup(s[1..]);
      var e, r := EscapeChar(s[0]), Escaped(s[1..]);
      assert NoMarkup(e);
      NoMarkupAppend(e, r);
    }
  }

  lemma NoMarkupAppend(a: string, b: string)
    requires NoMarkup(a) && NoMarkup(b)
    ensures NoMarkup(a + b)
  {
    assert forall i :: 0 <= i < |a + b| ==> (a + b)[i] == if i < |a| then a[i] else b[i - |a|];
  }

  /** One of the five entities starts at position `i`. */
  predicate EntityAt(r: string, i: int)
    requires 0 <= i <= |r|
  {
    var t := r[i..];
    (|t| >= 5 && t[..5] == "&amp;") || (|t| >= 4 && t[..4] == "&lt;") || (|t| >= 4 && t[..4] == "&gt;")
    || (|t| >= 6 && t[..6] == "&quot;") || (|t| >= 5 && t[..5] == "&#39;")
  }

  /** Every `&` of `r` begins an entity. */
  predicate AmpersandsAreEntities(r: string) {
    forall i :: 0 <= i < |r| && r[i] == '&' ==> EntityAt(r, i)
  }

  /** Because `&` is replaced first, every `&` of the output begins an entity. */
  lemma AmpersandsBeginEntities(s: string)
    ensures AmpersandsAreEntities(EscapeHtml(s))
  {
    EscapeHtmlPerChar(s);
    EscapedAmpersands(s);
  }

  lemma {:induction false} EscapedAmpersands(s: string)
    ensures AmpersandsAreEntities(Escaped(s))
  {
    if s != [] {
      EscapedAmpersands(s[1..]);
      var e, rest := EscapeChar(s[0]), Escaped(s[1..]);
      var r := e + rest;
      forall i | 0 <= i < |r| && r[i] == '&' ensures EntityAt(r, i) {
        if i >= |e| {
          assert r[i..] == rest[i - |e|..];
          assert rest[i - |e|] == '&';
          assert EntityAt(rest, i - |e|);
        } else {
          EntityHead(s[0], rest);
          assert e[i] == '&';
        }
      }
    }
  }

  /** The escape of one character holds `&` only at its start, and then it is an entity. */
  lemma EntityHead(c: char, rest: string)
    ensures var e := EscapeChar(c);
      forall k :: 0 <= k < |e| && e[k] == '&' ==> k == 0 && EntityAt(e + rest, 0)
  {
    var e := EscapeChar(c);
    var r := e + rest;
    assert r[0..] == r;
    assert r[..|e|] == e;
    if c == '&' {
      assert r[..5] == "&amp;";
    } else if c == '<' {
      assert r[..4] == "&lt;";
    } else if c == '>' {
      assert r[..4] == "&gt;";
    } else if c == '"' {
      assert r[..6] == "&quot;";
    } else if c == '\'' {
      assert r[..5] == "&#39;";
    }
  }

  /** Decoding the five entities; any other character, `&` included, stands for itself. */
  function Unescape(s: string): string
    decreases |s|
  {
    if s == [] then ""
    else if s[0] != '&' then [s[0]] + Unescape(s[1..])
    else if |s| >= 5 && s[..5] == "&amp;" then "&" + Unescape(s[5..])
    else if |s| >= 4 && s[..4] == "&lt;" then "<" + Unescape(s[4..])
    else if |s| >= 4 && s[..4] == "&gt;" then ">" + Unescape(s[4..])
    else if |s| >= 6 && s[..6] == "&quot;" then "\"" + Unescape(s[6..])
    else if |s| >= 5 && s[..5] == "&#39;" then "'" + Unescape(s[5..])
    else [s[0]] + Unescape(s[1..])
  }

  /** Escaping loses nothing: decoding the entities gives back the original text. */
  lemma {:induction false} UnescapeEscape(s: string)
    ensures Unescape(EscapeHtml(s)) == s
  {
    EscapeHtmlPerChar(s);
    UnescapeEscaped(s);
  }

  lemma {:induction false} UnescapeEscaped(s: string)
    ensures Unescape(Escaped(s)) == s
  {
    if s != [] {
      UnescapeEscaped(s[1..]);
      UnescapeChar(s[0], Escaped(s[1..]));
    }
  }

  lemma UnescapeChar(c: char, rest: string)
    ensures Unescape(EscapeChar(c) + rest) == [c] + Unescape(rest)
  {
    var e := EscapeChar(c);
    var s := e + rest;
    assert s[|e|..] == rest;
    if c == '&' {
      assert s[..5] == "&amp;";
    } else if c == '<' {
      assert s[1] == 'l';
      assert s[..4] == "&lt;";
    } else if c == '>' {
      assert s[1] == 'g';
      assert s[..4] == "&gt;";
    } else if c == '"' {
      assert s[1] == 'q';
      assert s[..6] == "&quot;";
    } else if c == '\'' {
      assert s[1] == '#';
      assert s[..5] == "&#39;";
    }
  }

  /** Escaping is one-to-one: different texts never look the same once escaped. */
  lemma EscapeInjective(a: string, b: string)
    requires EscapeHtml(a) == EscapeHtml(b)
    ensures a == b
  {
    UnescapeEscape(a);
    UnescapeEscape(b);
  }
}
