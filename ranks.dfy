/**
 * The artist rankings of the listening-history dashboard
 * (lab/spotify_history_viz/app.js): per-artist minutes, plays of at least ten
 * seconds and distinct tracks among those plays, each sorted in decreasing
 * order and cut to the first hundred; and the ten artists with the most
 * music minutes that the "top artists" toggle selects.
 */
module Ranks {
  import opened Wrappers
  import Seqs
  import opened Csv

  /** A play counts as a play, and its track as heard, from ten seconds on. */
  const MinPlayMs := 10000
  /** Each ranking lists at most this many artists. */
  const RankLimit := 100
  /** `topArtistsByMinutes`' default limit. */
  const TopArtistCount := 10

  // ---------------------------------------------------------------- Map

  /** One key and value of a JavaScript `Map`; a `Map` is the list of them in insertion order. */
  datatype Entry<V> = Entry(name: string, value: V)

  function NameOf<V>(e: Entry<V>): string {
    e.name
  }

  /** A `Map` holds each key once. */
  predicate Keyed<V>(m: seq<Entry<V>>) {
    forall i, j :: 0 <= i < j < |m| ==> m[i].name != m[j].name
  }

  /** `m.get(k)`, None for `undefined`. */
  function Get<V>(m: seq<Entry<V>>, k: string): Option<V> {
    if m == [] then None
    else if m[0].name == k then Some(m[0].value)
    else Get(m[1..], k)
  }

  /** A key is missing exactly when no entry has it. */
  lemma {:induction false} GetAbsent<V>(m: seq<Entry<V>>, k: string)
    ensures Get(m, k).None? <==> k !in Names(m)
  {
    if m != [] && m[0].name != k {
      GetAbsent(m[1..], k);
      assert Names(m) == [m[0].name] + Names(m[1..]);
    }
  }

  /** In a `Map` with distinct keys, the value found for a key is the one stored with it. */
  lemma {:induction false} GetStored<V>(m: seq<Entry<V>>, e: Entry<V>)
    requires Keyed(m) && e in m
    ensures Get(m, e.name) == Some(e.value)
  {
    var i :| 0 <= i < |m| && m[i] == e;
    if i > 0 {
      assert m[1..][i - 1] == e;
      assert Keyed(m[1..]) by {
        forall a, b | 0 <= a < b < |m| - 1 ensures m[1..][a].name != m[1..][b].name {
          assert m[1..][a] == m[a + 1] && m[1..][b] == m[b + 1];
        }
      }
      GetStored(m[1..], e);
    }
  }

  /** `m.set(k, v)`: replaces the value in place, or appends a new key at the end. */
  function Put<V>(m: seq<Entry<V>>, k: string, v: V): (r: seq<Entry<V>>)
    ensures Get(r, k) == Some(v)
  {
    if m == [] then [Entry(k, v)]
    else if m[0].name == k then [Entry(k, v)] + m[1..]
    else
      var r := [m[0]] + Put(m[1..], k, v);
      assert r[1..] == Put(m[1..], k, v);
      r
  }

  /** Setting one key leaves the others' values alone. */
  lemma {:induction false} PutOther<V>(m: seq<Entry<V>>, k: string, v: V, j: string)
    requires j != k
    ensures Get(Put(m, k, v), j) == Get(m, j)
  {
    if m != [] {
      var r := Put(m, k, v);
      if m[0].name == k {
        assert r[1..] == m[1..];
      } else {
        assert r[1..] == Put(m[1..], k, v);
        PutOther(m[1..], k, v, j);
      }
    }
  }

  /** A new key goes at the end; an existing one keeps its place. */
  lemma PutShape<V>(m: seq<Entry<V>>, k: string, v: V)
    ensures Get(m, k).None? ==> Put(m, k, v) == m + [Entry(k, v)]
    ensures Get(m, k).Some? ==> Names(Put(m, k, v)) == Names(m)
  {
    if Get(m, k).None? {
      PutAppends(m, k, v);
    } else {
      PutRenames(m, k, v);
      assert Names(Put(m, k, v)) == Names(m);
    }
  }

  lemma {:induction false} PutAppends<V>(m: seq<Entry<V>>, k: string, v: V)
    requires Get(m, k).None?
    ensures Put(m, k, v) == m + [Entry(k, v)]
  {
    if m != [] {
      PutAppends(m[1..], k, v);
      assert [m[0]] + (m[1..] + [Entry(k, v)]) == m + [Entry(k, v)];
    }
  }

  /** Setting a present key leaves every position's name as it was. */
  lemma {:induction false} PutRenames<V>(m: seq<Entry<V>>, k: string, v: V)
    requires Get(m, k).Some?
    ensures |Put(m, k, v)| == |m|
    ensures forall i :: 0 <= i < |m| ==> Put(m, k, v)[i].name == m[i].name
  {
    if m[0].name != k {
      PutRenames(m[1..], k, v);
      var r := Put(m, k, v);
      assert r == [m[0]] + Put(m[1..], k, v);
      forall i | 1 <= i < |m|
        ensures r[i].name == m[i].name
      {
        assert r[i] == Put(m[1..], k, v)[i - 1];
      }
    }
  }

  lemma PutKeyed<V>(m: seq<Entry<V>>, k: string, v: V)
    requires Keyed(m)
    ensures Keyed(Put(m, k, v))
  {
    var r := Put(m, k, v);
    PutShape(m, k, v);
    GetAbsent(m, k);
    if Get(m, k).None? {
      assert r == m + [Entry(k, v)];
      forall i | 0 <= i < |m| ensures m[i].name != k {
        assert Names(m)[i] == m[i].name;
      }
    } else {
      assert forall i :: 0 <= i < |m| ==> r[i].name == Names(r)[i] == Names(m)[i] == m[i].name;
    }
  }

  function Names<V>(m: seq<Entry<V>>): seq<string> {
    Seqs.Map(m, NameOf)
  }

  // ---------------------------------------------------------------- the tallies

  /** The date range, content type and start-reason filter of the dashboard. */
  datatype Window = Window(start: int, end: int, kind: Kind, useReason: bool)

  /**
   * The rows a ranking looks at: inside the date range, of the selected type,
   * and started by the listener ("playbtn" or "clickrow") when the reason
   * filter is on.
   */
  predicate Selected(w: Window, p: Play) {
    w.start <= p.ts <= w.end && p.kind == w.kind
    && (!w.useReason || p.reasonStart == "playbtn" || p.reasonStart == "clickrow")
  }

  /** A play of at least ten seconds; a listening time that is not a number never is one. */
  predicate Counted(p: Play) {
    p.ms.Some? && p.ms.value >= MinPlayMs
  }

  /** `item.artist || "Unknown"`. */
  function ArtistOf(p: Play): string {
    if p.artist == "" then "Unknown" else p.artist
  }

  /** `(m.get(a) || 0)`: a missing key, a zero total and a NaN total all read as 0. */
  function Total(m: seq<Entry<Option<int>>>, a: string): int {
    var g := Get(m, a);
    if g.Some? && g.value.Some? then g.value.value else 0
  }

  function Count(m: seq<Entry<int>>, a: string): int {
    match Get(m, a)
    case Some(n) => n
    case None => 0
  }

  function TracksSoFar(m: seq<Entry<set<string>>>, a: string): set<string> {
    match Get(m, a)
    case Some(t) => t
    case None => {}
  }

  /** `minutes.set(artist, (minutes.get(artist) || 0) + item.ms)`; None stands for NaN. */
  function AddMinutes(m: seq<Entry<Option<int>>>, p: Play): seq<Entry<Option<int>>> {
    var a := ArtistOf(p);
    Put(m, a, if p.ms.Some? then Some(Total(m, a) + p.ms.value) else None)
  }

  /** The listening time of every selected artist, keyed in order of first selected row. */
  function MinutesOf(items: seq<Play>, w: Window): seq<Entry<Option<int>>>
    decreases |items|
  {
    if items == [] then []
    else
      var m := MinutesOf(items[..|items| - 1], w);
      var p := items[|items| - 1];
      if Selected(w, p) then AddMinutes(m, p) else m
  }

  /** The number of counted plays of every artist that has one. */
  function PlaysOf(items: seq<Play>, w: Window): seq<Entry<int>>
    decreases |items|
  {
    if items == [] then []
    else
      var m := PlaysOf(items[..|items| - 1], w);
      var p := items[|items| - 1];
      if Selected(w, p) && Counted(p) then Put(m, ArtistOf(p), Count(m, ArtistOf(p)) + 1) else m
  }

  function NewTrack(p: Play): set<string> {
    if p.track != "" then {p.track} else {}
  }

  /** The set of track names among the counted plays of every artist that has one. */
  function TracksOf(items: seq<Play>, w: Window): seq<Entry<set<string>>>
    decreases |items|
  {
    if items == [] then []
    else
      var m := TracksOf(items[..|items| - 1], w);
      var p := items[|items| - 1];
      if Selected(w, p) && Counted(p) then Put(m, ArtistOf(p), TracksSoFar(m, ArtistOf(p)) + NewTrack(p)) else m
  }

  /** A counted play of artist `a`. */
  function IsLong(w: Window, a: string): Play -> bool {
    p => Selected(w, p) && Counted(p) && ArtistOf(p) == a
  }

  function LongPlays(items: seq<Play>, w: Window, a: string): seq<Play> {
    Seqs.Filter(items, IsLong(w, a))
  }

  /** The distinct non-empty track names of the counted plays of `a`. */
  function TrackSet(items: seq<Play>, w: Window, a: string): set<string> {
    set p | p in items && IsLong(w, a)(p) && p.track != "" :: p.track
  }

  /** An artist's play count is the number of its selected rows of at least ten seconds; artists without one are absent. */
  lemma {:induction false} PlaysCount(items: seq<Play>, w: Window, a: string)
    ensures var n := |LongPlays(items, w, a)|;
      Get(PlaysOf(items, w), a) == if n == 0 then None else Some(n)
    decreases |items|
  {
    if items != [] {
      var init, p := items[..|items| - 1], items[|items| - 1];
      PlaysCount(init, w, a);
      PlaysStep(init, p, w, a);
      assert init + [p] == items;
    }
  }

  lemma PlaysStep(init: seq<Play>, p: Play, w: Window, a: string)
    requires var n := |LongPlays(init, w, a)|; Get(PlaysOf(init, w), a) == if n == 0 then None else Some(n)
    ensures var n := |LongPlays(init + [p], w, a)|; Get(PlaysOf(init + [p], w), a) == if n == 0 then None else Some(n)
  {
    LongPlaysStep(init, p, w, a);
    var m := PlaysOf(init, w);
    PlaysOfStep(init, p, w);
    if Selected(w, p) && Counted(p) && ArtistOf(p) != a {
      PutOther(m, ArtistOf(p), Count(m, ArtistOf(p)) + 1, a);
    }
  }

  /** One more row adds itself to the counted plays of its artist, and nothing to the others'. */
  lemma LongPlaysStep(init: seq<Play>, p: Play, w: Window, a: string)
    ensures LongPlays(init + [p], w, a) == if IsLong(w, a)(p) then LongPlays(init, w, a) + [p] else LongPlays(init, w, a)
  {
    Seqs.FilterSplit(init, [p], IsLong(w, a));
    assert [p][1..] == [];
    assert LongPlays(init, w, a) + [] == LongPlays(init, w, a);
  }

  /** An artist's unique count comes from the distinct non-empty tracks of its counted plays. */
  lemma {:induction false} TracksMeaning(items: seq<Play>, w: Window, a: string)
    ensures Get(TracksOf(items, w), a) ==
      if |LongPlays(items, w, a)| == 0 then None else Some(TrackSet(items, w, a))
    decreases |items|
  {
    if items != [] {
      var init, p := items[..|items| - 1], items[|items| - 1];
      TracksMeaning(init, w, a);
      TracksStep(init, p, w, a);
      assert init + [p] == items;
    }
  }

  lemma TracksStep(init: seq<Play>, p: Play, w: Window, a: string)
    requires Get(TracksOf(init, w), a) ==
      if |LongPlays(init, w, a)| == 0 then None else Some(TrackSet(init, w, a))
    ensures Get(TracksOf(init + [p], w), a) ==
      if |LongPlays(init + [p], w, a)| == 0 then None else Some(TrackSet(init + [p], w, a))
  {
    LongPlaysStep(init, p, w, a);
    TrackSetStep(init, p, w, a);
    var m := TracksOf(init, w);
    TracksOfStep(init, p, w);
    if Selected(w, p) && Counted(p) && ArtistOf(p) != a {
      PutOther(m, ArtistOf(p), TracksSoFar(m, ArtistOf(p)) + NewTrack(p), a);
    }
  }

  lemma TrackSetStep(init: seq<Play>, p: Play, w: Window, a: string)
    ensures TrackSet(init + [p], w, a) == if IsLong(w, a)(p) then TrackSet(init, w, a) + NewTrack(p) else TrackSet(init, w, a)
    ensures |LongPlays(init, w, a)| == 0 ==> TrackSet(init, w, a) == {}
  {
    assert forall q :: q in init + [p] <==> q in init || q == p;
    if |LongPlays(init, w, a)| == 0 {
      Seqs.FilterMembers(init, IsLong(w, a));
      assert forall q :: q in init ==> !IsLong(w, a)(q);
    }
  }

  /** The play and track tallies gain an artist at the same moment, so they list the same artists in the same order. */
  lemma {:induction false} SameArtists(items: seq<Play>, w: Window)
    ensures Names(PlaysOf(items, w)) == Names(TracksOf(items, w))
    decreases |items|
  {
    if items != [] {
      var init, p := items[..|items| - 1], items[|items| - 1];
      SameArtists(init, w);
      var pm, tm := PlaysOf(init, w), TracksOf(init, w);
      var a := ArtistOf(p);
      var pv, tv := Count(pm, a) + 1, TracksSoFar(tm, a) + NewTrack(p);
      assert PlaysOf(items, w) == if Selected(w, p) && Counted(p) then Put(pm, a, pv) else pm;
      assert TracksOf(items, w) == if Selected(w, p) && Counted(p) then Put(tm, a, tv) else tm;
      if Selected(w, p) && Counted(p) {
        GetAbsent(pm, a);
        GetAbsent(tm, a);
        PutShape(pm, a, pv);
        PutShape(tm, a, tv);
        if Get(pm, a).None? {
          NamesAppend(pm, Entry(a, pv));
          NamesAppend(tm, Entry(a, tv));
        }
      }
    }
  }

  /** Every tally holds each artist once. */
  lemma TalliesKeyed(items: seq<Play>, w: Window)
    ensures Keyed(MinutesOf(items, w)) && Keyed(PlaysOf(items, w)) && Keyed(TracksOf(items, w))
  {
    MinutesKeyed(items, w);
    PlaysKeyed(items, w);
    TracksKeyed(items, w);
  }

  lemma {:induction false} MinutesKeyed(items: seq<Play>, w: Window)
    ensures Keyed(MinutesOf(items, w))
    decreases |items|
  {
    if items != [] {
      var init, p := items[..|items| - 1], items[|items| - 1];
      MinutesKeyed(init, w);
      var m, a := MinutesOf(init, w), ArtistOf(p);
      PutKeyed(m, a, if p.ms.Some? then Some(Total(m, a) + p.ms.value) else None);
    }
  }

  lemma {:induction false} PlaysKeyed(items: seq<Play>, w: Window)
    ensures Keyed(PlaysOf(items, w))
    decreases |items|
  {
    if items != [] {
      var init, p := items[..|items| - 1], items[|items| - 1];
      PlaysKeyed(init, w);
      var m, a := PlaysOf(init, w), ArtistOf(p);
      PutKeyed(m, a, Count(m, a) + 1);
    }
  }

  lemma {:induction false} TracksKeyed(items: seq<Play>, w: Window)
    ensures Keyed(TracksOf(items, w))
    decreases |items|
  {
    if items != [] {
      var init, p := items[..|items| - 1], items[|items| - 1];
      TracksKeyed(init, w);
      var m, a := TracksOf(init, w), ArtistOf(p);
      PutKeyed(m, a, TracksSoFar(m, a) + NewTrack(p));
    }
  }

  /** A selected row of artist `a`. */
  function IsRowOf(w: Window, a: string): Play -> bool {
    p => Selected(w, p) && ArtistOf(p) == a
  }

  /** The sum of listening times that are all numbers. */
  function SumMs(xs: seq<Play>): int
    decreases |xs|
  {
    if xs == [] then 0
    else SumMs(xs[..|xs| - 1]) + (if xs[|xs| - 1].ms.Some? then xs[|xs| - 1].ms.value else 0)
  }

  lemma SumMsAppend(xs: seq<Play>, ys: seq<Play>)
    ensures SumMs(xs + ys) == SumMs(xs) + SumMs(ys)
    decreases |ys|
  {
    if ys == [] {
      assert xs + ys == xs;
    } else {
      SumMsAppend(xs, ys[..|ys| - 1]);
      assert (xs + ys)[..|xs + ys| - 1] == xs + ys[..|ys| - 1];
      assert (xs + ys)[|xs + ys| - 1] == ys[|ys| - 1];
    }
  }

  /**
   * When every listening time of the artist's selected rows is a number, its
   * minute total is their sum; artists without a selected row are absent.
   */
  lemma {:induction false} MinutesSum(items: seq<Play>, w: Window, a: string)
    requires Timed(items, w, a)
    ensures var rows := Seqs.Filter(items, IsRowOf(w, a));
      Get(MinutesOf(items, w), a) == if rows == [] then None else Some(Some(SumMs(rows)))
    decreases |items|
  {
    if items != [] {
      var init, last := items[..|items| - 1], items[|items| - 1];
      MinutesSum(init, w, a);
      MinutesSumStep(init, last, w, a);
      assert init + [last] == items;
    }
  }

  /** Every selected row of artist `a` has a listening time that is a number. */
  predicate Timed(items: seq<Play>, w: Window, a: string)
    decreases |items|
  {
    items == [] ||
    (Timed(items[..|items| - 1], w, a) && (IsRowOf(w, a)(items[|items| - 1]) ==> items[|items| - 1].ms.Some?))
  }

  /** Timed holds exactly when no selected row of `a` has a listening time that is not a number. */
  lemma {:induction false} TimedMeaning(items: seq<Play>, w: Window, a: string)
    ensures Timed(items, w, a) <==> forall p :: p in items && IsRowOf(w, a)(p) ==> p.ms.Some?
    decreases |items|
  {
    if items != [] {
      var init, last := items[..|items| - 1], items[|items| - 1];
      TimedMeaning(init, w, a);
      assert items == init + [last];
      assert forall q :: q in items <==> q in init || q == last;
    }
  }

  lemma MinutesSumStep(init: seq<Play>, last: Play, w: Window, a: string)
    requires IsRowOf(w, a)(last) ==> last.ms.Some?
    requires var rows := Seqs.Filter(init, IsRowOf(w, a));
      Get(MinutesOf(init, w), a) == if rows == [] then None else Some(Some(SumMs(rows)))
    ensures var rows := Seqs.Filter(init + [last], IsRowOf(w, a));
      Get(MinutesOf(init + [last], w), a) == if rows == [] then None else Some(Some(SumMs(rows)))
  {
    RowsStep(init, last, w, a);
    MinutesStep(init, last, w);
    var m := MinutesOf(init, w);
    var rows0 := Seqs.Filter(init, IsRowOf(w, a));
    var isRow := IsRowOf(w, a)(last);
    assert isRow <==> Selected(w, last) && ArtistOf(last) == a;
    var rows := Seqs.Filter(init + [last], IsRowOf(w, a));
    if isRow {
      MinutesAdded(m, last, a);
      assert Total(m, a) == SumMs(rows0);
      assert rows == rows0 + [last] && rows != [];
      assert MinutesOf(init + [last], w) == AddMinutes(m, last);
      assert Get(AddMinutes(m, last), a) == Some(Some(Total(m, a) + last.ms.value));
      assert SumMs(rows) == SumMs(rows0) + last.ms.value;
    } else {
      if Selected(w, last) {
        MinutesAdded(m, last, a);
      }
      assert rows == rows0;
      assert Get(MinutesOf(init + [last], w), a) == Get(m, a);
    }
  }

  /** Adding a row changes the total of its own artist only. */
  lemma MinutesAdded(m: seq<Entry<Option<int>>>, p: Play, a: string)
    ensures ArtistOf(p) != a ==> Get(AddMinutes(m, p), a) == Get(m, a)
    ensures ArtistOf(p) == a ==> Get(AddMinutes(m, p), a) == Some(if p.ms.Some? then Some(Total(m, a) + p.ms.value) else None)
  {
    if ArtistOf(p) != a {
      PutOther(m, ArtistOf(p), if p.ms.Some? then Some(Total(m, ArtistOf(p)) + p.ms.value) else None, a);
    }
  }

  /** One more row of artist `a` adds its time to the sum of `a`'s rows. */
  lemma RowsStep(init: seq<Play>, p: Play, w: Window, a: string)
    ensures var rows := Seqs.Filter(init + [p], IsRowOf(w, a));
      rows == if IsRowOf(w, a)(p) then Seqs.Filter(init, IsRowOf(w, a)) + [p] else Seqs.Filter(init, IsRowOf(w, a))
    ensures var rows := Seqs.Filter(init + [p], IsRowOf(w, a));
      IsRowOf(w, a)(p) && p.ms.Some? ==> SumMs(rows) == SumMs(Seqs.Filter(init, IsRowOf(w, a))) + p.ms.value
  {
    var rows0 := Seqs.Filter(init, IsRowOf(w, a));
    Seqs.FilterSplit(init, [p], IsRowOf(w, a));
    assert [p][1..] == [];
    if IsRowOf(w, a)(p) {
      assert (rows0 + [p])[..|rows0|] == rows0;
    } else {
      assert rows0 + [] == rows0;
    }
  }

  /** The minutes tally after one more row. */
  lemma MinutesStep(init: seq<Play>, p: Play, w: Window)
    ensures MinutesOf(init + [p], w) == if Selected(w, p) then AddMinutes(MinutesOf(init, w), p) else MinutesOf(init, w)
  {
    assert (init + [p])[..|init|] == init;
  }

  lemma PlaysOfStep(init: seq<Play>, p: Play, w: Window)
    ensures var m := PlaysOf(init, w);
      PlaysOf(init + [p], w) == if Selected(w, p) && Counted(p) then Put(m, ArtistOf(p), Count(m, ArtistOf(p)) + 1) else m
  {
    assert (init + [p])[..|init|] == init;
  }

  lemma TracksOfStep(init: seq<Play>, p: Play, w: Window)
    ensures var m := TracksOf(init, w);
      TracksOf(init + [p], w) == if Selected(w, p) && Counted(p) then Put(m, ArtistOf(p), TracksSoFar(m, ArtistOf(p)) + NewTrack(p)) else m
  {
    assert (init + [p])[..|init|] == init;
  }

  /** A tally with one more entry names one more artist, last. */
  lemma NamesAppend<V>(m: seq<Entry<V>>, e: Entry<V>)
    ensures Names(m + [e]) == Names(m) + [e.name]
  {
    assert forall i :: 0 <= i < |m| ==> (m + [e])[i] == m[i];
  }

  /**
   * A row whose listening time is not a number makes the artist's total NaN,
   * and the next row starts the total afresh from its own time, because
   * `NaN || 0` is 0: the minutes counted before are lost.
   */
  lemma NaNRestartsTotal(items: seq<Play>, w: Window, x: Play, y: Play)
    requires Selected(w, x) && Selected(w, y) && ArtistOf(x) == ArtistOf(y)
    requires x.ms.None? && y.ms.Some?
    ensures Get(MinutesOf(items + [x, y], w), ArtistOf(y)) == Some(y.ms)
  {
    var xs := items + [x, y];
    assert xs[..|xs| - 1] == items + [x];
    assert (items + [x])[..|items + [x]| - 1] == items;
  }

  // ---------------------------------------------------------------- sorting and ranking

  /** The entries' values are in decreasing order of `key`. */
  predicate Descending<V>(s: seq<Entry<V>>, key: V -> int) {
    forall i, j :: 0 <= i < j < |s| ==> key(s[i].value) >= key(s[j].value)
  }

  /** Insertion into a descending list, after every entry whose key is at least as large (so ties keep their order). */
  function InsertDesc<V(!new)>(e: Entry<V>, s: seq<Entry<V>>, key: V -> int): (r: seq<Entry<V>>)
    ensures |r| == |s| + 1
  {
    if s == [] then [e]
    else if key(s[0].value) >= key(e.value) then [s[0]] + InsertDesc(e, s[1..], key)
    else [e] + s
  }

  /** Insertion adds the one entry and keeps the others. */
  lemma {:induction false} InsertContents<V(!new)>(e: Entry<V>, s: seq<Entry<V>>, key: V -> int)
    ensures multiset(InsertDesc(e, s, key)) == multiset(s) + multiset{e}
    ensures forall x :: x in InsertDesc(e, s, key) <==> x in s || x == e
  {
    if s != [] && key(s[0].value) >= key(e.value) {
      InsertContents(e, s[1..], key);
      assert s == [s[0]] + s[1..];
    }
  }

  lemma {:induction false} InsertDescending<V(!new)>(e: Entry<V>, s: seq<Entry<V>>, key: V -> int)
    requires Descending(s, key)
    ensures Descending(InsertDesc(e, s, key), key)
    decreases |s|
  {
    if s != [] && key(s[0].value) >= key(e.value) {
      InsertDescending(e, s[1..], key);
      InsertContents(e, s[1..], key);
      var rest := InsertDesc(e, s[1..], key);
      forall x | x in rest ensures key(s[0].value) >= key(x.value) {
        if x != e {
          var k :| 0 <= k < |s[1..]| && s[1..][k] == x;
          assert s[k + 1] == x;
        }
      }
    }
  }

  lemma {:induction false} InsertKeyed<V(!new)>(e: Entry<V>, s: seq<Entry<V>>, key: V -> int)
    requires Keyed(s) && forall x :: x in s ==> x.name != e.name
    ensures Keyed(InsertDesc(e, s, key))
    decreases |s|
  {
    if s != [] && key(s[0].value) >= key(e.value) {
      InsertKeyed(e, s[1..], key);
      InsertContents(e, s[1..], key);
      var rest := InsertDesc(e, s[1..], key);
      forall x | x in rest ensures x.name != s[0].name {
        if x != e {
          var k :| 0 <= k < |s[1..]| && s[1..][k] == x;
          assert s[k + 1] == x;
        }
      }
    }
  }

  /** `Array.prototype.sort` with `(a, b) => key(b) - key(a)`: a stable sort into decreasing order. */
  function SortDesc<V(!new)>(xs: seq<Entry<V>>, key: V -> int): (r: seq<Entry<V>>)
    ensures |r| == |xs|
    decreases |xs|
  {
    if xs == [] then []
    else InsertDesc(xs[|xs| - 1], SortDesc(xs[..|xs| - 1], key), key)
  }

  /** Sorting is a permutation. */
  lemma {:induction false} SortContents<V(!new)>(xs: seq<Entry<V>>, key: V -> int)
    ensures multiset(SortDesc(xs, key)) == multiset(xs)
    ensures forall x :: x in SortDesc(xs, key) <==> x in xs
    decreases |xs|
  {
    if xs != [] {
      var init, e := xs[..|xs| - 1], xs[|xs| - 1];
      var sorted := SortDesc(init, key);
      SortContents(init, key);
      InsertContents(e, sorted, key);
      assert xs == init + [e];
      assert multiset(SortDesc(xs, key)) == multiset(sorted) + multiset{e};
      assert multiset(SortDesc(xs, key)) == multiset(xs);
      forall x ensures x in SortDesc(xs, key) <==> x in xs {
        assert x in SortDesc(xs, key) <==> x in multiset(SortDesc(xs, key));
        assert x in xs <==> x in multiset(xs);
      }
    }
  }

  lemma {:induction false} SortDescending<V(!new)>(xs: seq<Entry<V>>, key: V -> int)
    ensures Descending(SortDesc(xs, key), key)
    ensures Keyed(xs) ==> Keyed(SortDesc(xs, key))
    decreases |xs|
  {
    if xs != [] {
      var init, e := xs[..|xs| - 1], xs[|xs| - 1];
      SortDescending(init, key);
      SortContents(init, key);
      InsertDescending(e, SortDesc(init, key), key);
      if Keyed(xs) {
        forall x | x in SortDesc(init, key) ensures x.name != e.name {
          var k :| 0 <= k < |init| && init[k] == x;
          assert xs[k] == x;
        }
        assert Keyed(init) by {
          forall i, j | 0 <= i < j < |init| ensures init[i].name != init[j].name {
            assert init[i] == xs[i] && init[j] == xs[j];
          }
        }
        InsertKeyed(e, SortDesc(init, key), key);
      }
    }
  }

  /** `.sort(...).slice(0, limit)`. */
  function Rank<V(!new)>(m: seq<Entry<V>>, key: V -> int, limit: nat): seq<Entry<V>> {
    var s := SortDesc(m, key);
    s[..if |s| <= limit then |s| else limit]
  }

  /**
   * A ranking lists at most `limit` entries of the tally, in decreasing
   * order, each key once when the tally has each once.
   */
  lemma RankShape<V(!new)>(m: seq<Entry<V>>, key: V -> int, limit: nat)
    ensures var r := Rank(m, key, limit);
      |r| <= limit && Descending(r, key)
      && (forall e :: e in r ==> e in m)
      && (Keyed(m) ==> Keyed(r))
  {
    var s := SortDesc(m, key);
    SortDescending(m, key);
    SortContents(m, key);
    var r := Rank(m, key, limit);
    assert forall e :: e in r ==> e in s;
  }

  /** A tally of no more than `limit` artists is listed whole. */
  lemma RankWhole<V(!new)>(m: seq<Entry<V>>, key: V -> int, limit: nat)
    requires |m| <= limit
    ensures multiset(Rank(m, key, limit)) == multiset(m)
  {
    assert Rank(m, key, limit) == SortDesc(m, key);
    SortContents(m, key);
  }

  /** An entry the ranking leaves out has no larger key than any listed one. */
  lemma RankOmitted<V(!new)>(m: seq<Entry<V>>, key: V -> int, limit: nat, e: Entry<V>, t: Entry<V>)
    requires e in m && e !in Rank(m, key, limit) && t in Rank(m, key, limit)
    ensures key(t.value) >= key(e.value)
  {
    var s := SortDesc(m, key);
    SortDescending(m, key);
    SortContents(m, key);
    var r := Rank(m, key, limit);
    var i :| 0 <= i < |s| && s[i] == e;
    var j :| 0 <= j < |r| && r[j] == t;
    assert s[j] == t;
  }

  // ---------------------------------------------------------------- computeArtistRanks

  /** The ranking key of a minute total; a NaN total ranks as 0. */
  function MinutesKey(v: Option<int>): int {
    if v.Some? then v.value else 0
  }

  function Self(v: int): int {
    v
  }

  function SizeEntry(e: Entry<set<string>>): Entry<int> {
    Entry(e.name, |e.value|)
  }

  /** The three lists the dashboard shows: minutes (in milliseconds), plays and distinct tracks. */
  datatype Ranking = Ranking(topMinutes: seq<Entry<Option<int>>>, topPlays: seq<Entry<int>>, topUnique: seq<Entry<int>>)

  function RanksOf(items: seq<Play>, w: Window): Ranking {
    Ranking(Rank(MinutesOf(items, w), MinutesKey, RankLimit),
            Rank(PlaysOf(items, w), Self, RankLimit),
            Rank(Seqs.Map(TracksOf(items, w), SizeEntry), Self, RankLimit))
  }

  /** `computeArtistRanks(data, startDate, endDate)`: one pass filling the three tallies, then the three rankings. */
  method ComputeArtistRanks(items: seq<Play>, w: Window) returns (r: Ranking)
    ensures r == RanksOf(items, w)
  {
    var minutes: seq<Entry<Option<int>>> := [];
    var plays: seq<Entry<int>> := [];
    var tracks: seq<Entry<set<string>>> := [];
    var i := 0;
    while i < |items|
      invariant 0 <= i <= |items|
      invariant minutes == MinutesOf(items[..i], w)
      invariant plays == PlaysOf(items[..i], w)
      invariant tracks == TracksOf(items[..i], w)
    {
      var item := items[i];
      assert items[..i + 1][..i] == items[..i];
      if Selected(w, item) {
        var artist := ArtistOf(item);
        minutes := Put(minutes, artist, if item.ms.Some? then Some(Total(minutes, artist) + item.ms.value) else None);
        if Counted(item) {
          plays := Put(plays, artist, Count(plays, artist) + 1);
          tracks := Put(tracks, artist, TracksSoFar(tracks, artist) + NewTrack(item));
        }
      }
      i := i + 1;
    }
    assert items[..i] == items;
    r := Ranking(Rank(minutes, MinutesKey, RankLimit), Rank(plays, Self, RankLimit),
                 Rank(Seqs.Map(tracks, SizeEntry), Self, RankLimit));
  }

  /**
   * The plays ranking: at most a hundred artists in decreasing order, each
   * once, each with the number of its selected rows of at least ten seconds.
   */
  lemma PlaysRanking(items: seq<Play>, w: Window)
    ensures var r := RanksOf(items, w).topPlays;
      |r| <= RankLimit && Descending(r, Self) && Keyed(r)
      && forall e :: e in r ==> e.value == |LongPlays(items, w, e.name)| >= 1
  {
    var m := PlaysOf(items, w);
    TalliesKeyed(items, w);
    RankShape(m, Self, RankLimit);
    forall e | e in RanksOf(items, w).topPlays ensures e.value == |LongPlays(items, w, e.name)| >= 1 {
      GetStored(m, e);
      PlaysCount(items, w, e.name);
    }
  }

  lemma SizesKeyed(m: seq<Entry<set<string>>>)
    requires Keyed(m)
    ensures Keyed(Seqs.Map(m, SizeEntry))
  {
  }

  /**
   * The distinct-tracks ranking: at most a hundred artists in decreasing
   * order, each once, each with the number of distinct non-empty track names
   * among its counted plays.
   */
  lemma UniqueRanking(items: seq<Play>, w: Window)
    ensures var r := RanksOf(items, w).topUnique;
      |r| <= RankLimit && Descending(r, Self) && Keyed(r)
      && forall e :: e in r ==> e.value == |TrackSet(items, w, e.name)|
  {
    var t := TracksOf(items, w);
    var m := Seqs.Map(t, SizeEntry);
    TalliesKeyed(items, w);
    SizesKeyed(t);
    RankShape(m, Self, RankLimit);
    forall e | e in RanksOf(items, w).topUnique ensures e.value == |TrackSet(items, w, e.name)| {
      var k :| 0 <= k < |m| && m[k] == e;
      GetStored(t, t[k]);
      TracksMeaning(items, w, e.name);
    }
  }

  /**
   * The minutes ranking: at most a hundred artists in decreasing order, each
   * once, each an artist with a selected row; an artist left out ranks no
   * higher than any listed one.
   */
  lemma MinutesRanking(items: seq<Play>, w: Window)
    ensures var r := RanksOf(items, w).topMinutes; var m := MinutesOf(items, w);
      |r| <= RankLimit && Descending(r, MinutesKey) && Keyed(r)
      && (forall e :: e in r ==> e in m)
      && (forall e, t :: e in m && e !in r && t in r ==> MinutesKey(t.value) >= MinutesKey(e.value))
  {
    var m := MinutesOf(items, w);
    var r := RanksOf(items, w).topMinutes;
    TalliesKeyed(items, w);
    RankShape(m, MinutesKey, RankLimit);
    forall e, t | e in m && e !in r && t in r ensures MinutesKey(t.value) >= MinutesKey(e.value) {
      RankOmitted(m, MinutesKey, RankLimit, e, t);
    }
  }

  // ---------------------------------------------------------------- topArtistsByMinutes

  /** Music rows in the date range, whatever started them. */
  function MusicWindow(start: int, end: int): Window {
    Window(start, end, Music, false)
  }

  function TopArtists(items: seq<Play>, start: int, end: int, limit: nat): seq<string> {
    Names(Rank(MinutesOf(items, MusicWindow(start, end)), MinutesKey, limit))
  }

  /** `topArtistsByMinutes(data, startDate, endDate, limit)`: the names of the artists with the most music minutes. */
  method TopArtistsByMinutes(items: seq<Play>, start: int, end: int, limit: nat) returns (names: seq<string>)
    ensures names == TopArtists(items, start, end, limit)
  {
    var w := MusicWindow(start, end);
    var totals: seq<Entry<Option<int>>> := [];
    var i := 0;
    while i < |items|
      invariant 0 <= i <= |items|
      invariant totals == MinutesOf(items[..i], w)
    {
      var item := items[i];
      assert items[..i + 1][..i] == items[..i];
      if start <= item.ts <= end && item.kind == Music {
        var name := ArtistOf(item);
        totals := Put(totals, name, if item.ms.Some? then Some(Total(totals, name) + item.ms.value) else None);
      }
      i := i + 1;
    }
    assert items[..i] == items;
    names := Names(Rank(totals, MinutesKey, limit));
  }

  /** The top artists are distinct, at most `limit` of them, and each has a music row in the range. */
  lemma TopArtistsSpec(items: seq<Play>, start: int, end: int, limit: nat)
    ensures var names := TopArtists(items, start, end, limit);
      |names| <= limit && Seqs.NoDup(names)
      && forall a :: a in names ==> exists p :: p in items && Selected(MusicWindow(start, end), p) && ArtistOf(p) == a
  {
    var w := MusicWindow(start, end);
    var m := MinutesOf(items, w);
    var r := Rank(m, MinutesKey, limit);
    TalliesKeyed(items, w);
    RankShape(m, MinutesKey, limit);
    forall a | a in Names(r)
      ensures exists p :: p in items && Selected(w, p) && ArtistOf(p) == a
    {
      var k :| 0 <= k < |r| && Names(r)[k] == a;
      assert r[k] in m;
      GetStored(m, r[k]);
      MinutesPresent(items, w, a);
    }
  }

  /** An artist is in the minutes tally only if it has a selected row. */
  lemma {:induction false} MinutesPresent(items: seq<Play>, w: Window, a: string)
    requires Get(MinutesOf(items, w), a).Some?
    ensures exists p :: p in items && Selected(w, p) && ArtistOf(p) == a
    decreases |items|
  {
    var init, p := items[..|items| - 1], items[|items| - 1];
    if Selected(w, p) && ArtistOf(p) == a {
    } else {
      var m := MinutesOf(init, w);
      if Selected(w, p) {
        PutOther(m, ArtistOf(p), if p.ms.Some? then Some(Total(m, ArtistOf(p)) + p.ms.value) else None, a);
      }
      MinutesPresent(init, w, a);
      var q :| q in init && Selected(w, q) && ArtistOf(q) == a;
      assert q in items;
    }
  }
}
