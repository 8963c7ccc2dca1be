/**
 * The page state of the listening-history dashboard
 * (lab/spotify_history_viz/app.js): the selected month range, the content
 * type and start-reason filters, the artists picked for the trend chart, the
 * "top artists" toggle that picks the ten artists with the most music
 * minutes, and the pagers of the three rankings. Every handler ends in
 * `applyFilter`, which recomputes the rankings and the top-artist set.
 */
module Dashboard {
  import opened Wrappers
  import Strings
  import Csv
  import Ranks
  import Paging

  // ---------------------------------------------------------------- the month range

  /**
   * `handleMonthClick(monthKey)` on the range `(start, end)`: a click when
   * both ends or neither are set starts a new range; otherwise the clicked
   * month becomes the end, or the start when it comes before the start.
   */
  function NextRange(start: Option<string>, end: Option<string>, key: string): (Option<string>, Option<string>) {
    if start.None? || end.Some? then (Some(key), None)
    else if Strings.LexLess(key, start.value) then (Some(key), Some(start.value))
    else (start, Some(key))
  }

  /** A range has a start, and its end, when there is one, does not come before the start. */
  predicate Ordered(start: Option<string>, end: Option<string>) {
    start.Some? && (end.None? || !Strings.LexLess(end.value, start.value))
  }

  /** After any click the range is ordered, whatever it was before. */
  lemma ClickOrders(start: Option<string>, end: Option<string>, key: string)
    ensures var (s, e) := NextRange(start, end, key); Ordered(s, e)
  {
    if start.Some? && end.None? {
      Strings.LexTrichotomy(key, start.value);
    }
  }

  /**
   * A click on a finished or empty range starts a new one at the clicked month;
   * a click on an open range closes it, and the two ends are the old start and
   * the clicked month.
   */
  lemma ClickEnds(start: Option<string>, end: Option<string>, key: string)
    ensures var (s, e) := NextRange(start, end, key);
      (start.None? || end.Some? <==> e.None?)
      && (e.None? ==> s == Some(key))
      && (e.Some? ==> start.Some? && {s.value, e.value} == {start.value, key})
  {
  }

  // ---------------------------------------------------------------- the top-artists toggle

  /** `syncTopToggleState`: the toggle shows checked exactly when there are top artists and they are the selection. */
  predicate InSync(selected: set<string>, top: set<string>) {
    top != {} && selected == top
  }

  /** `new Set(topArtistsByMinutes(rawData, start, end, 10))`. */
  function TopSet(data: seq<Csv.Play>, lo: int, hi: int): set<string> {
    set a | a in Ranks.TopArtists(data, lo, hi, Ranks.TopArtistCount)
  }

  /** The top set holds at most ten artists, each with a music row in the range. */
  lemma TopSetSpec(data: seq<Csv.Play>, lo: int, hi: int)
    ensures |TopSet(data, lo, hi)| <= Ranks.TopArtistCount
    ensures forall a :: a in TopSet(data, lo, hi) ==>
      exists p :: p in data && Ranks.Selected(Ranks.MusicWindow(lo, hi), p) && Ranks.ArtistOf(p) == a
  {
    var names := Ranks.TopArtists(data, lo, hi, Ranks.TopArtistCount);
    Ranks.TopArtistsSpec(data, lo, hi, Ranks.TopArtistCount);
    SetOfSeqSize(names);
  }

  lemma {:induction false} SetOfSeqSize(xs: seq<string>)
    ensures |set a | a in xs| <= |xs|
  {
    if xs != [] {
      SetOfSeqSize(xs[1..]);
      assert (set a | a in xs) == {xs[0]} + (set a | a in xs[1..]);
    }
  }

  /** A selection the size of the top set that contains it is the top set. */
  lemma SameSizeSubset(top: set<string>, selected: set<string>)
    requires top <= selected && |selected| == |top|
    ensures selected == top
  {
    assert selected == top + (selected - top);
    assert |selected - top| == 0;
  }

  /** The instants of the range's first and last month; the end defaults to the start month. */
  function Instants(start: string, end: Option<string>, startOf: string -> int, endOf: string -> int): (int, int) {
    (startOf(start), endOf(if end.Some? then end.value else start))
  }

  /** The dashboard's page state. */
  class Dashboard {
    var start: Option<string>
    var end: Option<string>
    var kind: Csv.Kind
    var useReason: bool
    var selected: set<string>
    var topSet: set<string>
    var topChecked: bool
    var minutes: Paging.Pager<Ranks.Entry<Option<int>>>
    var plays: Paging.Pager<Ranks.Entry<int>>
    var unique: Paging.Pager<Ranks.Entry<int>>

    /** The pagers are valid and distinct, the month keys are not empty, and an end needs a start. */
    predicate Valid()
      reads this, minutes, plays, unique
    {
      minutes.Valid() && plays.Valid() && unique.Valid() && plays != unique
      && (start.Some? ==> start.value != "")
      && (end.Some? ==> start.Some? && end.value != "")
    }

    /** The state before the data arrives: no range, music, reason filter on, nothing selected. */
    constructor()
      ensures Valid() && fresh(minutes) && fresh(plays) && fresh(unique)
      ensures start == None && end == None && kind == Csv.Music && useReason
      ensures selected == {} && topSet == {} && !topChecked
    {
      start := None;
      end := None;
      kind := Csv.Music;
      useReason := true;
      selected := {};
      topSet := {};
      topChecked := false;
      minutes := new Paging.Pager();
      plays := new Paging.Pager();
      unique := new Paging.Pager();
    }

    /**
     * What `applyFilter` leaves behind when a range is set: the top set and the
     * rankings of the range, the selection replaced by the top set when the
     * toggle was on (`selected0` and `checked0` are the selection and toggle it
     * started from), and the toggle in sync.
     */
    predicate Filtered(data: seq<Csv.Play>, startOf: string -> int, endOf: string -> int, selected0: set<string>, checked0: bool)
      reads this, minutes, plays, unique
      requires start.Some?
    {
      var (lo, hi) := Instants(start.value, end, startOf, endOf);
      FilteredAt(data, lo, hi, selected0, checked0)
    }

    /** `Filtered` for the instants `lo` and `hi`. */
    predicate FilteredAt(data: seq<Csv.Play>, lo: int, hi: int, selected0: set<string>, checked0: bool)
      reads this, minutes, plays, unique
    {
      var r := Ranks.RanksOf(data, Ranks.Window(lo, hi, kind, useReason));
      topSet == TopSet(data, lo, hi)
      && selected == (if checked0 then topSet else selected0)
      && topChecked == InSync(selected, topSet)
      && minutes.items == r.topMinutes && plays.items == r.topPlays && unique.items == r.topUnique
    }

    /** `syncTopToggleState()`: sizes first, then every top artist must be selected. */
    method SyncTopToggleState()
      modifies this`topChecked
      ensures topChecked == InSync(selected, topSet)
    {
      if topSet == {} {
        topChecked := false;
        return;
      }
      var allMatch := |selected| == |topSet|;
      if allMatch {
        var remaining := topSet;
        while remaining != {}
          invariant remaining <= topSet
          invariant topSet - remaining <= selected
          decreases |remaining|
        {
          var name :| name in remaining;
          if name !in selected {
            allMatch := false;
            break;
          }
          remaining := remaining - {name};
        }
        if allMatch {
          SameSizeSubset(topSet, selected);
        }
      }
      topChecked := allMatch;
    }

    /**
     * `applyFilter()`: nothing without a range; otherwise the top set is
     * recomputed, the selection follows it while the toggle is on, the three
     * rankings are recomputed with their pages pulled back into range, and the
     * toggle is resynchronised. The conversion of month keys to instants is
     * passed in as `startOf` and `endOf`.
     */
    method ApplyFilter(data: seq<Csv.Play>, startOf: string -> int, endOf: string -> int)
      requires Valid()
      modifies this`selected, this`topSet, this`topChecked, minutes, plays, unique
      ensures Valid()
      ensures start.None? ==> unchanged(this, minutes, plays, unique)
      ensures start.Some? ==> Filtered(data, startOf, endOf, old(selected), old(topChecked))
      ensures start.Some? ==> minutes.page == Paging.Min(old(minutes.page), minutes.totalPages)
      ensures start.Some? ==> plays.page == Paging.Min(old(plays.page), plays.totalPages)
      ensures start.Some? ==> unique.page == Paging.Min(old(unique.page), unique.totalPages)
    {
      if start.None? {
        return;
      }
      var (lo, hi) := Instants(start.value, end, startOf, endOf);
      Refresh(data, lo, hi);
    }

    /** The body of `applyFilter` once the range is known to be from `lo` to `hi`. */
    method Refresh(data: seq<Csv.Play>, lo: int, hi: int)
      requires Valid()
      modifies this`selected, this`topSet, this`topChecked, minutes, plays, unique
      ensures Valid()
      ensures FilteredAt(data, lo, hi, old(selected), old(topChecked))
      ensures minutes.page == Paging.Min(old(minutes.page), minutes.totalPages)
      ensures plays.page == Paging.Min(old(plays.page), plays.totalPages)
      ensures unique.page == Paging.Min(old(unique.page), unique.totalPages)
    {
      UpdateTopArtistSet(data, lo, hi);
      if topChecked {
        selected := topSet;
      }
      var ranks := Ranks.ComputeArtistRanks(data, Ranks.Window(lo, hi, kind, useReason));
      SetRankings(ranks);
      SyncTopToggleState();
    }

    /** `updateTopArtistSet(start, end)`. */
    method UpdateTopArtistSet(data: seq<Csv.Play>, lo: int, hi: int)
      modifies this`topSet
      ensures topSet == TopSet(data, lo, hi)
    {
      var top := Ranks.TopArtistsByMinutes(data, lo, hi, Ranks.TopArtistCount);
      topSet := set a | a in top;
    }

    /** The three `rankState` updates of `applyFilter`. */
    method SetRankings(r: Ranks.Ranking)
      requires Valid()
      modifies minutes, plays, unique
      ensures Valid()
      ensures minutes.items == r.topMinutes && plays.items == r.topPlays && unique.items == r.topUnique
      ensures minutes.page == Paging.Min(old(minutes.page), minutes.totalPages)
      ensures plays.page == Paging.Min(old(plays.page), plays.totalPages)
      ensures unique.page == Paging.Min(old(unique.page), unique.totalPages)
    {
      minutes.SetItems(r.topMinutes);
      plays.SetItems(r.topPlays);
      unique.SetItems(r.topUnique);
    }

    /** `handleMonthClick(monthKey)`: the range moves as `NextRange` says and the filter is applied. */
    method HandleMonthClick(key: string, data: seq<Csv.Play>, startOf: string -> int, endOf: string -> int)
      requires Valid() && key != ""
      modifies this`start, this`end, this`selected, this`topSet, this`topChecked, minutes, plays, unique
      ensures Valid()
      ensures (start, end) == NextRange(old(start), old(end), key)
      ensures Ordered(start, end)
      ensures kind == old(kind) && useReason == old(useReason)
      ensures Filtered(data, startOf, endOf, old(selected), old(topChecked))
      ensures minutes.page == Paging.Min(old(minutes.page), minutes.totalPages)
      ensures plays.page == Paging.Min(old(plays.page), plays.totalPages)
      ensures unique.page == Paging.Min(old(unique.page), unique.totalPages)
    {
      var (s, e) := NextRange(start, end, key);
      ClickOrders(start, end, key);
      start, end := s, e;
      ApplyFilter(data, startOf, endOf);
    }

    /** `setType(type)`. */
    method SetType(k: Csv.Kind, data: seq<Csv.Play>, startOf: string -> int, endOf: string -> int)
      requires Valid()
      modifies this`kind, this`selected, this`topSet, this`topChecked, minutes, plays, unique
      ensures Valid() && kind == k
      ensures start == old(start) && end == old(end) && useReason == old(useReason)
      ensures start.Some? ==> Filtered(data, startOf, endOf, old(selected), old(topChecked))
      ensures start.Some? ==> minutes.page == Paging.Min(old(minutes.page), minutes.totalPages)
      ensures start.Some? ==> plays.page == Paging.Min(old(plays.page), plays.totalPages)
      ensures start.Some? ==> unique.page == Paging.Min(old(unique.page), unique.totalPages)
      ensures start.None? ==> selected == old(selected) && topSet == old(topSet) && topChecked == old(topChecked)
    {
      kind := k;
      ApplyFilter(data, startOf, endOf);
    }

    /** `setReasonFilter(useFilter)`. */
    method SetReasonFilter(b: bool, data: seq<Csv.Play>, startOf: string -> int, endOf: string -> int)
      requires Valid()
      modifies this`useReason, this`selected, this`topSet, this`topChecked, minutes, plays, unique
      ensures Valid() && useReason == b
      ensures start == old(start) && end == old(end) && kind == old(kind)
      ensures start.Some? ==> Filtered(data, startOf, endOf, old(selected), old(topChecked))
      ensures start.Some? ==> minutes.page == Paging.Min(old(minutes.page), minutes.totalPages)
      ensures start.Some? ==> plays.page == Paging.Min(old(plays.page), plays.totalPages)
      ensures start.Some? ==> unique.page == Paging.Min(old(unique.page), unique.totalPages)
      ensures start.None? ==> selected == old(selected) && topSet == old(topSet) && topChecked == old(topChecked)
    {
      useReason := b;
      ApplyFilter(data, startOf, endOf);
    }

    /**
     * A change of an artist's checkbox in the search results: checking adds
     * the artist, unchecking removes it and turns the top toggle off. While
     * the toggle is on, the filter then puts the top set back, so an artist
     * checked from outside it is not kept.
     */
    method ArtistChecked(name: string, checked: bool, data: seq<Csv.Play>, startOf: string -> int, endOf: string -> int)
      requires Valid()
      modifies this`selected, this`topSet, this`topChecked, minutes, plays, unique
      ensures Valid()
      ensures start == old(start) && end == old(end) && kind == old(kind) && useReason == old(useReason)
      ensures name == "" ==> selected == old(selected) && topChecked == old(topChecked)
      ensures name != "" && start.None? ==>
        selected == (if checked then old(selected) + {name} else old(selected) - {name})
        && topChecked == (checked && old(topChecked))
      ensures name != "" && start.Some? && checked ==>
        Filtered(data, startOf, endOf, old(selected) + {name}, old(topChecked))
      ensures name != "" && start.Some? && !checked ==>
        Filtered(data, startOf, endOf, old(selected) - {name}, false) && name !in selected
      ensures name != "" && start.Some? && checked && old(topChecked) && name !in topSet ==> name !in selected
      ensures name != "" && start.Some? ==> minutes.page == Paging.Min(old(minutes.page), minutes.totalPages)
      ensures name != "" && start.Some? ==> plays.page == Paging.Min(old(plays.page), plays.totalPages)
      ensures name != "" && start.Some? ==> unique.page == Paging.Min(old(unique.page), unique.totalPages)
    {
      if name == "" {
        return;
      }
      if checked {
        selected := selected + {name};
      } else {
        selected := selected - {name};
        if topChecked {
          topChecked := false;
        }
      }
      ApplyFilter(data, startOf, endOf);
    }

    /** A click on an artist in the chart legend removes it from the selection and turns the top toggle off. */
    method LegendRemove(name: string, data: seq<Csv.Play>, startOf: string -> int, endOf: string -> int)
      requires Valid()
      modifies this`selected, this`topSet, this`topChecked, minutes, plays, unique
      ensures Valid()
      ensures start == old(start) && end == old(end) && kind == old(kind) && useReason == old(useReason)
      ensures name == "" ==> selected == old(selected) && topChecked == old(topChecked)
      ensures name != "" && start.None? ==> selected == old(selected) - {name} && !topChecked
      ensures name != "" && start.Some? ==>
        Filtered(data, startOf, endOf, old(selected) - {name}, false) && name !in selected
      ensures name != "" && start.Some? ==> minutes.page == Paging.Min(old(minutes.page), minutes.totalPages)
      ensures name != "" && start.Some? ==> plays.page == Paging.Min(old(plays.page), plays.totalPages)
      ensures name != "" && start.Some? ==> unique.page == Paging.Min(old(unique.page), unique.totalPages)
    {
      if name == "" {
        return;
      }
      selected := selected - {name};
      if topChecked {
        topChecked := false;
      }
      ApplyFilter(data, startOf, endOf);
    }

    /**
     * A change of the top toggle to `checked`: without a range nothing more
     * happens; turning it off clears the selection; turning it on selects the
     * top set of the range, and the toggle stays on exactly when that set is
     * not empty.
     */
    method ToggleTop(checked: bool, data: seq<Csv.Play>, startOf: string -> int, endOf: string -> int)
      requires Valid()
      modifies this`selected, this`topSet, this`topChecked, minutes, plays, unique
      ensures Valid()
      ensures start == old(start) && end == old(end) && kind == old(kind) && useReason == old(useReason)
      ensures start.None? ==> topChecked == checked && selected == old(selected) && topSet == old(topSet)
      ensures start.Some? && !checked ==> Filtered(data, startOf, endOf, {}, false) && selected == {}
      ensures start.Some? && checked ==> Filtered(data, startOf, endOf, topSet, true)
      ensures start.Some? && checked ==> selected == topSet && topChecked == (topSet != {})
      ensures start.Some? ==> var (lo, hi) := Instants(start.value, end, startOf, endOf); topSet == TopSet(data, lo, hi)
      ensures start.Some? ==> minutes.page == Paging.Min(old(minutes.page), minutes.totalPages)
      ensures start.Some? ==> plays.page == Paging.Min(old(plays.page), plays.totalPages)
      ensures start.Some? ==> unique.page == Paging.Min(old(unique.page), unique.totalPages)
    {
      topChecked := checked;
      if start.None? {
        return;
      }
      if !checked {
        selected := {};
        ApplyFilter(data, startOf, endOf);
        return;
      }
      var (lo, hi) := Instants(start.value, end, startOf, endOf);
      var top := Ranks.TopArtistsByMinutes(data, lo, hi, Ranks.TopArtistCount);
      topSet := set a | a in top;
      selected := topSet;
      ApplyFilter(data, startOf, endOf);
    }
  }
}
