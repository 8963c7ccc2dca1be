/**
 * Calendar months in the listening-history dashboard
 * (lab/spotify_history_viz/app.js): the "YYYY-MM" key of a month and the
 * consecutive months a date range covers.
 */
module Months {
  import Strings

  /** A month number as `getUTCMonth()` returns it: 0 for January. */
  type MonthOfYear = m: int | 0 <= m < 12

  /** The UTC year and month of a date; the day and time do not matter here. */
  datatype Month = Month(year: int, month: MonthOfYear)

  /** The number of months since January of year 0. */
  function Index(m: Month): int {
    m.year * 12 + m.month
  }

  function FromIndex(i: int): (m: Month)
    ensures Index(m) == i
  {
    Month(i / 12, i % 12)
  }

  lemma IndexInjective(a: Month, b: Month)
    requires Index(a) == Index(b)
    ensures a == b
  {
    assert (a.year - b.year) * 12 == b.month - a.month;
  }

  /** `cursor.setUTCMonth(cursor.getUTCMonth() + 1)` on the first day of a month: December rolls over. */
  function Next(m: Month): (r: Month)
    ensures Index(r) == Index(m) + 1
  {
    if m.month == 11 then Month(m.year + 1, 0) else Month(m.year, m.month + 1)
  }

  /** `String(n).padStart(2, "0")`. */
  function Pad2(n: nat): (r: string)
    ensures n < 100 ==> |r| == 2
  {
    var s := Strings.NatToString(n);
    if |s| < 2 then "0" + s else s
  }

  /** The two characters of a padded month number are its tens and its units digit. */
  lemma Pad2Digits(n: nat)
    requires 1 <= n < 100
    ensures Pad2(n) == [Strings.Digit(n / 10), Strings.Digit(n % 10)]
  {
    assert Strings.Digit(0) == '0';
    if n >= 10 {
      assert Strings.NatToString(n / 10) == [Strings.Digit(n / 10)];
      assert Strings.NatToString(n) == [Strings.Digit(n / 10)] + [Strings.Digit(n % 10)];
    } else {
      assert Strings.NatToString(n) == [Strings.Digit(n % 10)];
    }
  }

  lemma Pad2Injective(a: nat, b: nat)
    requires 1 <= a < 100 && 1 <= b < 100 && Pad2(a) == Pad2(b)
    ensures a == b
  {
    Pad2Digits(a);
    Pad2Digits(b);
    Strings.DigitInjective(a / 10, b / 10);
    Strings.DigitInjective(a % 10, b % 10);
  }

  /** `monthKey(d)` / `toDateOnly(d)`: the year, a dash and the two-digit month. */
  function MonthKey(m: Month): string {
    Strings.IntToString(m.year) + "-" + Pad2(m.month + 1)
  }

  /** Different months have different keys. */
  lemma MonthKeyInjective(a: Month, b: Month)
    requires MonthKey(a) == MonthKey(b)
    ensures a == b
  {
    var ya, yb := Strings.IntToString(a.year), Strings.IntToString(b.year);
    var ka, kb := MonthKey(a), MonthKey(b);
    assert |ka| == |ya| + 3 && |kb| == |yb| + 3;
    assert ka[..|ya|] == ya && kb[..|yb|] == yb;
    assert ka[|ya| + 1..] == Pad2(a.month + 1) && kb[|yb| + 1..] == Pad2(b.month + 1);
    Strings.IntToStringInjective(a.year, b.year);
    Pad2Injective(a.month + 1, b.month + 1);
  }

  /** How many months lie from `start` to `end`, both included. */
  function Span(start: Month, end: Month): nat {
    if Index(start) <= Index(end) then Index(end) - Index(start) + 1 else 0
  }

  /** The `k`-th month counted from `start`. */
  function After(start: Month, k: int): Month {
    FromIndex(Index(start) + k)
  }

  /** `monthSequence(startDate, endDate)`: the keys of every month from the first to the last, in order. */
  method MonthSequence(start: Month, end: Month) returns (months: seq<string>)
    ensures |months| == Span(start, end)
    ensures forall k :: 0 <= k < |months| ==> months[k] == MonthKey(After(start, k))
  {
    months := [];
    var cursor := start;
    IndexInjective(start, After(start, 0));
    while Index(cursor) <= Index(end)
      invariant Index(start) <= Index(cursor)
      invariant Index(cursor) <= Index(end) + 1 || cursor == start
      invariant |months| == Index(cursor) - Index(start)
      invariant cursor == After(start, |months|)
      invariant forall k :: 0 <= k < |months| ==> months[k] == MonthKey(After(start, k))
      decreases Index(end) - Index(cursor)
    {
      KeysExtend(start, months, cursor);
      months := months + [MonthKey(cursor)];
      cursor := Next(cursor);
    }
  }

  /** One round of the loop keeps the listed keys in step with the months counted from `start`. */
  lemma KeysExtend(start: Month, months: seq<string>, cursor: Month)
    requires cursor == After(start, |months|)
    requires forall k :: 0 <= k < |months| ==> months[k] == MonthKey(After(start, k))
    ensures Next(cursor) == After(start, |months| + 1)
    ensures forall k :: 0 <= k < |months| + 1 ==> (months + [MonthKey(cursor)])[k] == MonthKey(After(start, k))
  {
    SequenceSteps(start, |months|);
  }

  /** The listed months are pairwise distinct. */
  lemma SequenceDistinct(start: Month, j: int, k: int)
    requires 0 <= j < k
    ensures MonthKey(After(start, j)) != MonthKey(After(start, k))
  {
    if MonthKey(After(start, j)) == MonthKey(After(start, k)) {
      MonthKeyInjective(After(start, j), After(start, k));
    }
  }

  /** Consecutive listed months are one calendar step apart. */
  lemma SequenceSteps(start: Month, k: int)
    ensures After(start, k + 1) == Next(After(start, k))
  {
    IndexInjective(After(start, k + 1), Next(After(start, k)));
  }
}
