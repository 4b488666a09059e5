/** The rolling weekly window and the strict date filter applied to the collected
    contacts. Dates are Python day ordinals (`date.toordinal()`): 0001-01-01 is day 1,
    a Monday. */
module Window {
  import opened Common

  /** `lookback_days` and `weekly_multiplier`. */
  const LookbackDays: int := 7
  const WeeklyMultiplier: int := 1

  /** `date.weekday()`: Monday is 0 and Sunday is 6. */
  function Weekday(d: int): (w: int)
    ensures 0 <= w < 7
  {
    (d + 6) % 7
  }

  /** `start_date`: today, minus its weekday, minus the lookback, minus one day. */
  function StartDate(today: int): int
  {
    today - Weekday(today) - LookbackDays - 1
  }

  /** `end_date`: `start_date` plus `7 * weekly_multiplier + 1` days. */
  function EndDate(today: int): int
  {
    StartDate(today) + 7 * WeeklyMultiplier + 1
  }

  /** The filter's test: strictly after `start` and strictly before `end`. */
  predicate Between(d: int, start: int, end: int)
  {
    start < d < end
  }

  /** The window's shape: `start_date` is a Sunday, `end_date` is the Monday of
      today's week (so never after today), and the kept dates are exactly the seven
      days from last week's Monday through last week's Sunday. */
  lemma WindowIsLastWeek(today: int)
    ensures Weekday(StartDate(today)) == 6
    ensures EndDate(today) == today - Weekday(today) && Weekday(EndDate(today)) == 0
    ensures EndDate(today) <= today < EndDate(today) + 7
    ensures Weekday(StartDate(today) + 1) == 0 && Weekday(StartDate(today) + 7) == 6
    ensures forall d :: Between(d, StartDate(today), EndDate(today)) <==> EndDate(today) - 7 <= d <= EndDate(today) - 1
  {
  }

  /** The pandas filter `df[(df[col] > start_date) & (df[col] < end_date)]`; a row
      whose date is missing (`NaT`) compares false and is dropped. */
  function FilterByDate<R>(rows: seq<R>, dateOf: R -> Option<int>, start: int, end: int): seq<R>
  {
    if rows == [] then []
    else
      var keep := dateOf(rows[0]).Some? && Between(dateOf(rows[0]).value, start, end);
      (if keep then [rows[0]] else []) + FilterByDate(rows[1..], dateOf, start, end)
  }

  /** A row survives the filter exactly when it is one of the input rows and its
      date lies strictly inside the window; the survivors keep their input order,
      and a surviving row appears as many times as in the input (duplicates stay). */
  lemma {:induction false} FilterByDateKeepsWindow<R>(rows: seq<R>, dateOf: R -> Option<int>, start: int, end: int)
    ensures forall r :: r in FilterByDate(rows, dateOf, start, end) <==>
              r in rows && dateOf(r).Some? && Between(dateOf(r).value, start, end)
    ensures IsSubsequence(FilterByDate(rows, dateOf, start, end), rows)
    ensures |FilterByDate(rows, dateOf, start, end)| <= |rows|
    ensures forall r :: multiset(FilterByDate(rows, dateOf, start, end))[r] ==
              if dateOf(r).Some? && Between(dateOf(r).value, start, end) then multiset(rows)[r] else 0
  {
    if rows != [] {
      FilterByDateKeepsWindow(rows[1..], dateOf, start, end);
      var rest := FilterByDate(rows[1..], dateOf, start, end);
      var kept := FilterByDate(rows, dateOf, start, end);
      assert rows == [rows[0]] + rows[1..];
      assert multiset(rows) == multiset{rows[0]} + multiset(rows[1..]);
      if dateOf(rows[0]).Some? && Between(dateOf(rows[0]).value, start, end) {
        assert kept == [rows[0]] + rest;
        assert kept[1..] == rest;
      } else {
        assert kept == rest;
        SubsequenceOfTail(rest, rows);
      }
    }
  }

  /** A subsequence of the tail is a subsequence of the whole. */
  lemma SubsequenceOfTail<T>(a: seq<T>, b: seq<T>)
    requires b != [] && IsSubsequence(a, b[1..])
    ensures IsSubsequence(a, b)
  {
  }

  /** For a run on `today`, the rows kept are those dated from last week's Monday
      through last week's Sunday (neither `start_date` nor `end_date` itself), each
      as many times as it occurs in the input. */
  lemma FilterForRun<R>(rows: seq<R>, dateOf: R -> Option<int>, today: int)
    ensures forall r :: r in FilterByDate(rows, dateOf, StartDate(today), EndDate(today)) <==>
              r in rows && dateOf(r).Some? && EndDate(today) - 7 <= dateOf(r).value < EndDate(today)
    ensures forall r :: multiset(FilterByDate(rows, dateOf, StartDate(today), EndDate(today)))[r] ==
              if dateOf(r).Some? && EndDate(today) - 7 <= dateOf(r).value < EndDate(today) then multiset(rows)[r] else 0
  {
    WindowIsLastWeek(today);
    FilterByDateKeepsWindow(rows, dateOf, StartDate(today), EndDate(today));
  }
}
