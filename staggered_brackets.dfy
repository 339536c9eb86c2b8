/**
 * The date brackets of the staggered backups: 30 daily brackets from today back,
 * then weekly brackets, then monthly brackets. Dates are day numbers; the calendar
 * (weekdays, days of the month, month lengths) is a parameter.
 */
module StaggeredBrackets {
  import opened Wrappers
  import opened StaggeredBackups

  /**
   * `weekday(d)`: days since Monday; `day0(d)`: zero-based day of the month;
   * `lastDay0(m)`: the zero-based day of the last day of the month that starts at `m`.
   */
  datatype Calendar = Calendar(weekday: int -> nat, day0: int -> nat, lastDay0: int -> nat)

  /** A weekday is one of seven, and no day lies after the last day of its month. */
  ghost predicate ValidCalendar(cal: Calendar) {
    && (forall d :: cal.weekday(d) < 7)
    && (forall d :: cal.day0(d) <= cal.lastDay0(d - cal.day0(d)))
  }

  const DayBrackets: nat := 30
  const WeekBrackets: nat := 26
  const MonthBrackets: nat := 24
  /** Weeks already covered by the daily brackets are not counted again: 22. */
  const WeeklyBrackets: nat := WeekBrackets - DayBrackets / 7
  /** Months already covered by the weekly brackets are not counted again: 18. */
  const MonthlyBrackets: nat := MonthBrackets - (WeekBrackets * 7) / 30

  function StartOfMonth(cal: Calendar, d: int): int {
    d - cal.day0(d)
  }

  /** The first day of the month before the one starting at `m`: twenty days back, then to its month's start. */
  function PreviousMonth(cal: Calendar, m: int): int {
    StartOfMonth(cal, m - 20)
  }

  function MonthStartAt(cal: Calendar, m: int, i: nat): int {
    if i == 0 then m else PreviousMonth(cal, MonthStartAt(cal, m, i - 1))
  }

  function Daily(today: int, n: nat): (r: seq<Bracket>)
    ensures |r| == n
  {
    if n == 0 then [] else Daily(today, n - 1) + [Bracket(today - (n - 1), 0, "daily")]
  }

  function Weekly(start: int, n: nat): (r: seq<Bracket>)
    ensures |r| == n
  {
    if n == 0 then [] else Weekly(start, n - 1) + [Bracket(start - 7 * (n - 1), 6, "weekly")]
  }

  function Monthly(cal: Calendar, start: int, n: nat): (r: seq<Bracket>)
    ensures |r| == n
  {
    if n == 0 then []
    else
      var m := MonthStartAt(cal, start, n - 1);
      Monthly(cal, start, n - 1) + [Bracket(m, cal.lastDay0(m), "monthly")]
  }

  /** The Monday of the week that holds the day after the last daily bracket. */
  function FirstWeekly(cal: Calendar, today: int): int {
    var lastDaily := today - DayBrackets;
    lastDaily - cal.weekday(lastDaily)
  }

  /** The brackets `init_brackets` builds: the monthly ones start at the month of the day a week before the oldest weekly bracket. */
  function InitialBrackets(cal: Calendar, today: int): seq<Bracket> {
    var w := FirstWeekly(cal, today);
    var lastWeekly := w - 7 * WeeklyBrackets;
    Daily(today, DayBrackets) + Weekly(w, WeeklyBrackets) + Monthly(cal, StartOfMonth(cal, lastWeekly), MonthlyBrackets)
  }

  /** The same brackets with the monthly ones starting at the month of the day just before the oldest weekly bracket. */
  function CorrectedBrackets(cal: Calendar, today: int): seq<Bracket> {
    var w := FirstWeekly(cal, today);
    var oldestWeekly := w - 7 * (WeeklyBrackets - 1);
    Daily(today, DayBrackets) + Weekly(w, WeeklyBrackets) + Monthly(cal, StartOfMonth(cal, oldestWeekly - 1), MonthlyBrackets)
  }

  /** `init_brackets`, with today's date given: three loops that push brackets while stepping a date back. */
  method InitBrackets(cal: Calendar, today: int) returns (brackets: seq<Bracket>)
    ensures brackets == InitialBrackets(cal, today)
  {
    brackets := [];
    var lastDaily := today;
    for i := 0 to DayBrackets
      invariant brackets == Daily(today, i) && lastDaily == today - i
    {
      brackets := brackets + [Bracket(lastDaily, 0, "daily")];
      lastDaily := lastDaily - 1;
    }
    var lastWeekly := lastDaily - cal.weekday(lastDaily);
    ghost var w := lastWeekly;
    for i := 0 to WeeklyBrackets
      invariant brackets == Daily(today, DayBrackets) + Weekly(w, i) && lastWeekly == w - 7 * i
    {
      brackets := brackets + [Bracket(lastWeekly, 6, "weekly")];
      lastWeekly := lastWeekly - 7;
    }
    var startOfMonth := lastWeekly - cal.day0(lastWeekly);
    ghost var m := startOfMonth;
    for i := 0 to MonthlyBrackets
      invariant brackets == Daily(today, DayBrackets) + Weekly(w, WeeklyBrackets) + Monthly(cal, m, i)
      invariant startOfMonth == MonthStartAt(cal, m, i)
    {
      var lastDayOfMonth := cal.lastDay0(startOfMonth);
      brackets := brackets + [Bracket(startOfMonth, lastDayOfMonth, "monthly")];
      var previousMonth := startOfMonth - 20;
      startOfMonth := previousMonth - cal.day0(previousMonth);
    }
  }

  lemma {:induction false} DailyShape(today: int, n: nat, i: nat)
    requires i < n
    ensures Daily(today, n)[i] == Bracket(today - i, 0, "daily")
  {
    if i < n - 1 {
      DailyShape(today, n - 1, i);
    }
  }

  lemma {:induction false} WeeklyShape(start: int, n: nat, i: nat)
    requires i < n
    ensures Weekly(start, n)[i] == Bracket(start - 7 * i, 6, "weekly")
  {
    if i < n - 1 {
      WeeklyShape(start, n - 1, i);
    }
  }

  lemma {:induction false} MonthlyShape(cal: Calendar, start: int, n: nat, i: nat)
    requires i < n
    ensures Monthly(cal, start, n)[i] == Bracket(MonthStartAt(cal, start, i), cal.lastDay0(MonthStartAt(cal, start, i)), "monthly")
  {
    if i < n - 1 {
      MonthlyShape(cal, start, n - 1, i);
    }
  }

  /** The three runs of brackets laid end to end. */
  lemma {:induction false} Shape(cal: Calendar, today: int, m: int, i: nat)
    requires i < 70
    ensures var w := FirstWeekly(cal, today);
      var r := Daily(today, DayBrackets) + Weekly(w, WeeklyBrackets) + Monthly(cal, m, MonthlyBrackets);
      && |r| == 70
      && (i < 30 ==> r[i] == Bracket(today - i, 0, "daily"))
      && (30 <= i < 52 ==> r[i] == Bracket(w - 7 * (i - 30), 6, "weekly"))
      && (52 <= i ==> r[i] == Bracket(MonthStartAt(cal, m, i - 52), cal.lastDay0(MonthStartAt(cal, m, i - 52)), "monthly"))
  {
    var w := FirstWeekly(cal, today);
    if i < 30 {
      DailyShape(today, DayBrackets, i);
    } else if i < 52 {
      WeeklyShape(w, WeeklyBrackets, i - 30);
    } else {
      MonthlyShape(cal, m, MonthlyBrackets, i - 52);
    }
  }

  /** Each month start found by stepping back lies before the one it was found from. */
  lemma {:induction false} MonthStartsDecrease(cal: Calendar, m: int, i: nat, j: nat)
    requires i < j
    ensures MonthStartAt(cal, m, j) < MonthStartAt(cal, m, i)
    decreases j
  {
    if i < j - 1 {
      MonthStartsDecrease(cal, m, i, j - 1);
    }
  }

  /**
   * `init_brackets` yields 30 daily, 22 weekly and 18 monthly brackets, in that
   * order, and their start dates strictly decrease.
   */
  lemma {:induction false} Brackets(cal: Calendar, today: int, i: nat, j: nat)
    requires i < j < 70
    ensures |InitialBrackets(cal, today)| == 70
    ensures var r := InitialBrackets(cal, today);
      && (i < 30 ==> r[i].description == "daily" && r[i].days == 0)
      && (30 <= i < 52 ==> r[i].description == "weekly" && r[i].days == 6)
      && (52 <= i ==> r[i].description == "monthly")
      && r[i].start > r[j].start
  {
    var w := FirstWeekly(cal, today);
    var m := StartOfMonth(cal, w - 7 * WeeklyBrackets);
    Shape(cal, today, m, i);
    Shape(cal, today, m, j);
    if 52 <= i {
      MonthStartsDecrease(cal, m, i - 52, j - 52);
    } else if 52 < j {
      MonthStartsDecrease(cal, m, 0, j - 52);
    }
  }

  predicate Covers(b: Bracket, d: int) {
    b.start <= d <= b.start + b.days
  }

  /** The 30-day calendar of the counterexample: day 0 is a Monday. */
  const Thirty: Calendar := Calendar(d => d % 7, d => d % 30, m => 29)

  /** The first twelve of these brackets all start after day 242. */
  lemma {:induction false} NothingTakenBefore(entries: seq<Entry>, brackets: seq<Bracket>, k: nat)
    requires k <= |brackets| && entries != [] && Sorted(entries)
    requires forall i :: 0 <= i < k ==> DayOf(entries[|entries| - 1].time) < brackets[i].start
    ensures Assign(entries, brackets[..k]).Ok? && Assign(entries, brackets[..k]).value.rest == entries
    decreases k
  {
    if k > 0 {
      var init := brackets[..k - 1];
      assert brackets[..k][..k - 1] == init;
      NothingTakenBefore(entries, brackets, k - 1);
    }
  }

  /**
   * Today is day 422 and the only backup is from day 242. The monthly brackets start
   * at the month of day 238 (days 210 to 239), while the oldest weekly bracket starts
   * at day 245, so day 242 lies in no bracket and the run fails with a file "in the
   * future" of the first monthly bracket.
   */
  lemma {:induction false} MonthlyGapFails()
    ensures var e := Entry(242 * MinutesPerDay, "backup_242");
      Run([(Some(242 * MinutesPerDay), "backup_242")], InitialBrackets(Thirty, 422), true) == InTheFuture(52, e)
  {
    var e := Entry(242 * MinutesPerDay, "backup_242");
    var files := [(Some(242 * MinutesPerDay), "backup_242")];
    assert files[..0] == [];
    assert Collected(files) == [e];
    var r := InitialBrackets(Thirty, 422);
    var w := FirstWeekly(Thirty, 422);
    assert w == 392;
    var m := StartOfMonth(Thirty, w - 7 * WeeklyBrackets);
    assert m == 210;
    forall i | 0 <= i < 52 ensures 242 < r[i].start {
      Shape(Thirty, 422, m, i);
    }
    assert DayOf(e.time) == 242;
    NothingTakenBefore([e], r, 52);
    Shape(Thirty, 422, m, 52);
    assert r[52] == Bracket(210, 29, "monthly");
    assert r[..53][..52] == r[..52];
    assert Assign([e], r[..53]) == Err(Future(52, e));
    AssignFailureIsFinal([e], r, 53);
  }

  /**
   * With the monthly brackets starting at the month of the day before the oldest
   * weekly bracket, every day from that month's start up to today lies in a bracket.
   */
  lemma {:induction false} CorrectedLeavesNoGap(cal: Calendar, today: int, d: int)
    requires ValidCalendar(cal)
    requires StartOfMonth(cal, FirstWeekly(cal, today) - 7 * (WeeklyBrackets - 1) - 1) <= d <= today
    ensures exists i :: 0 <= i < |CorrectedBrackets(cal, today)| && Covers(CorrectedBrackets(cal, today)[i], d)
  {
    var w := FirstWeekly(cal, today);
    var a := w - 7 * (WeeklyBrackets - 1) - 1;
    var m := StartOfMonth(cal, a);
    var r := CorrectedBrackets(cal, today);
    if d >= today - 29 {
      Shape(cal, today, m, today - d);
      assert Covers(r[today - d], d);
    } else if d > a {
      var k := (w + 6 - d) / 7;
      assert 0 <= k < 22;
      Shape(cal, today, m, 30 + k);
      assert Covers(r[30 + k], d);
    } else {
      Shape(cal, today, m, 52);
      assert cal.day0(a) <= cal.lastDay0(a - cal.day0(a));
      assert Covers(r[52], d);
    }
  }

  /** The corrected brackets keep the counts, kinds and strictly decreasing starts. */
  lemma {:induction false} CorrectedBracketsDecrease(cal: Calendar, today: int, i: nat, j: nat)
    requires i < j < 70
    ensures |CorrectedBrackets(cal, today)| == 70
    ensures var r := CorrectedBrackets(cal, today); r[i].start > r[j].start
  {
    var w := FirstWeekly(cal, today);
    var m := StartOfMonth(cal, w - 7 * (WeeklyBrackets - 1) - 1);
    Shape(cal, today, m, i);
    Shape(cal, today, m, j);
    if 52 <= i {
      MonthStartsDecrease(cal, m, i - 52, j - 52);
    } else if 52 < j {
      MonthStartsDecrease(cal, m, 0, j - 52);
    }
  }
}
