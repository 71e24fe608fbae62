/** Period arithmetic of a habit (habit.py): the window `check_completion`
    searches for a completion, the backward step of the streak loops, and the
    sequence of satisfied/unsatisfied periods those loops visit. */
module Periods {

  import opened Wrappers
  import opened Dates

  /** The three period strings `check_completion` and the streak loops branch on. */
  datatype Kind = Daily | Weekly | Monthly

  function KindName(k: Kind): string {
    match k
    case Daily => "Daily"
    case Weekly => "Weekly"
    case Monthly => "Monthly"
  }

  /** The branch taken for a stored `period` column: a NULL (draft) or any other
      string takes none of the three branches. */
  function PeriodKind(period: Option<string>): (r: Option<Kind>)
    ensures r.Some? <==> period.Some? && period.value in {"Daily", "Weekly", "Monthly"}
    ensures r.Some? ==> period == Some(KindName(r.value))
  {
    if period == Some("Daily") then Some(Daily)
    else if period == Some("Weekly") then Some(Weekly)
    else if period == Some("Monthly") then Some(Monthly)
    else None
  }

  /** Monday of `d`'s week: `d - timedelta(d.weekday())`. */
  function WeekStart(d: Date): (r: Date)
    ensures Weekday(r) == 0
    ensures WeekIndex(r) == WeekIndex(d)
    ensures Ordinal(d) - 6 <= Ordinal(r) <= Ordinal(d)
  {
    var r := SubDays(d, Weekday(d));
    DivMod7(Ordinal(r) + 6, WeekIndex(d), 0);
    r
  }

  /** `d.replace(day = 1)`. */
  function MonthStart(d: Date): Date {
    Ymd(d.year, d.month, 1)
  }

  /** The `upper_buffer` of the monthly window: the first of the next month,
      January of the next year after December. */
  function NextMonthStart(d: Date): Date {
    if d.month == 12 then Ymd(d.year + 1, 1, 1) else Ymd(d.year, d.month + 1, 1)
  }

  /** The condition `check_completion(today)` puts on a completion date `c`. */
  predicate InWindow(k: Kind, today: Date, c: Date) {
    match k
    case Daily => c == today
    case Weekly => Le(WeekStart(today), c) && Lt(c, AddDays(WeekStart(today), 7))
    case Monthly => Le(MonthStart(today), c) && Lt(c, NextMonthStart(today))
  }

  /** Consecutive numbering of the periods of each kind: days, Monday-to-Sunday
      weeks, calendar months. */
  function PeriodIndex(k: Kind, d: Date): int {
    match k
    case Daily => Ordinal(d)
    case Weekly => WeekIndex(d)
    case Monthly => d.year * 12 + d.month - 1
  }

  /** The window of `check_completion` is exactly the calendar period of `today`:
      the same day, the Monday-to-Sunday week starting `weekday` days back, or the
      same calendar month. */
  lemma WindowIsPeriod(k: Kind, today: Date, c: Date)
    ensures k == Daily ==> (InWindow(k, today, c) <==> c == today)
    ensures k == Weekly ==> (InWindow(k, today, c) <==>
      Ordinal(today) - Weekday(today) <= Ordinal(c) < Ordinal(today) - Weekday(today) + 7)
    ensures k == Monthly ==> (InWindow(k, today, c) <==> c.year == today.year && c.month == today.month)
    ensures InWindow(k, today, c) <==> PeriodIndex(k, c) == PeriodIndex(k, today)
  {
    match k
    case Daily =>
      OrdinalInjective(c, today);
    case Weekly =>
      var lo := WeekStart(today);
      WeekWindow(today, c, lo, AddDays(lo, 7));
    case Monthly =>
  }

  /** The week window between Monday `lo` and the next Monday `hi` holds the
      dates of `today`'s week number. */
  lemma WeekWindow(today: Date, c: Date, lo: Date, hi: Date)
    requires Ordinal(lo) == Ordinal(today) - Weekday(today) && Ordinal(hi) == Ordinal(lo) + 7
    ensures Le(lo, c) && Lt(c, hi) <==> Ordinal(lo) <= Ordinal(c) < Ordinal(lo) + 7
    ensures Le(lo, c) && Lt(c, hi) <==> WeekIndex(c) == WeekIndex(today)
  {
    LeIffOrdinal(lo, c);
    LeIffOrdinal(c, hi);
    OrdinalInjective(c, hi);
    WeekRange(Ordinal(today), Ordinal(c));
  }

  /** Day numbers: `p` lies in the seven days from the Monday of `o`'s week
      exactly when it has `o`'s week number. */
  lemma WeekRange(o: int, p: int)
    ensures o - (o + 6) % 7 <= p < o - (o + 6) % 7 + 7 <==> (p + 6) / 7 == (o + 6) / 7
  {
    DivMod7(o + 6, (o + 6) / 7, (o + 6) % 7);
    DivMod7(p + 6, (p + 6) / 7, (p + 6) % 7);
  }

  /** The largest number of days one backward step can cover. */
  function MaxStep(k: Kind): nat {
    match k
    case Daily => 1
    case Weekly => 13
    case Monthly => 61
  }

  /** The cursor update at the end of each iteration of the streak loops: one day
      back, to the Monday of the previous week, or to the first of the previous
      month (December of the previous year after January). */
  function Step(k: Kind, d: Date): (r: Date)
    ensures Ordinal(r) < Ordinal(d) <= Ordinal(r) + MaxStep(k)
    ensures PeriodIndex(k, r) == PeriodIndex(k, d) - 1
    ensures k == Daily ==> Ordinal(r) == Ordinal(d) - 1
    ensures k == Weekly ==> Weekday(r) == 0
    ensures k == Monthly ==> r.day == 1
  {
    match k
    case Daily => SubDays(d, 1)
    case Weekly => PrevWeekStart(d)
    case Monthly => PrevMonthStart(d)
  }

  /** `d - timedelta(d.weekday()) - timedelta(weeks = 1)`: Monday of the
      previous week. */
  function PrevWeekStart(d: Date): (r: Date)
    ensures Weekday(r) == 0 && WeekIndex(r) == WeekIndex(d) - 1
    ensures Ordinal(r) < Ordinal(d) <= Ordinal(r) + 13
  {
    var r := SubDays(d, Weekday(d) + 7);
    PrevWeekStartFacts(d, r);
    r
  }

  /** A date `weekday + 7` days before `d` is the Monday of the previous week. */
  lemma PrevWeekStartFacts(d: Date, r: Date)
    requires Ordinal(r) == Ordinal(d) - (Weekday(d) + 7)
    ensures Weekday(r) == 0 && WeekIndex(r) == WeekIndex(d) - 1
    ensures Ordinal(r) < Ordinal(d) <= Ordinal(r) + 13
  {
    WeekBack(Ordinal(d), Ordinal(r));
  }

  /** Day numbers: going back `weekday + 7` days lands on the Monday (weekday 0)
      of the previous week. */
  lemma WeekBack(o: int, p: int)
    requires p == o - (o + 6) % 7 - 7
    ensures (p + 6) % 7 == 0 && (p + 6) / 7 == (o + 6) / 7 - 1
    ensures p < o <= p + 13
  {
    DivMod7(p + 6, (o + 6) / 7 - 1, 0);
  }

  /** The first of the previous month, December of the previous year after January. */
  function PrevMonthStart(d: Date): (r: Date)
    ensures r.day == 1 && r.year * 12 + r.month == d.year * 12 + d.month - 1
    ensures Ordinal(r) < Ordinal(d) <= Ordinal(r) + 61
  {
    if d.month == 1 then
      YearStep(d.year - 1);
      MonthStep(d.year - 1, 12);
      Ymd(d.year - 1, 12, 1)
    else
      MonthStep(d.year, d.month - 1);
      Ymd(d.year, d.month - 1, 1)
  }

  /** Some completion date lies in the period of `cursor`. */
  predicate Satisfied(k: Kind, dates: seq<Date>, cursor: Date) {
    exists d :: d in dates && InWindow(k, cursor, d)
  }

  /** A completion recorded on `d` satisfies `d`'s own period. */
  lemma CompletionSatisfies(k: Kind, dates: seq<Date>, d: Date)
    ensures Satisfied(k, dates + [d], d)
  {
    WindowIsPeriod(k, d, d);
  }

  /** Adding a completion never turns a satisfied period unsatisfied. */
  lemma SatisfiedMonotone(k: Kind, dates: seq<Date>, c: Date, d: Date)
    requires Satisfied(k, dates, d)
    ensures Satisfied(k, dates + [c], d)
  {
  }

  /** Whether each period visited by the streak loops is satisfied, from the
      cursor's period backwards, for as long as the cursor is not before the
      creation date. */
  function Marks(k: Kind, dates: seq<Date>, created: Date, cursor: Date): (ms: seq<bool>)
    ensures |ms| > 0 <==> Le(created, cursor)
    decreases Ordinal(cursor) - Ordinal(created)
  {
    if !Le(created, cursor) then []
    else
      LeIffOrdinal(created, cursor);
      [Satisfied(k, dates, cursor)] + Marks(k, dates, created, Step(k, cursor))
  }

  /** The marks still to visit from `cursor` are those of `ms` from index `i`:
      the state the streak loops keep while walking back. */
  predicate MarksFrom(k: Kind, dates: seq<Date>, created: Date, cursor: Date, ms: seq<bool>, i: nat) {
    i <= |ms| && Marks(k, dates, created, cursor) == ms[i..]
  }

  /** One iteration of a streak loop: the cursor's own mark is `ms[i]` and the
      stepped cursor's marks are those from `i + 1`. */
  lemma MarksFront(k: Kind, dates: seq<Date>, created: Date, cursor: Date, ms: seq<bool>, i: nat)
    requires Le(created, cursor) && MarksFrom(k, dates, created, cursor, ms, i)
    ensures i < |ms| && ms[i] == Satisfied(k, dates, cursor)
    ensures MarksFrom(k, dates, created, Step(k, cursor), ms, i + 1)
  {
    assert ms[i + 1..] == ms[i..][1..];
  }

  /** Once the cursor passes the creation date every mark has been visited. */
  lemma MarksDone(k: Kind, dates: seq<Date>, created: Date, cursor: Date, ms: seq<bool>, i: nat)
    requires !Le(created, cursor) && MarksFrom(k, dates, created, cursor, ms, i)
    ensures i == |ms|
  {
  }

  /** Some completion date lies in period number `p`. */
  predicate HasPeriod(k: Kind, dates: seq<Date>, p: int) {
    exists d :: d in dates && PeriodIndex(k, d) == p
  }

  /** A period is satisfied exactly when some completion carries its number. */
  lemma SatisfiedIffHasPeriod(k: Kind, dates: seq<Date>, cursor: Date)
    ensures Satisfied(k, dates, cursor) <==> HasPeriod(k, dates, PeriodIndex(k, cursor))
  {
    if Satisfied(k, dates, cursor) {
      var d :| d in dates && InWindow(k, cursor, d);
      WindowIsPeriod(k, cursor, d);
    }
    if HasPeriod(k, dates, PeriodIndex(k, cursor)) {
      var d :| d in dates && PeriodIndex(k, d) == PeriodIndex(k, cursor);
      WindowIsPeriod(k, cursor, d);
    }
  }

  /** The `j`-th visited period is satisfied exactly when some completion lies
      `j` periods before the cursor's period. */
  lemma {:induction false} MarksAt(k: Kind, dates: seq<Date>, created: Date, cursor: Date, j: nat)
    requires j < |Marks(k, dates, created, cursor)|
    ensures Marks(k, dates, created, cursor)[j] == HasPeriod(k, dates, PeriodIndex(k, cursor) - j)
    decreases j, 1
  {
    if j == 0 {
      MarksAtHead(k, dates, created, cursor);
    } else {
      MarksAtLater(k, dates, created, cursor, j);
    }
  }

  /** Marks after the first: the stepped cursor's marks, one period further back. */
  lemma {:induction false} MarksAtLater(k: Kind, dates: seq<Date>, created: Date, cursor: Date, j: nat)
    requires 0 < j < |Marks(k, dates, created, cursor)|
    ensures Marks(k, dates, created, cursor)[j] == HasPeriod(k, dates, PeriodIndex(k, cursor) - j)
    decreases j, 0
  {
    var next := Step(k, cursor);
    MarksTail(k, dates, created, cursor, j);
    MarksAt(k, dates, created, next, j - 1);
    MarksAtStep(k, dates, created, cursor, j);
  }

  /** The first visited period's mark is whether a completion lies in the
      cursor's own period. */
  lemma MarksAtHead(k: Kind, dates: seq<Date>, created: Date, cursor: Date)
    requires 0 < |Marks(k, dates, created, cursor)|
    ensures Marks(k, dates, created, cursor)[0] == HasPeriod(k, dates, PeriodIndex(k, cursor) - 0)
  {
    MarksHead(k, dates, created, cursor);
    SatisfiedIffHasPeriod(k, dates, cursor);
  }

  /** The mark `j` periods back from the cursor is the mark `j - 1` periods
      back from the stepped cursor. */
  lemma MarksAtStep(k: Kind, dates: seq<Date>, created: Date, cursor: Date, j: nat)
    requires 0 < j < |Marks(k, dates, created, cursor)|
    requires j - 1 < |Marks(k, dates, created, Step(k, cursor))|
    requires Marks(k, dates, created, cursor)[j] == Marks(k, dates, created, Step(k, cursor))[j - 1]
    requires Marks(k, dates, created, Step(k, cursor))[j - 1] == HasPeriod(k, dates, PeriodIndex(k, Step(k, cursor)) - (j - 1))
    ensures Marks(k, dates, created, cursor)[j] == HasPeriod(k, dates, PeriodIndex(k, cursor) - j)
  {
    assert PeriodIndex(k, Step(k, cursor)) - (j - 1) == PeriodIndex(k, cursor) - j;
  }

  /** The first visited period is the cursor's own. */
  lemma MarksHead(k: Kind, dates: seq<Date>, created: Date, cursor: Date)
    requires 0 < |Marks(k, dates, created, cursor)|
    ensures Marks(k, dates, created, cursor)[0] == Satisfied(k, dates, cursor)
  {
  }

  /** The periods after the first are those visited from the stepped cursor. */
  lemma MarksTail(k: Kind, dates: seq<Date>, created: Date, cursor: Date, j: nat)
    requires 0 < j < |Marks(k, dates, created, cursor)|
    ensures j - 1 < |Marks(k, dates, created, Step(k, cursor))|
    ensures Marks(k, dates, created, cursor)[j] == Marks(k, dates, created, Step(k, cursor))[j - 1]
  {
    MarksCons(k, dates, created, cursor);
  }

  /** From a cursor not before the creation date, the loops visit the cursor's
      own period and then those from the stepped cursor. */
  lemma MarksCons(k: Kind, dates: seq<Date>, created: Date, cursor: Date)
    requires Le(created, cursor)
    ensures Marks(k, dates, created, cursor) == [Satisfied(k, dates, cursor)] + Marks(k, dates, created, Step(k, cursor))
  {
  }

  /** A creation date at least `n` maximal steps before the cursor leaves more
      than `n` periods to visit. */
  lemma {:induction false} MarksLength(k: Kind, dates: seq<Date>, created: Date, cursor: Date, n: nat)
    requires Ordinal(created) + MaxStep(k) * n <= Ordinal(cursor)
    ensures |Marks(k, dates, created, cursor)| > n
    decreases n
  {
    LeIffOrdinal(created, cursor);
    if n > 0 {
      var next := Step(k, cursor);
      assert MaxStep(k) * n == MaxStep(k) * (n - 1) + MaxStep(k);
      MarksLength(k, dates, created, next, n - 1);
      assert Marks(k, dates, created, cursor) == [Satisfied(k, dates, cursor)] + Marks(k, dates, created, next);
    }
  }

  /** Every visited period is at or after the creation date's period, so the
      number of visited periods is bounded by the distance between them. */
  lemma {:induction false} MarksBound(k: Kind, dates: seq<Date>, created: Date, cursor: Date)
    ensures |Marks(k, dates, created, cursor)| <= if Le(created, cursor) then PeriodIndex(k, cursor) - PeriodIndex(k, created) + 1 else 0
    decreases Ordinal(cursor) - Ordinal(created)
  {
    if Le(created, cursor) {
      LeIffOrdinal(created, cursor);
      var next := Step(k, cursor);
      MarksBound(k, dates, created, next);
      if Le(created, next) {
        WindowIsPeriod(k, next, created);
        PeriodMonotone(k, created, next);
      }
    }
  }

  /** Period numbers never decrease along the calendar. */
  lemma PeriodMonotone(k: Kind, a: Date, b: Date)
    requires Le(a, b)
    ensures PeriodIndex(k, a) <= PeriodIndex(k, b)
  {
    LeIffOrdinal(a, b);
  }
}
