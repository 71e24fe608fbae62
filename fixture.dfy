/** `create_test_fixture` (utils.py): five habits created a year ago with a
    track record of completions counted back from today, and the streaks that
    record produces, as the streak tests of tests.py expect them. */
module Fixture {

  import opened Wrappers
  import opened Dates
  import opened Periods
  import opened Runs
  import opened Habits

  /** `date.replace(year = ...)` raises `ValueError` for a February 29 moved
      into a common year. */
  datatype DateError = InvalidDate

  /** `today.replace(year = today.year - 1)`. */
  function YearBack(today: Date): (r: Option<Date>)
    ensures r.None? <==> today.month == 2 && today.day == 29
    ensures r.Some? ==> r.value == Ymd(today.year - 1, today.month, today.day)
  {
    if today.month == 2 && today.day == 29 then
      assert IsLeap(today.year);
      assert !IsLeap(today.year - 1);
      None
    else
      MakeDate(today.year - 1, today.month, today.day)
  }

  /** The same day a year earlier lies 365 or 366 days back. */
  lemma YearBackIsAYearBack(today: Date)
    requires YearBack(today).Some?
    ensures Ordinal(today) - 366 <= Ordinal(YearBack(today).value) <= Ordinal(today) - 365
  {
    YearStep(today.year - 1);
  }

  lemma DivMod12(x: int, q: int, r: int)
    requires x == 12 * q + r && 0 <= r < 12
    ensures x / 12 == q && x % 12 == r
  {
  }

  /** The first of the month `i` months before the month of `today`. */
  function MonthBack(today: Date, i: nat): (r: Date)
    ensures r.day == 1
    ensures PeriodIndex(Monthly, r) == PeriodIndex(Monthly, today) - i
  {
    var t := PeriodIndex(Monthly, today) - i;
    Ymd(t / 12, t % 12 + 1, 1)
  }

  /** Within a year back, `MonthBack` is the same month of this year while the
      month number stays positive, and otherwise the month `12 + month - i` of
      the previous year. */
  lemma {:induction false} MonthBackBranches(today: Date, i: nat)
    requires 1 <= i <= 12
    ensures today.month - i > 0 ==> MonthBack(today, i) == Ymd(today.year, today.month - i, 1)
    ensures today.month - i <= 0 ==> MonthBack(today, i) == Ymd(today.year - 1, 12 + today.month - i, 1)
  {
    var t := PeriodIndex(Monthly, today) - i;
    if today.month - i > 0 {
      DivMod12(t, today.year, today.month - 1 - i);
    } else {
      DivMod12(t, today.year - 1, 12 + today.month - 1 - i);
    }
  }

  /** The month formula of the fixture's monthly loop as written: month
      `12 - i + 2` of the previous year once `today.month - i` is not
      positive, and a `ValueError` when that month is 13. */
  function MonthBackAsWritten(today: Date, i: nat): (r: Option<Date>)
    ensures r.Some? ==> r.value.day == 1
  {
    if today.month - i > 0 then Some(Ymd(today.year, today.month - i, 1))
    else MakeDate(today.year - 1, 12 - i + 2, 1)
  }

  /** The written formula fails in January (`i == 1` gives month 13) and gives
      the right month only while `i` is below the current month or in
      February; from March on, the months before the new year come out one
      month early. */
  lemma {:induction false} MonthBackAsWrittenAgrees(today: Date, i: nat)
    requires 1 <= i <= 12
    ensures MonthBackAsWritten(today, i).None? <==> today.month == 1 && i == 1
    ensures MonthBackAsWritten(today, i) == Some(MonthBack(today, i)) <==> i < today.month || today.month == 2
  {
    MonthBackBranches(today, i);
  }

  /** The date of the `i`-th completion back: `today - timedelta(days = i)`,
      `today - timedelta(weeks = i)`, or the first of the month `i` months
      back. It lies exactly `i` periods before today's. */
  function Back(k: Kind, today: Date, i: nat): (r: Date)
    ensures PeriodIndex(k, r) == PeriodIndex(k, today) - i
  {
    match k
    case Daily => SubDays(today, i)
    case Weekly =>
      var x := Ordinal(today) + 6;
      DivMod7(x - 7 * i, x / 7 - i, x % 7);
      SubDays(today, 7 * i)
    case Monthly => MonthBack(today, i)
  }

  /** What a loop `for i in range(1, n + 1)` collects when it records `g(i)`
      for every `i` not in `skip`, in loop order. */
  function Recorded<T>(g: nat -> T, n: nat, skip: set<nat>): (xs: seq<T>)
    ensures |xs| <= n
  {
    if n == 0 then [] else Recorded(g, n - 1, skip) + (if n in skip then [] else [g(n)])
  }

  /** When the `i`-th record has key `t - i`, the keys recorded are exactly
      `t - j` for the `j` in `1..n` outside `skip`. */
  lemma {:induction false} RecordedKeys<T>(g: nat -> T, key: T -> int, t: int, n: nat, skip: set<nat>, j: nat)
    requires forall i: nat :: 1 <= i <= n ==> key(g(i)) == t - i
    ensures (exists x :: x in Recorded(g, n, skip) && key(x) == t - j) <==> 1 <= j <= n && j !in skip
  {
    if n > 0 {
      var rest := Recorded(g, n - 1, skip);
      var xs := Recorded(g, n, skip);
      RecordedKeys(g, key, t, n - 1, skip, j);
      if n !in skip && j == n {
        assert g(n) in xs;
      }
      if exists x :: x in rest && key(x) == t - j {
        var x :| x in rest && key(x) == t - j;
        assert x in xs;
      }
      if exists x :: x in xs && key(x) == t - j {
        var x :| x in xs && key(x) == t - j;
        if x !in rest {
          assert n !in skip && x == g(n);
        }
      }
    }
  }

  /** The dates one completion loop of the fixture records: `Back(k, today, i)`
      for `i` in `1..n`, skipping the numbers in `skip`. */
  function BackDates(k: Kind, today: Date, n: nat, skip: set<nat>): seq<Date> {
    Recorded(BackOf(k, today), n, skip)
  }

  /** `Back(k, today, _)`: the date a loop of period kind `k` records at each turn. */
  function BackOf(k: Kind, today: Date): nat -> Date {
    (i: nat) => Back(k, today, i)
  }

  /** The periods such a loop covers are exactly those `1..n` back, minus the
      skipped ones. */
  lemma {:induction false} BackDatesHasPeriod(k: Kind, today: Date, n: nat, skip: set<nat>, j: nat)
    ensures HasPeriod(k, BackDates(k, today, n, skip), PeriodIndex(k, today) - j) <==> 1 <= j <= n && j !in skip
  {
    var g := BackOf(k, today);
    var key := (d: Date) => PeriodIndex(k, d);
    var t := PeriodIndex(k, today);
    forall i: nat | 1 <= i <= n
      ensures key(g(i)) == t - i
    {
    }
    RecordedKeys(g, key, t, n, skip, j);
    var ds := Recorded(g, n, skip);
    if HasPeriod(k, ds, t - j) {
      var d :| d in ds && PeriodIndex(k, d) == t - j;
      assert key(d) == t - j;
    }
  }

  /** The completions `HabitCompletion(habit_id = id, created_date = d)` for
      each `d` of `ds`, in order. */
  function Stamps(id: nat, ds: seq<Date>): (cs: seq<Completion>)
    ensures |cs| == |ds|
    ensures forall c :: c in cs ==> c.habitId == id
  {
    if |ds| == 0 then [] else Stamps(id, ds[..|ds| - 1]) + [Completion(id, ds[|ds| - 1])]
  }

  /** Stamped dates are the habit's own dates and no other habit's. */
  lemma {:induction false} StampsDates(id: nat, ds: seq<Date>, other: nat)
    ensures DatesOf(Stamps(id, ds), other) == if other == id then ds else []
  {
    if |ds| > 0 {
      var cs := Stamps(id, ds);
      StampsDates(id, ds[..|ds| - 1], other);
      assert cs[..|cs| - 1] == Stamps(id, ds[..|ds| - 1]);
      DatesOfLast(cs, other);
      assert ds[..|ds| - 1] + [ds[|ds| - 1]] == ds;
    }
  }

  /** One of the five habits: its name, period, the length of its completion
      loop, the loop numbers it skips, and its star. */
  datatype Plan = Plan(name: string, kind: Kind, count: nat, skip: set<nat>, starred: bool)

  function Plans(): seq<Plan> {
    [ Plan("Drink enough water", Daily, 28, {}, false),
      Plan("Work out", Daily, 28, {7, 22}, false),
      Plan("Wash clothes", Weekly, 4, {}, false),
      Plan("Tidy the house", Weekly, 4, {2}, false),
      Plan("Visit parents", Monthly, 5, {5}, true) ]
  }

  /** The row the fixture inserts for a plan. */
  function PlanHabit(id: nat, p: Plan, userId: int, created: Date): (h: Habit)
    ensures h.id == id && h.created == created
  {
    Habit(id, p.name, userId, created, Some(KindName(p.kind)), p.starred)
  }

  /** The rows after inserting one habit per plan, under the ids from `n0` on. */
  function FixtureRows(habits: map<nat, Habit>, n0: nat, ps: seq<Plan>, userId: int, created: Date): map<nat, Habit>
  {
    if |ps| == 0 then habits
    else
      var m := |ps| - 1;
      FixtureRows(habits, n0, ps[..m], userId, created)[n0 + m := PlanHabit(n0 + m, ps[m], userId, created)]
  }

  /** The fixture's rows hold each plan under its own id and leave every other
      row alone. */
  lemma {:induction false} FixtureRowsAt(habits: map<nat, Habit>, n0: nat, ps: seq<Plan>, userId: int, created: Date, id: nat)
    ensures id in FixtureRows(habits, n0, ps, userId, created) <==> id in habits || n0 <= id < n0 + |ps|
    ensures n0 <= id < n0 + |ps| ==> FixtureRows(habits, n0, ps, userId, created)[id] == PlanHabit(id, ps[id - n0], userId, created)
    ensures id in habits && !(n0 <= id < n0 + |ps|) ==> FixtureRows(habits, n0, ps, userId, created)[id] == habits[id]
  {
    if |ps| > 0 {
      var m := |ps| - 1;
      FixtureRowsAt(habits, n0, ps[..m], userId, created, id);
      if n0 <= id < n0 + m {
        assert ps[..m][id - n0] == ps[id - n0];
      }
    }
  }

  /** The dates of each plan's completion loop, plan by plan. */
  function PlanDates(ps: seq<Plan>, today: Date): (dss: seq<seq<Date>>)
    ensures |dss| == |ps|
  {
    seq(|ps|, k requires 0 <= k < |ps| => BackDates(ps[k].kind, today, ps[k].count, ps[k].skip))
  }

  /** The completions of the habits `n0`, `n0 + 1`, ..., the `k`-th stamped
      with the dates `dss[k]`, one habit after another. */
  function FixtureCompletions(n0: nat, dss: seq<seq<Date>>): seq<Completion>
  {
    if |dss| == 0 then []
    else
      var m := |dss| - 1;
      FixtureCompletions(n0, dss[..m]) + Stamps(n0 + m, dss[m])
  }

  /** The completions of one more plan's loop extend those of the plans
      before it. */
  lemma {:induction false} StampPlansStep(c0: seq<Completion>, n0: nat, ps: seq<Plan>, today: Date, i: nat)
    requires i < |ps|
    ensures c0 + FixtureCompletions(n0, PlanDates(ps, today)[..i]) + Stamps(n0 + i, BackDates(ps[i].kind, today, ps[i].count, ps[i].skip))
      == c0 + FixtureCompletions(n0, PlanDates(ps, today)[..i + 1])
  {
    FixtureCompletionsStep(c0, n0, PlanDates(ps, today), i);
  }

  /** The completions of the first `i + 1` habits extend those of the first
      `i` by habit `n0 + i`'s. */
  lemma {:induction false} FixtureCompletionsStep(c0: seq<Completion>, n0: nat, dss: seq<seq<Date>>, i: nat)
    requires i < |dss|
    ensures c0 + FixtureCompletions(n0, dss[..i]) + Stamps(n0 + i, dss[i]) == c0 + FixtureCompletions(n0, dss[..i + 1])
  {
    assert dss[..i + 1][..i] == dss[..i];
    var before := FixtureCompletions(n0, dss[..i]);
    var added := Stamps(n0 + i, dss[i]);
    assert c0 + (before + added) == c0 + before + added;
  }

  /** Stamps of habit `j` after earlier completions: habit `j`'s dates become
      the stamped ones when it had none, and other habits keep theirs. */
  lemma {:induction false} StampsAfter(a: seq<Completion>, j: nat, ds: seq<Date>, id: nat)
    requires j == id ==> DatesOf(a, id) == []
    ensures DatesOf(a + Stamps(j, ds), id) == if j == id then ds else DatesOf(a, id)
  {
    DatesOfAppend(a, Stamps(j, ds), id);
    StampsDates(j, ds, id);
    if j == id {
      assert [] + ds == ds;
    } else {
      assert DatesOf(a, id) + [] == DatesOf(a, id);
    }
  }

  /** Each fixture habit's dates are its own list, and other ids get none. */
  lemma {:induction false} FixtureDates(n0: nat, dss: seq<seq<Date>>, id: nat)
    ensures DatesOf(FixtureCompletions(n0, dss), id) == if n0 <= id < n0 + |dss| then dss[id - n0] else []
  {
    if |dss| > 0 {
      var m := |dss| - 1;
      var init := dss[..m];
      var before := FixtureCompletions(n0, init);
      FixtureDates(n0, init, id);
      StampsAfter(before, n0 + m, dss[m], id);
      if n0 <= id < n0 + m {
        assert init[id - n0] == dss[id - n0];
      }
    }
  }

  /** Stamping one more date appends one completion. */
  lemma {:induction false} StampsSnoc(id: nat, ds: seq<Date>, d: Date)
    ensures Stamps(id, ds + [d]) == Stamps(id, ds) + [Completion(id, d)]
  {
    assert (ds + [d])[..|ds|] == ds;
  }

  /** One more turn of a completion loop adds the `i`-th completion unless
      `i` is skipped. */
  lemma {:induction false} StampStep(c0: seq<Completion>, id: nat, g: nat -> Date, i: nat, skip: set<nat>)
    requires i >= 1
    ensures c0 + Stamps(id, Recorded(g, i, skip)) ==
      c0 + Stamps(id, Recorded(g, i - 1, skip)) + (if i in skip then [] else [Completion(id, g(i))])
  {
    var ds := Recorded(g, i - 1, skip);
    if i in skip {
      assert Recorded(g, i, skip) == ds;
      assert c0 + Stamps(id, ds) + [] == c0 + Stamps(id, ds);
    } else {
      assert Recorded(g, i, skip) == ds + [g(i)];
      StampsSnoc(id, ds, g(i));
    }
  }

  /** One completion loop of the fixture for habit `id`: for `i` from 1 to
      `n`, unless `i` is skipped, records a completion dated `g(i)`. */
  method StampLoop(store: HabitStore, id: nat, g: nat -> Date, n: nat, skip: set<nat>)
    requires store.Valid() && id in store.habits
    modifies store
    ensures store.Valid()
    ensures store.completions == old(store.completions) + Stamps(id, Recorded(g, n, skip))
    ensures store.habits == old(store.habits) && store.nextId == old(store.nextId)
  {
    var i := 1;
    while i <= n
      invariant 1 <= i <= n + 1
      invariant store.Valid() && id in store.habits
      invariant store.habits == old(store.habits) && store.nextId == old(store.nextId)
      invariant store.completions == old(store.completions) + Stamps(id, Recorded(g, i - 1, skip))
    {
      if i !in skip {
        var _ := store.Complete(store.habits[id], g(i));
      }
      StampStep(old(store.completions), id, g, i, skip);
      i := i + 1;
    }
  }

  /** `create_test_fixture(user_id)` on `today`: `ValueError` on February 29
      before anything is written; otherwise the five habits under the next
      five ids, then their completions. */
  method CreateTestFixture(store: HabitStore, userId: int, today: Date) returns (r: Result<(), DateError>)
    requires store.Valid()
    modifies store
    ensures store.Valid()
    ensures r.Err? <==> today.month == 2 && today.day == 29
    ensures r.Err? ==> store.habits == old(store.habits) && store.completions == old(store.completions) && store.nextId == old(store.nextId)
    ensures r.Ok? ==> store.nextId == old(store.nextId) + 5
    ensures r.Ok? ==> store.habits == FixtureRows(old(store.habits), old(store.nextId), Plans(), userId, YearBack(today).value)
    ensures r.Ok? ==> store.completions == old(store.completions) + FixtureCompletions(old(store.nextId), PlanDates(Plans(), today))
  {
    var created := YearBack(today);
    if created.None? {
      return Err(InvalidDate);
    }
    var ps := Plans();
    var n0 := InsertPlans(store, ps, userId, created.value);
    forall id | n0 <= id < n0 + |ps|
      ensures id in store.habits
    {
      FixtureRowsAt(old(store.habits), n0, ps, userId, created.value, id);
    }
    StampPlans(store, n0, ps, today);
    r := Ok(());
  }

  /** The `add_all` and first commit of the fixture: one habit per plan, in
      order, under the next serial ids. */
  method InsertPlans(store: HabitStore, ps: seq<Plan>, userId: int, created: Date) returns (n0: nat)
    requires store.Valid()
    modifies store
    ensures store.Valid()
    ensures n0 == old(store.nextId) && store.nextId == n0 + |ps|
    ensures store.habits == FixtureRows(old(store.habits), n0, ps, userId, created)
    ensures store.completions == old(store.completions)
  {
    n0 := store.nextId;
    var i := 0;
    while i < |ps|
      invariant i <= |ps|
      invariant store.Valid() && store.nextId == n0 + i
      invariant store.habits == FixtureRows(old(store.habits), n0, ps[..i], userId, created)
      invariant store.completions == old(store.completions)
    {
      var p := ps[i];
      var _ := store.Add(p.name, userId, created, Some(KindName(p.kind)), p.starred);
      assert ps[..i + 1][..i] == ps[..i];
      i := i + 1;
    }
    assert ps[..i] == ps;
  }

  /** The completion loops of the fixture, one per plan and in plan order, for
      the habits `n0`, `n0 + 1`, ... */
  method StampPlans(store: HabitStore, n0: nat, ps: seq<Plan>, today: Date)
    requires store.Valid()
    requires forall id :: n0 <= id < n0 + |ps| ==> id in store.habits
    modifies store
    ensures store.Valid()
    ensures store.completions == old(store.completions) + FixtureCompletions(n0, PlanDates(ps, today))
    ensures store.habits == old(store.habits) && store.nextId == old(store.nextId)
  {
    var i := 0;
    while i < |ps|
      invariant i <= |ps|
      invariant store.Valid()
      invariant store.habits == old(store.habits) && store.nextId == old(store.nextId)
      invariant store.completions == old(store.completions) + FixtureCompletions(n0, PlanDates(ps, today)[..i])
    {
      var p := ps[i];
      StampLoop(store, n0 + i, BackOf(p.kind, today), p.count, p.skip);
      StampPlansStep(old(store.completions), n0, ps, today, i);
      i := i + 1;
    }
    assert PlanDates(ps, today)[..i] == PlanDates(ps, today);
  }

  /** Runs in a sequence whose true places are `1..n` apart from the gaps `g1`
      and `g2` (equal for one gap, `n + 1` for none), followed by at least one
      false: the current run stops at the first gap, and the longest is the
      longest of the three blocks between the gaps. */
  lemma {:induction false} RunsBetweenGaps(s: seq<bool>, n: nat, g1: nat, g2: nat)
    requires 1 <= g1 <= g2 <= n + 1 < |s|
    requires forall j :: 0 <= j < |s| ==> (s[j] <==> 1 <= j <= n && j != g1 && j != g2)
    ensures CurrentRun(s) == g1 - 1
    ensures LongestRun(s) == Max(Max(g1 - 1, g2 - g1 - 1), n - g2)
  {
    CurrentRunStops(s, g1);
    var m := Max(Max(g1 - 1, g2 - g1 - 1), n - g2);
    var a: nat := if m == g1 - 1 then 1 else if m == g2 - g1 - 1 then g1 + 1 else g2 + 1;
    assert RunAt(s, a, m);
    forall i: nat | i + m + 1 <= |s|
      ensures FalseWithin(s, i, m)
    {
      if i == 0 {
        assert !s[0];
      } else if i <= g1 {
        assert !s[g1];
      } else if i <= g2 {
        assert !s[g2];
      } else if i <= n + 1 {
        assert !s[n + 1];
      } else {
        assert !s[i];
      }
    }
    LongestRunExact(s, a, m);
  }

  /** The current and longest streak of a habit created on `created` whose
      completions are those of one loop of `n` turns, skipping `skip`. */
  function LoopRuns(k: Kind, n: nat, skip: set<nat>, created: Date, today: Date): (nat, nat) {
    var ms := Marks(k, BackDates(k, today, n, skip), created, today);
    (CurrentRun(ms), LongestRun(ms))
  }

  /** The marks left by a loop of `n` turns skipping `skip`, followed by at
      least one unmarked period: turn `j` is marked exactly when it is not
      skipped, and the current period is not. */
  predicate Turns(s: seq<bool>, n: nat, skip: set<nat>) {
    n + 1 < |s| && forall j :: 0 <= j < |s| ==> (s[j] <==> 1 <= j <= n && j !in skip)
  }

  /** Runs of such marks when at most two turns, `g1` and `g2`, are skipped. */
  lemma {:induction false} SkippedRuns(s: seq<bool>, n: nat, skip: set<nat>, g1: nat, g2: nat)
    requires Turns(s, n, skip) && 1 <= g1 <= g2 <= n + 1
    requires forall j: nat :: 1 <= j <= n ==> (j in skip <==> j == g1 || j == g2)
    ensures CurrentRun(s) == g1 - 1
    ensures LongestRun(s) == Max(Max(g1 - 1, g2 - g1 - 1), n - g2)
  {
    forall j | 0 <= j < |s|
      ensures s[j] <==> 1 <= j <= n && j != g1 && j != g2
    {
    }
    RunsBetweenGaps(s, n, g1, g2);
  }

  /** Streaks of a habit whose completions come from one loop of the fixture,
      created long enough ago for every period of the loop and one more to be
      visited: the current streak stops at the first skipped turn and the
      longest is the longest block between skipped turns. */
  lemma {:induction false} PlanStreaks(k: Kind, created: Date, today: Date, n: nat, skip: set<nat>, g1: nat, g2: nat, current: nat, longest: nat)
    requires Ordinal(created) + MaxStep(k) * (n + 1) <= Ordinal(today)
    requires 1 <= g1 <= g2 <= n + 1
    requires forall j: nat :: 1 <= j <= n ==> (j in skip <==> j == g1 || j == g2)
    requires current == g1 - 1 && longest == Max(Max(g1 - 1, g2 - g1 - 1), n - g2)
    ensures LoopRuns(k, n, skip, created, today) == (current, longest)
  {
    var ms := Marks(k, BackDates(k, today, n, skip), created, today);
    assert CurrentRun(ms) == current && LongestRun(ms) == longest by {
      LoopMarks(k, created, today, n, skip);
      SkippedRuns(ms, n, skip, g1, g2);
    }
  }

  /** The marks of a habit created at least a year ago, whose completions
      come from one loop: a turn of the loop is marked unless skipped, and the
      current period and the one after the last turn are not. */
  lemma {:induction false} LoopMarks(k: Kind, created: Date, today: Date, n: nat, skip: set<nat>)
    requires Ordinal(created) + MaxStep(k) * (n + 1) <= Ordinal(today)
    ensures Turns(Marks(k, BackDates(k, today, n, skip), created, today), n, skip)
  {
    var ms := Marks(k, BackDates(k, today, n, skip), created, today);
    LoopLength(k, created, today, n, skip);
    forall j | 0 <= j < |ms|
      ensures ms[j] <==> 1 <= j <= n && j !in skip
    {
      LoopMark(k, created, today, n, skip, j);
    }
  }

  /** Such a habit visits more periods than the loop has turns. */
  lemma {:induction false} LoopLength(k: Kind, created: Date, today: Date, n: nat, skip: set<nat>)
    requires Ordinal(created) + MaxStep(k) * (n + 1) <= Ordinal(today)
    ensures n + 1 < |Marks(k, BackDates(k, today, n, skip), created, today)|
  {
    MarksLength(k, BackDates(k, today, n, skip), created, today, n + 1);
  }

  /** The `j`-th mark of such a habit: set exactly for the turns of the loop
      that were not skipped. */
  lemma {:induction false} LoopMark(k: Kind, created: Date, today: Date, n: nat, skip: set<nat>, j: nat)
    requires j < |Marks(k, BackDates(k, today, n, skip), created, today)|
    ensures Marks(k, BackDates(k, today, n, skip), created, today)[j] <==> 1 <= j <= n && j !in skip
  {
    MarksAt(k, BackDates(k, today, n, skip), created, today, j);
    BackDatesHasPeriod(k, today, n, skip, j);
  }

  /** The streaks each loop of the fixture leaves, for a habit created at
      least a year ago: 28 days in a row, ... */
  lemma DrinkWaterRuns(created: Date, today: Date)
    requires Ordinal(created) + 365 <= Ordinal(today)
    ensures LoopRuns(Daily, 28, {}, created, today) == (28, 28)
  {
    PlanStreaks(Daily, created, today, 28, {}, 29, 29, 28, 28);
  }

  /** ... 28 days missing the 7th and the 22nd back, ... */
  lemma WorkOutRuns(created: Date, today: Date)
    requires Ordinal(created) + 365 <= Ordinal(today)
    ensures LoopRuns(Daily, 28, {7, 22}, created, today) == (6, 14)
  {
    PlanStreaks(Daily, created, today, 28, {7, 22}, 7, 22, 6, 14);
  }

  /** ... 4 weeks in a row, ... */
  lemma WashClothesRuns(created: Date, today: Date)
    requires Ordinal(created) + 365 <= Ordinal(today)
    ensures LoopRuns(Weekly, 4, {}, created, today) == (4, 4)
  {
    PlanStreaks(Weekly, created, today, 4, {}, 5, 5, 4, 4);
  }

  /** ... 4 weeks missing the 2nd back, ... */
  lemma TidyHouseRuns(created: Date, today: Date)
    requires Ordinal(created) + 365 <= Ordinal(today)
    ensures LoopRuns(Weekly, 4, {2}, created, today) == (1, 2)
  {
    PlanStreaks(Weekly, created, today, 4, {2}, 2, 2, 1, 2);
  }

  /** ... and 5 months missing the 5th back, which is 4 in a row. */
  lemma VisitParentsRuns(created: Date, today: Date)
    requires Ordinal(created) + 365 <= Ordinal(today)
    ensures LoopRuns(Monthly, 5, {5}, created, today) == (4, 4)
  {
    assert BackDates(Monthly, today, 5, {5}) == BackDates(Monthly, today, 4, {5});
    PlanStreaks(Monthly, created, today, 4, {5}, 5, 5, 4, 4);
  }

  /** With no completions every streak is 0, whatever the period. */
  lemma NoCompletionRuns(k: Kind, created: Date, today: Date)
    requires Ordinal(created) + 365 <= Ordinal(today)
    ensures LoopRuns(k, 0, {}, created, today) == (0, 0)
  {
    PlanStreaks(k, created, today, 0, {}, 1, 1, 0, 0);
  }

  /** Five weeks back missing the 2nd: the current streak is 1 and the
      longest 3. */
  lemma WeeklyGapRuns(created: Date, today: Date)
    requires Ordinal(created) + 365 <= Ordinal(today)
    ensures LoopRuns(Weekly, 5, {2}, created, today) == (1, 3)
  {
    PlanStreaks(Weekly, created, today, 5, {2}, 2, 2, 1, 3);
  }

  /** The first days of the five months before this one: both streaks are 5. */
  lemma MonthlyRuns(created: Date, today: Date)
    requires Ordinal(created) + 366 <= Ordinal(today)
    ensures LoopRuns(Monthly, 5, {}, created, today) == (5, 5)
  {
    PlanStreaks(Monthly, created, today, 5, {}, 6, 6, 5, 5);
  }

  /** After earlier completions of older habits only, a fixture habit's dates
      are its own list. */
  lemma {:induction false} FixtureHabitDates(cs: seq<Completion>, n0: nat, dss: seq<seq<Date>>, i: nat)
    requires i < |dss|
    requires forall c :: c in cs ==> c.habitId < n0
    ensures DatesOf(cs + FixtureCompletions(n0, dss), n0 + i) == dss[i]
  {
    var fc := FixtureCompletions(n0, dss);
    var id := n0 + i;
    assert DatesOf(cs, id) == [] by {
      DatesOfNone(cs, id);
    }
    assert DatesOf(fc, id) == dss[i] by {
      FixtureDates(n0, dss, id);
    }
    DatesOfAppend(cs, fc, id);
    assert [] + dss[i] == dss[i];
  }

  /** ... that is, the dates of its plan's completion loop. */
  lemma {:induction false} PlanHabitDates(cs: seq<Completion>, n0: nat, ps: seq<Plan>, today: Date, i: nat)
    requires i < |ps|
    requires forall c :: c in cs ==> c.habitId < n0
    ensures DatesOf(cs + FixtureCompletions(n0, PlanDates(ps, today)), n0 + i) == BackDates(ps[i].kind, today, ps[i].count, ps[i].skip)
  {
    FixtureHabitDates(cs, n0, PlanDates(ps, today), i);
  }

  /** The current and longest streak of habit `h` over the completions `cs`:
      what `calculate_streak` and `calculate_longest_streak` return for it. */
  function HabitRuns(h: Habit, cs: seq<Completion>, k: Kind, today: Date): (nat, nat) {
    var ms := HabitMarks(h, cs, k, today);
    (CurrentRun(ms), LongestRun(ms))
  }

  /** A fixture habit whose recorded dates are those of its plan's loop has the
      streaks of that loop. */
  lemma {:induction false} PlanHabitRuns(cs: seq<Completion>, id: nat, p: Plan, userId: int, created: Date, today: Date)
    requires DatesOf(cs, id) == BackDates(p.kind, today, p.count, p.skip)
    ensures HabitRuns(PlanHabit(id, p, userId, created), cs, p.kind, today) == LoopRuns(p.kind, p.count, p.skip, created, today)
  {
  }

  /** The current and longest streak of the `i`-th fixture habit, over its
      own completions among `cs` and the fixture's. */
  function FixtureRuns(cs: seq<Completion>, n0: nat, ps: seq<Plan>, userId: int, created: Date, today: Date, i: nat): (nat, nat)
    requires i < |ps|
  {
    HabitRuns(PlanHabit(n0 + i, ps[i], userId, created), cs + FixtureCompletions(n0, PlanDates(ps, today)), ps[i].kind, today)
  }

  /** A fixture habit's streaks are those of its own loop: completions of
      earlier habits do not count towards it. */
  lemma {:induction false} FixtureHabitRuns(cs: seq<Completion>, n0: nat, ps: seq<Plan>, userId: int, created: Date, today: Date, i: nat)
    requires i < |ps|
    requires forall c :: c in cs ==> c.habitId < n0
    ensures FixtureRuns(cs, n0, ps, userId, created, today, i) == LoopRuns(ps[i].kind, ps[i].count, ps[i].skip, created, today)
  {
    var all := cs + FixtureCompletions(n0, PlanDates(ps, today));
    var p := ps[i];
    assert DatesOf(all, n0 + i) == BackDates(p.kind, today, p.count, p.skip) by {
      PlanHabitDates(cs, n0, ps, today, i);
    }
    PlanHabitRuns(all, n0 + i, p, userId, created, today);
  }

  /** Right after the fixture, the current and longest streaks of its five
      habits are 28/28, 6/14, 4/4, 1/2 and 4/4. */
  lemma FixtureStreaks(cs: seq<Completion>, n0: nat, userId: int, today: Date)
    requires YearBack(today).Some?
    requires forall c :: c in cs ==> c.habitId < n0
    ensures FixtureRuns(cs, n0, Plans(), userId, YearBack(today).value, today, 0) == (28, 28)
    ensures FixtureRuns(cs, n0, Plans(), userId, YearBack(today).value, today, 1) == (6, 14)
    ensures FixtureRuns(cs, n0, Plans(), userId, YearBack(today).value, today, 2) == (4, 4)
    ensures FixtureRuns(cs, n0, Plans(), userId, YearBack(today).value, today, 3) == (1, 2)
    ensures FixtureRuns(cs, n0, Plans(), userId, YearBack(today).value, today, 4) == (4, 4)
  {
    YearBackIsAYearBack(today);
    var created := YearBack(today).value;
    DrinkWaterRuns(created, today);
    WorkOutRuns(created, today);
    WashClothesRuns(created, today);
    TidyHouseRuns(created, today);
    VisitParentsRuns(created, today);
    FixtureHabitRuns(cs, n0, Plans(), userId, created, today, 0);
    FixtureHabitRuns(cs, n0, Plans(), userId, created, today, 1);
    FixtureHabitRuns(cs, n0, Plans(), userId, created, today, 2);
    FixtureHabitRuns(cs, n0, Plans(), userId, created, today, 3);
    FixtureHabitRuns(cs, n0, Plans(), userId, created, today, 4);
  }
}
