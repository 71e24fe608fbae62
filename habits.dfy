/** The habit store of models/habit.py: the `habits` and `habit_completions`
    tables, the queries and updates on them, `check_completion` and the two
    streak loops. */
module Habits {

  import opened Wrappers
  import opened Dates
  import opened Periods
  import opened Runs
  import opened Texts

  /** A row of `habits`. A NULL `period` marks a draft whose period the user
      has not chosen yet. */
  datatype Habit = Habit(id: nat, name: string, userId: int, created: Date, period: Option<string>, starred: bool)

  /** A row of `habit_completions` (its own serial id plays no part). */
  datatype Completion = Completion(habitId: nat, date: Date)

  /** The exceptions the habit code can raise. `check_completion` on a period
      other than the three names leaves `stmt` unbound (`UnboundLocalError`);
      `int()` on an id that is not a number raises `ValueError`; a completion
      of a habit whose row is gone violates the foreign key of
      `habit_completions.habit_id`. */
  datatype Error = UnboundStatement | InvalidLiteral | ForeignKeyViolation

  predicate IsDraftOf(h: Habit, userId: int) {
    h.period.None? && h.userId == userId
  }

  /** The filter of `get_user_habits`: the user's habits, of the given period
      when `type` is a non-empty string (Python truthiness). */
  predicate Listed(h: Habit, userId: int, kind: Option<string>) {
    h.userId == userId && (kind.Some? && kind.value != "" ==> h.period == kind)
  }

  /** Completion dates recorded for habit `id`, in insertion order. */
  function DatesOf(cs: seq<Completion>, id: nat): (ds: seq<Date>)
    ensures |ds| <= |cs|
  {
    DatesUpTo(cs, id, |cs|)
  }
  /** The dates of habit `id` among the first `n` completions. */
  function DatesUpTo(cs: seq<Completion>, id: nat, n: nat): (ds: seq<Date>)
    requires n <= |cs|
    ensures |ds| <= n
  {
    if n == 0 then []
    else
      var c := cs[n - 1];
      var rest := DatesUpTo(cs, id, n - 1);
      if c.habitId == id then rest + [c.date] else rest
  }

  /** Only the first `n` completions decide `DatesUpTo(cs, id, n)`. */
  lemma {:induction false} DatesUpToPrefix(a: seq<Completion>, b: seq<Completion>, id: nat, n: nat)
    requires n <= |a| && n <= |b|
    requires forall j :: 0 <= j < n ==> a[j] == b[j]
    ensures DatesUpTo(a, id, n) == DatesUpTo(b, id, n)
  {
    if n > 0 {
      DatesUpToPrefix(a, b, id, n - 1);
    }
  }

  /** The last completion adds its date to those of the others when it is
      habit `id`'s. */
  lemma DatesOfLast(cs: seq<Completion>, id: nat)
    requires |cs| > 0
    ensures DatesOf(cs, id) == DatesOf(cs[..|cs| - 1], id) + (if cs[|cs| - 1].habitId == id then [cs[|cs| - 1].date] else [])
  {
    DatesUpToPrefix(cs, cs[..|cs| - 1], id, |cs| - 1);
  }

  /** Recording completion `c` adds its date to habit `id`'s when it is `id`'s. */
  lemma DatesOfSnoc(cs: seq<Completion>, c: Completion, id: nat)
    ensures DatesOf(cs + [c], id) == DatesOf(cs, id) + (if c.habitId == id then [c.date] else [])
  {
    DatesOfLast(cs + [c], id);
    assert (cs + [c])[..|cs|] == cs;
  }

  /** The dates of habit `id` are exactly those of its completions. */
  lemma {:induction false} DatesOfMembers(cs: seq<Completion>, id: nat)
    ensures forall d :: d in DatesOf(cs, id) <==> Completion(id, d) in cs
  {
    if |cs| > 0 {
      DatesOfLast(cs, id);
      DatesOfMembers(cs[..|cs| - 1], id);
      assert cs == cs[..|cs| - 1] + [cs[|cs| - 1]];
    }
  }

  /** The completions left after deleting those of habit `id`. */
  function Without(cs: seq<Completion>, id: nat): (r: seq<Completion>)
    ensures |r| <= |cs|
  {
    if |cs| == 0 then []
    else if cs[0].habitId == id then Without(cs[1..], id)
    else [cs[0]] + Without(cs[1..], id)
  }

  /** `delete` removes exactly the completions of the habit. */
  lemma {:induction false} WithoutMembers(cs: seq<Completion>, id: nat)
    ensures forall c :: c in Without(cs, id) <==> c in cs && c.habitId != id
  {
    if |cs| > 0 {
      WithoutMembers(cs[1..], id);
      assert cs == [cs[0]] + cs[1..];
    }
  }

  /** Deleting the completions of a habit twice is the same as once. */
  lemma {:induction false} WithoutIdempotent(cs: seq<Completion>, id: nat)
    ensures Without(Without(cs, id), id) == Without(cs, id)
  {
    if |cs| > 0 {
      WithoutIdempotent(cs[1..], id);
      if cs[0].habitId != id {
        var w := Without(cs[1..], id);
        assert ([cs[0]] + w)[1..] == w;
      }
    }
  }

  /** Deleting one habit's completions leaves every other habit's dates, in
      order, so its streaks are unchanged. */
  lemma {:induction false} WithoutKeepsOthers(cs: seq<Completion>, id: nat, other: nat)
    requires other != id
    ensures DatesOf(Without(cs, id), other) == DatesOf(cs, other)
  {
    if |cs| > 0 {
      WithoutKeepsOthers(cs[1..], id, other);
      DatesOfCons(cs[0], cs[1..], other);
      if cs[0].habitId != id {
        DatesOfCons(cs[0], Without(cs[1..], id), other);
      }
      assert cs == [cs[0]] + cs[1..];
    }
  }

  lemma {:induction false} DatesOfCons(c: Completion, cs: seq<Completion>, id: nat)
    ensures DatesOf([c] + cs, id) == (if c.habitId == id then [c.date] else []) + DatesOf(cs, id)
    decreases |cs|
  {
    if |cs| > 0 {
      var l := cs[|cs| - 1];
      var init := cs[..|cs| - 1];
      assert ([c] + cs)[..|cs|] == [c] + init;
      assert ([c] + cs)[|cs|] == l;
      DatesOfLast([c] + cs, id);
      DatesOfLast(cs, id);
      DatesOfCons(c, init, id);
    } else {
      assert [c] + cs == [c];
      assert [c][..0] == [];
      DatesOfLast([c], id);
    }
  }

  /** The dates of a habit in two batches of completions are those of the
      first batch followed by those of the second. */
  lemma {:induction false} DatesOfAppend(a: seq<Completion>, b: seq<Completion>, id: nat)
    ensures DatesOf(a + b, id) == DatesOf(a, id) + DatesOf(b, id)
    decreases |b|
  {
    if |b| == 0 {
      assert a + b == a;
    } else {
      var init := b[..|b| - 1];
      assert (a + b)[..|a + b| - 1] == a + init;
      DatesOfLast(a + b, id);
      DatesOfLast(b, id);
      DatesOfAppend(a, init, id);
    }
  }

  /** A habit none of the completions belongs to has no dates. */
  lemma {:induction false} DatesOfNone(cs: seq<Completion>, id: nat)
    requires forall c :: c in cs ==> c.habitId != id
    ensures DatesOf(cs, id) == []
  {
    if |cs| > 0 {
      assert forall c :: c in cs[..|cs| - 1] ==> c in cs;
      DatesOfLast(cs, id);
      DatesOfNone(cs[..|cs| - 1], id);
    }
  }

  /** `check_completion(today)`: whether a completion of `h` falls in the
      period of `today`; an error for a draft or an unknown period name. */
  function CheckCompletion(h: Habit, cs: seq<Completion>, today: Date): (r: Result<bool, Error>)
    ensures r.Err? <==> PeriodKind(h.period).None?
    ensures r.Err? ==> r.error == UnboundStatement
    ensures r.Ok? ==> (r.value <==>
      exists c :: c in cs && c.habitId == h.id && InWindow(PeriodKind(h.period).value, today, c.date))
  {
    match PeriodKind(h.period)
    case None => Err(UnboundStatement)
    case Some(k) =>
      var ok := Satisfied(k, DatesOf(cs, h.id), today);
      DatesOfMembers(cs, h.id);
      assert ok ==> exists c :: c in cs && c.habitId == h.id && InWindow(k, today, c.date) by {
        if ok {
          var d :| d in DatesOf(cs, h.id) && InWindow(k, today, d);
          assert Completion(h.id, d) in cs;
        }
      }
      assert (exists c :: c in cs && c.habitId == h.id && InWindow(k, today, c.date)) ==> ok by {
        if exists c :: c in cs && c.habitId == h.id && InWindow(k, today, c.date) {
          var c :| c in cs && c.habitId == h.id && InWindow(k, today, c.date);
          assert Completion(h.id, c.date) == c;
          assert c.date in DatesOf(cs, h.id);
        }
      }
      Ok(ok)
  }

  /** Completing a habit on a date makes `check_completion` on that date true. */
  lemma CompleteThenChecked(h: Habit, cs: seq<Completion>, d: Date)
    requires PeriodKind(h.period).Some?
    ensures CheckCompletion(h, cs + [Completion(h.id, d)], d) == Ok(true)
  {
    DatesOfSnoc(cs, Completion(h.id, d), h.id);
    CompletionSatisfies(PeriodKind(h.period).value, DatesOf(cs, h.id), d);
  }

  /** Recording any completion never undoes a satisfied check. */
  lemma CheckMonotone(h: Habit, cs: seq<Completion>, c: Completion, today: Date)
    requires CheckCompletion(h, cs, today) == Ok(true)
    ensures CheckCompletion(h, cs + [c], today) == Ok(true)
  {
    var k := PeriodKind(h.period).value;
    DatesOfSnoc(cs, c, h.id);
    if c.habitId == h.id {
      SatisfiedMonotone(k, DatesOf(cs, h.id), c.date, today);
    }
  }

  /** The satisfied/unsatisfied periods the streak loops of `h` visit from `today`. */
  function HabitMarks(h: Habit, cs: seq<Completion>, k: Kind, today: Date): seq<bool> {
    Marks(k, DatesOf(cs, h.id), h.created, today)
  }

  /** Both streaks read only `h`'s own completions: other habits' rows never
      change them. */
  lemma MarksOwnCompletions(h: Habit, cs: seq<Completion>, c: Completion, k: Kind, today: Date)
    requires c.habitId != h.id
    ensures HabitMarks(h, cs + [c], k, today) == HabitMarks(h, cs, k, today)
  {
    assert DatesOf(cs + [c], h.id) == DatesOf(cs, h.id) by {
      DatesOfSnoc(cs, c, h.id);
      assert DatesOf(cs, h.id) + [] == DatesOf(cs, h.id);
    }
  }

  /** The two tables. `nextId` is the serial the database would hand out next. */
  class HabitStore {
    var habits: map<nat, Habit>
    var completions: seq<Completion>
    var nextId: nat

    /** Every row is filed under its own id, ids stay below the serial, and
        completions refer to ids already handed out. */
    ghost predicate Valid()
      reads this
    {
      && Filed(habits, nextId)
      && forall c :: c in completions ==> c.habitId < nextId
    }

    constructor ()
      ensures Valid()
      ensures habits == map[] && completions == [] && nextId == 1
    {
      habits := map[];
      completions := [];
      nextId := 1;
    }

    /** `ses.add(Habit(...))` and a commit: a row with the next serial id. */
    method Add(name: string, userId: int, created: Date, period: Option<string>, starred: bool) returns (id: nat)
      requires Valid()
      modifies this
      ensures Valid()
      ensures id == old(nextId) && id !in old(habits)
      ensures habits == old(habits)[id := Habit(id, name, userId, created, period, starred)]
      ensures nextId == old(nextId) + 1 && completions == old(completions)
    {
      id := nextId;
      habits := habits[id := Habit(id, name, userId, created, period, starred)];
      nextId := nextId + 1;
    }

    /** `Habit.new`: inserts a draft (no period, not starred) dated `loadDay`,
        the day `created_date`'s default was fixed when the module was imported. */
    method New(name: string, userId: int, loadDay: Date) returns (id: nat)
      requires Valid()
      modifies this
      ensures Valid()
      ensures id == old(nextId) && id !in old(habits)
      ensures habits == old(habits)[id := Habit(id, name, userId, loadDay, None, false)]
      ensures nextId == old(nextId) + 1 && completions == old(completions)
    {
      id := Add(name, userId, loadDay, None, false);
    }

    /** `Habit.delete_unfinished`: deletes exactly the user's drafts. */
    method DeleteUnfinished(userId: int)
      requires Valid()
      modifies this
      ensures Valid()
      ensures forall id :: id in habits <==> id in old(habits) && !IsDraftOf(old(habits)[id], userId)
      ensures forall id :: id in habits ==> habits[id] == old(habits)[id]
      ensures completions == old(completions) && nextId == old(nextId)
    {
      habits := map id | id in habits && !IsDraftOf(habits[id], userId) :: habits[id];
    }

    /** `Habit.set_period`: gives every draft of the user the chosen period and
      leaves all other rows alone. */
    method SetPeriod(value: string, userId: int)
      requires Valid()
      modifies this
      ensures Valid()
      ensures habits.Keys == old(habits).Keys
      ensures forall id :: id in habits ==>
        habits[id] == (if IsDraftOf(old(habits)[id], userId) then old(habits)[id].(period := Some(value)) else old(habits)[id])
      ensures completions == old(completions) && nextId == old(nextId)
    {
      habits := map id | id in habits ::
        if IsDraftOf(habits[id], userId) then habits[id].(period := Some(value)) else habits[id];
    }

    /** `Habit.get_user_habits`: the listed habits, starred ones first. */
    method GetUserHabits(userId: int, kind: Option<string>) returns (r: seq<Habit>)
      ensures r == UserHabits(habits, nextId, userId, kind)
    {
      var starred: seq<Habit> := [];
      var plain: seq<Habit> := [];
      var id := 0;
      while id < nextId
        invariant id <= nextId
        invariant starred == Selected(habits, id, userId, kind, true)
        invariant plain == Selected(habits, id, userId, kind, false)
      {
        if id in habits && Listed(habits[id], userId, kind) {
          var h := habits[id];
          if h.starred {
            starred := starred + [h];
          } else {
            plain := plain + [h];
          }
        }
        id := id + 1;
      }
      r := starred + plain;
    }

    /** `Habit.get_user_habit`: `int(id)` (a `ValueError` when `id` is not a
        number), then the habit with that id when it belongs to the user,
        otherwise nothing (`.scalar()` gives None). */
    method GetUserHabit(userId: int, id: string) returns (r: Result<Option<Habit>, Error>)
      ensures r.Err? <==> ParseInt(id).None?
      ensures r.Err? ==> r.error == InvalidLiteral
      ensures r.Ok? ==> (r.value.Some? <==> ParseInt(id).value in habits && habits[ParseInt(id).value as nat].userId == userId)
      ensures r.Ok? && r.value.Some? ==> r.value.value == habits[ParseInt(id).value as nat]
    {
      var n := ParseInt(id);
      if n.None? {
        return Err(InvalidLiteral);
      }
      if n.value >= 0 && n.value as nat in habits && habits[n.value as nat].userId == userId {
        r := Ok(Some(habits[n.value as nat]));
      } else {
        r := Ok(None);
      }
    }

    /** `Habit.complete`: records a completion of `h` dated `stamp`; the
        foreign key refuses it when the habit's row is gone. */
    method Complete(h: Habit, stamp: Date) returns (r: Result<(), Error>)
      requires Valid()
      modifies this
      ensures Valid()
      ensures r.Err? <==> h.id !in old(habits)
      ensures r.Err? ==> r.error == ForeignKeyViolation && completions == old(completions)
      ensures r.Ok? ==> completions == old(completions) + [Completion(h.id, stamp)]
      ensures habits == old(habits) && nextId == old(nextId)
    {
      if h.id !in habits {
        return Err(ForeignKeyViolation);
      }
      completions := completions + [Completion(h.id, stamp)];
      r := Ok(());
    }

    /** `Habit.star`: flips the flag on the caller's copy and writes it to the
        stored row, if the row still exists. */
    method Star(h: Habit) returns (h': Habit)
      requires Valid()
      modifies this
      ensures Valid()
      ensures h' == h.(starred := !h.starred)
      ensures habits == Restarred(old(habits), h.id, h'.starred)
      ensures completions == old(completions) && nextId == old(nextId)
    {
      h' := h.(starred := !h.starred);
      if h.id in habits {
        habits := habits[h.id := habits[h.id].(starred := h'.starred)];
      }
    }

    /** `Habit.delete`: removes the habit's completions, then the habit. */
    method Delete(h: Habit)
      requires Valid()
      modifies this
      ensures Valid()
      ensures completions == Without(old(completions), h.id)
      ensures habits == old(habits) - {h.id}
      ensures nextId == old(nextId)
    {
      WithoutMembers(completions, h.id);
      completions := Without(completions, h.id);
      habits := habits - {h.id};
    }

    /** `Habit.calculate_streak`: walks back one period at a time from `today`
        while the cursor is not before the creation date, counting satisfied
        periods and stopping at the first unsatisfied one other than today's. */
    method CalculateStreak(h: Habit, today: Date) returns (r: Result<nat, Error>)
      ensures !Le(h.created, today) ==> r == Ok(0)
      ensures Le(h.created, today) && PeriodKind(h.period).None? ==> r == Err(UnboundStatement)
      ensures PeriodKind(h.period).Some? ==>
        r == Ok(CurrentRun(HabitMarks(h, completions, PeriodKind(h.period).value, today)))
    {
      ghost var kg := if PeriodKind(h.period).Some? then PeriodKind(h.period).value else Daily;
      ghost var ds := DatesOf(completions, h.id);
      ghost var ms := Marks(kg, ds, h.created, today);
      StreakFromIsCurrentRun(ms);
      var streak: nat := 0;
      var cursor := today;
      ghost var i: nat := 0;
      while Le(h.created, cursor)
        invariant MarksFrom(kg, ds, h.created, cursor, ms, i)
        invariant StreakFrom(ms, i, streak) == StreakFrom(ms, 0, 0)
        invariant i == 0 ==> cursor == today && streak == 0
        invariant i > 0 ==> PeriodKind(h.period) == Some(kg)
        decreases |ms| - i
      {
        var done := CheckCompletion(h, completions, cursor);
        if done.Err? {
          return Err(done.error);
        }
        var k := PeriodKind(h.period).value;
        assert k == kg;
        MarksFront(k, ds, h.created, cursor, ms, i);
        assert done.value == ms[i];
        ghost var streak0 := streak;
        if done.value {
          streak := streak + 1;
        } else if cursor != today {
          break;
        }
        StreakFromStep(ms, i, streak0, streak);
        cursor := Step(k, cursor);
        i := i + 1;
      }
      if !Le(h.created, cursor) {
        MarksDone(kg, ds, h.created, cursor, ms, i);
      }
      assert PeriodKind(h.period).Some? ==> ms == HabitMarks(h, completions, PeriodKind(h.period).value, today);
      return Ok(streak);
    }

    /** `Habit.calculate_longest_streak`: walks back over every period from
        `today` down to the creation date and keeps the longest run of
        satisfied periods. */
    method CalculateLongestStreak(h: Habit, today: Date) returns (r: Result<nat, Error>)
      ensures !Le(h.created, today) ==> r == Ok(0)
      ensures Le(h.created, today) && PeriodKind(h.period).None? ==> r == Err(UnboundStatement)
      ensures PeriodKind(h.period).Some? ==>
        r == Ok(LongestRun(HabitMarks(h, completions, PeriodKind(h.period).value, today)))
    {
      ghost var kg := if PeriodKind(h.period).Some? then PeriodKind(h.period).value else Daily;
      ghost var ds := DatesOf(completions, h.id);
      ghost var ms := Marks(kg, ds, h.created, today);
      LongestFromIsLongestRun(ms);
      var streak: nat := 0;
      var best: nat := 0;
      var cursor := today;
      ghost var i: nat := 0;
      while Le(h.created, cursor)
        invariant MarksFrom(kg, ds, h.created, cursor, ms, i)
        invariant LongestFrom(ms, i, streak, best) == LongestFrom(ms, 0, 0, 0)
        invariant i == 0 ==> cursor == today && streak == 0 && best == 0
        invariant i > 0 ==> PeriodKind(h.period) == Some(kg)
        decreases |ms| - i
      {
        var done := CheckCompletion(h, completions, cursor);
        if done.Err? {
          return Err(done.error);
        }
        var k := PeriodKind(h.period).value;
        assert k == kg;
        MarksFront(k, ds, h.created, cursor, ms, i);
        assert done.value == ms[i];
        ghost var streak0, best0 := streak, best;
        if done.value {
          streak := streak + 1;
        } else {
          if streak > best {
            best := streak;
          }
          streak := 0;
        }
        LongestFromStep(ms, i, streak0, best0, streak, best);
        cursor := Step(k, cursor);
        i := i + 1;
      }
      MarksDone(kg, ds, h.created, cursor, ms, i);
      if streak > best {
        best := streak;
      }
      assert PeriodKind(h.period).Some? ==> ms == HabitMarks(h, completions, PeriodKind(h.period).value, today);
      return Ok(best);
    }
  }

  /** The stored rows after `star` wrote `flag` to row `id`. */
  function Restarred(habits: map<nat, Habit>, id: nat, flag: bool): (r: map<nat, Habit>)
    ensures r.Keys == habits.Keys
    ensures id in r ==> r[id].starred == flag
    ensures forall x :: x in r && x != id ==> r[x] == habits[x]
  {
    if id in habits then habits[id := habits[id].(starred := flag)] else habits
  }

  /** Starring twice through the returned copy restores the stored row. */
  lemma StarTwiceRestores(habits: map<nat, Habit>, h: Habit)
    requires h.id in habits && habits[h.id].starred == h.starred
    ensures Restarred(Restarred(habits, h.id, !h.starred), h.id, !!h.starred) == habits
  {
    var once := Restarred(habits, h.id, !h.starred);
    var twice := Restarred(once, h.id, h.starred);
    assert twice[h.id] == habits[h.id];
  }

  /** Every row is filed under its own id, below the serial `bound`. */
  predicate Filed(habits: map<nat, Habit>, bound: nat) {
    forall id :: id in habits ==> habits[id].id == id && id < bound
  }

  /** The listed habits with an id below `n` whose star flag is `flag`, in id
      order. */
  function Selected(habits: map<nat, Habit>, n: nat, userId: int, kind: Option<string>, flag: bool): seq<Habit> {
    if n == 0 then []
    else
      var rest := Selected(habits, n - 1, userId, kind, flag);
      var id := n - 1;
      if id in habits && Listed(habits[id], userId, kind) && habits[id].starred == flag then rest + [habits[id]]
      else rest
  }

  /** The rows `get_user_habits` returns: ordered by `starred DESC`, starred
      rows first (ties in id order). */
  function UserHabits(habits: map<nat, Habit>, bound: nat, userId: int, kind: Option<string>): seq<Habit> {
    Selected(habits, bound, userId, kind, true) + Selected(habits, bound, userId, kind, false)
  }

  lemma {:induction false} SelectedMembers(habits: map<nat, Habit>, n: nat, userId: int, kind: Option<string>, flag: bool)
    requires forall id :: id in habits ==> habits[id].id == id
    ensures forall h :: h in Selected(habits, n, userId, kind, flag) <==>
      h.id < n && h.id in habits && habits[h.id] == h && Listed(h, userId, kind) && h.starred == flag
  {
    if n > 0 {
      SelectedMembers(habits, n - 1, userId, kind, flag);
    }
  }

  lemma {:induction false} SelectedAscending(habits: map<nat, Habit>, n: nat, userId: int, kind: Option<string>, flag: bool)
    requires forall id :: id in habits ==> habits[id].id == id
    ensures forall i, j :: 0 <= i < j < |Selected(habits, n, userId, kind, flag)| ==>
      Selected(habits, n, userId, kind, flag)[i].id < Selected(habits, n, userId, kind, flag)[j].id
  {
    if n > 0 {
      SelectedAscending(habits, n - 1, userId, kind, flag);
      SelectedMembers(habits, n - 1, userId, kind, flag);
      var rest := Selected(habits, n - 1, userId, kind, flag);
      forall i | 0 <= i < |rest|
        ensures rest[i].id < n - 1
      {
        assert rest[i] in rest;
      }
    }
  }

  /** `get_user_habits` lists each of the user's habits exactly once (only those
      of the given period when one is given), starred ones before the others. */
  lemma UserHabitsListing(habits: map<nat, Habit>, bound: nat, userId: int, kind: Option<string>)
    requires Filed(habits, bound)
    ensures forall h :: h in UserHabits(habits, bound, userId, kind) <==>
      h.id in habits && habits[h.id] == h && Listed(h, userId, kind)
    ensures forall i, j :: 0 <= i < j < |UserHabits(habits, bound, userId, kind)| ==>
      UserHabits(habits, bound, userId, kind)[i].id != UserHabits(habits, bound, userId, kind)[j].id
    ensures forall i, j :: 0 <= i < j < |UserHabits(habits, bound, userId, kind)| && UserHabits(habits, bound, userId, kind)[j].starred ==>
      UserHabits(habits, bound, userId, kind)[i].starred
  {
    var st := Selected(habits, bound, userId, kind, true);
    var pl := Selected(habits, bound, userId, kind, false);
    SelectedMembers(habits, bound, userId, kind, true);
    SelectedMembers(habits, bound, userId, kind, false);
    SelectedAscending(habits, bound, userId, kind, true);
    SelectedAscending(habits, bound, userId, kind, false);
    var r := st + pl;
    forall i, j | 0 <= i < j < |r|
      ensures r[i].id != r[j].id
    {
      if j < |st| || i >= |st| {
        assert r[i] == (st + pl)[i] && r[j] == (st + pl)[j];
      } else {
        assert r[i] in st && r[j] in pl;
      }
    }
    forall k | 0 <= k < |r|
      ensures r[k].starred <==> k < |st|
    {
      if k < |st| {
        assert r[k] in st;
      } else {
        assert r[k] in pl;
      }
    }
  }
}
