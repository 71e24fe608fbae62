# Habbiton in Dafny

Habbiton is a Telegram bot for tracking habits. This project models its two
cores and proves properties about them.

**The streak engine and habit store** (`models/habit.py`). A habit is
daily, weekly or monthly. `check_completion` asks whether some completion
falls in the period of a date. The two streak loops walk a cursor back from
today, one period at a time, until they pass the habit's creation date.

- `calculate_streak` counts the satisfied periods at the front. An
  unsatisfied current period is skipped; the first unsatisfied earlier
  period stops the walk.
- `calculate_longest_streak` keeps the longest run of satisfied periods.

The store is the `habits` and `habit_completions` tables. They are modelled
as a class, `Habits.HabitStore`, with a map of rows, a sequence of
completions and the next serial id.

**The dialogue state machine** (`handler.py`, `models/state.py`,
`models/user.py`, `utils.py`, `main.py`).

- The screens (`levels`), their prompts (`messages`) and the labelled edges
  between them (`buttons`) form a graph. The graph is a value:
  `Dialogue.Graph`.
- `utils.create_basic_state` seeds that graph: `Seed.BasicState`.
- A user's only navigation state is `current_level`. The `users` table is
  the class `Users.UserTable`; a loaded user is a `Users.User` object.
- `Conversation.Handler` is the class `handler.py` defines, one per
  incoming update.
- Everything the bot shows is an event appended to `Conversation.Chat`'s
  log. A sent message's id is its position in that log.
- `Entry` holds the three update handlers of `main.py`.

`getattr(handler, name)` becomes a closed enumeration of the handler's
action methods (`Actions.Action`), each with the number of positional
arguments it accepts.

**Dates and clocks.**

- Dates are proleptic Gregorian triples with Python's ordinal and
  `weekday()` (Monday is 0).
- `datetime.now().date()` is an explicit parameter `today`.
- Some defaults in the source are evaluated once, when the module is
  imported, and each is an explicit parameter:
  - `check_completion(today = datetime.now().date())`, the default
    `created_date` of a completion and the default `created_date` of a
    habit, the bound `date` method of one `datetime` taken at import
    (`loadDay` of a `Handler`);
  - `User.start_date` (`importDate` of a `UserTable`).
- So `show_habits` and `info` tick a habit against `loadDay`, `complete`
  stamps `loadDay`, and `get_habit_name` dates a new draft `loadDay`. The
  streak loops use `today`.

**Errors.** Python exceptions become `Err` values:

- `UnboundLocalError` of `check_completion` on a period that is not one of
  the three names;
- `ValueError` of `int()` and of `date()`;
- `NoResultFound` and `MultipleResultsFound` of `scalar_one()`;
- foreign-key violations;
- `AttributeError` on `None`;
- `TypeError` of a wrong argument count.

Some behaviour of the code is easy to misread; the model follows the code:

- `get_user_habits` without a period lists the user's drafts too, although
  `Habit.new` calls a draft a temporary habit that only `set_period` makes
  a normal one.
- `respond` for an unknown sender registers them, but then calls `handle`
  with the `None` it loaded first. So the event fails (`Err(NoUser)`)
  instead of continuing with the registered user.
- A habit id that is not the user's, or not a number, makes
  `get_user_habit` return `None` or raise. The handler actions then fail on
  `None`; they report no not-found condition.
- Deleting an already deleted habit through the handler fails for the same
  reason. The store's `Delete` on a missing id changes nothing.

## Model

| member | source | states |
|---|---|---|
| Dates.DaysInMonth | bot/habbiton/models/habit.py:81-84 | every month has 28 to 31 days |
| Dates.MakeDate | bot/habbiton/utils.py:58-61 | `date(y, m, d)` succeeds exactly when the month is 1..12 and the day is within the month's length, and then is that date; otherwise it is the `ValueError` case |
| Dates.Weekday | bot/habbiton/models/habit.py:77 | `weekday()` lies in 0..6 |
| Dates.LeIffOrdinal | bot/habbiton/models/habit.py:110 | comparing dates field by field (`today >= created_date`) agrees with comparing their day ordinals |
| Dates.OrdinalInjective | bot/habbiton/models/habit.py:73 | two dates are equal exactly when their ordinals are |
| Dates.PrevDay | bot/habbiton/models/habit.py:117 | `today - timedelta(1)` is the day whose ordinal is one less |
| Dates.NextDay | bot/habbiton/models/habit.py:78 | adding one day gives the day whose ordinal is one more |
| Dates.SubDays | bot/habbiton/utils.py:39 | `today - timedelta(days = n)` lowers the ordinal by exactly n |
| Dates.AddDays | bot/habbiton/models/habit.py:78 | adding n days raises the ordinal by exactly n |
| Dates.SubAddRoundTrip | bot/habbiton/utils.py:39 | subtracting and then adding n days gives back the date, in either order |
| Periods.PeriodKind | bot/habbiton/models/habit.py:72-80 | a period is recognised exactly when it is "Daily", "Weekly" or "Monthly", and the recognised kind's name is the stored period |
| Periods.WeekStart | bot/habbiton/models/habit.py:77 | `today - timedelta(today.weekday())` is a Monday of the same week, at most six days earlier |
| Periods.WindowIsPeriod | bot/habbiton/models/habit.py:72-90 | the query windows are the same day, the days from that week's Monday up to seven days later, and the same year and month, with December's upper bound in January of the next year; a date is in the window exactly when it lies in the same period |
| Periods.Step | bot/habbiton/models/habit.py:116-124 | the cursor step lands exactly one period back, strictly earlier and at most 1, 13 or 61 days back: the previous day, the Monday of the previous week, or the first of the previous month |
| Periods.PrevWeekStart | bot/habbiton/models/habit.py:119 | subtracting `weekday()` plus one week gives the Monday of the previous week |
| Periods.PrevMonthStart | bot/habbiton/models/habit.py:121-124 | the monthly step gives the first of the previous month, January going to December of the previous year |
| Periods.CompletionSatisfies | bot/habbiton/models/habit.py:58-61 | a completion dated d satisfies d's period |
| Periods.SatisfiedMonotone | bot/habbiton/models/habit.py:70-93 | adding a completion never makes a satisfied period unsatisfied |
| Periods.SatisfiedIffHasPeriod | bot/habbiton/models/habit.py:70-93 | a cursor's period is satisfied exactly when some completion date lies in the same period |
| Periods.Marks | bot/habbiton/models/habit.py:110 | the loop visits some period exactly when the creation date is not after the cursor |
| Periods.MarksAt | bot/habbiton/models/habit.py:110-124 | the j-th period the loop visits is the j-th period before today's, and it is marked satisfied exactly when some completion lies in it |
| Periods.MarksLength | bot/habbiton/models/habit.py:110 | when the habit was created at least n maximal steps ago, the loop visits more than n periods |
| Periods.MarksBound | bot/habbiton/models/habit.py:110 | the loop visits at most the periods from the creation date's to today's |
| Periods.PeriodMonotone | bot/habbiton/models/habit.py:110 | a later date never lies in an earlier period |
| Runs.LeadingRunIsRun | bot/habbiton/models/habit.py:110-115 | the run counted from a position is all satisfied and ends at an unsatisfied period or at the creation date |
| Runs.CurrentRunStops | bot/habbiton/models/habit.py:110-115 | the current streak counts the current period when satisfied, plus the satisfied periods before it up to the first gap |
| Runs.StreakFromIsCurrentRun | bot/habbiton/models/habit.py:106-125 | the streak loop, run from the current period, returns the front run that skips an unsatisfied current period |
| Runs.LongestRunIsLongest | bot/habbiton/models/habit.py:127-150 | the longest streak bounds every run of satisfied periods and is attained by one |
| Runs.LongestFromIsLongestRun | bot/habbiton/models/habit.py:127-150 | the longest-streak loop, including its final comparison after the walk, returns the longest run |
| Runs.LongestRunExact | bot/habbiton/models/habit.py:127-150 | a run of length n, where every n + 1 consecutive periods hold a gap, makes the longest streak exactly n |
| Runs.CurrentAtMostLongest | bot/habbiton/models/habit.py:106-150 | the current streak is at most the longest streak, which is at most the number of periods visited |
| Runs.NoTrueNoRun | bot/habbiton/tests/tests.py:88-94 | with no satisfied period both streaks are 0 |
| Habits.DatesOfMembers | bot/habbiton/models/habit.py:153-157 | a date is among a habit's completion dates exactly when a completion of that habit on that date is stored |
| Habits.WithoutMembers | bot/habbiton/models/habit.py:97-100 | deleting a habit's completions keeps exactly the completions of other habits |
| Habits.WithoutIdempotent | bot/habbiton/models/habit.py:95-104 | deleting a habit's completions a second time changes nothing |
| Habits.WithoutKeepsOthers | bot/habbiton/models/habit.py:97-100 | deleting one habit's completions leaves every other habit's dates unchanged |
| Habits.DatesOfAppend | bot/habbiton/models/habit.py:58-61 | the dates of appended completions are the dates of the old ones followed by the dates of the new ones |
| Habits.CheckCompletion | bot/habbiton/models/habit.py:70-93 | fails (unbound statement) exactly when the period is not one of the three names; otherwise true exactly when some completion of this habit falls in the window of `today` |
| Habits.CompleteThenChecked | bot/habbiton/models/habit.py:58-61 | after a completion stamped d, `check_completion(d)` holds |
| Habits.CheckMonotone | bot/habbiton/models/habit.py:58-93 | adding any completion never turns a true `check_completion` false |
| Habits.MarksOwnCompletions | bot/habbiton/models/habit.py:73-90 | other habits' completions never change a habit's streaks |
| Habits.HabitStore.constructor | bot/habbiton/models/habit.py:6-13 | the store starts empty, with ids starting at 1 |
| Habits.HabitStore.Add | bot/habbiton/utils.py:27-36 | inserting a habit files it under the next serial id, which was free; nothing else changes |
| Habits.HabitStore.New | bot/habbiton/models/habit.py:21-25 | `new` adds exactly one habit, under the next id, for the user, dated `loadDay` (the import-time default of `created_date`), with no period and not starred |
| Habits.HabitStore.DeleteUnfinished | bot/habbiton/models/habit.py:28-33 | exactly the user's drafts are removed; the remaining rows are unchanged |
| Habits.HabitStore.SetPeriod | bot/habbiton/models/habit.py:36-41 | every draft of the user gets the period; no other row changes and no row is added or removed |
| Habits.HabitStore.GetUserHabits | bot/habbiton/models/habit.py:44-50 | returns the listing `UserHabits` of the stored rows |
| Habits.UserHabitsListing | bot/habbiton/models/habit.py:44-50 | the listing holds exactly the user's habits (of the given period when one is given, drafts included when none is), each once, starred ones first |
| Habits.SelectedMembers | bot/habbiton/models/habit.py:47-49 | one star class of the listing holds exactly the matching rows with that flag |
| Habits.SelectedAscending | bot/habbiton/models/habit.py:47-49 | within one star class the listing is in ascending id order |
| Habits.HabitStore.GetUserHabit | bot/habbiton/models/habit.py:53-56 | `int(id)` failing is an error; otherwise the habit is returned exactly when that id exists and belongs to the user |
| Habits.HabitStore.Complete | bot/habbiton/models/habit.py:58-61 | appends exactly one completion of the habit with the given date; a habit whose row is gone violates the foreign key and nothing changes |
| Habits.HabitStore.Star | bot/habbiton/models/habit.py:63-68 | flips the star on the object and on its stored row; nothing else changes |
| Habits.Restarred | bot/habbiton/models/habit.py:66 | writing the star changes only that row's flag |
| Habits.StarTwiceRestores | bot/habbiton/models/habit.py:63-68 | starring twice restores the stored rows |
| Habits.HabitStore.Delete | bot/habbiton/models/habit.py:95-104 | removes the habit's row and all of its completions, and nothing else |
| Habits.HabitStore.CalculateStreak | bot/habbiton/models/habit.py:106-125 | the loop returns 0 for a habit created after today, fails for an unknown period, and otherwise returns the current run of the visited periods' marks |
| Habits.HabitStore.CalculateLongestStreak | bot/habbiton/models/habit.py:127-150 | the loop returns 0 for a habit created after today, fails for an unknown period, and otherwise returns the longest run of the visited periods' marks |
| Texts.Split | bot/habbiton/main.py:31 | splitting at the bar character always yields at least one piece |
| Texts.SplitPiecesClean | bot/habbiton/main.py:31 | no piece holds the separator |
| Texts.JoinSplit | bot/habbiton/main.py:31 | joining the pieces with the separator gives back the payload |
| Texts.SplitJoin | bot/habbiton/main.py:31-32 | splitting a join of separator-free pieces gives back the pieces |
| Texts.NatToString | bot/habbiton/handler.py:46 | `str(id)` is a non-empty string of digits without a leading zero |
| Texts.ParseInt | bot/habbiton/models/habit.py:55 | `int(id)` succeeds exactly on an optional sign followed by digits |
| Texts.ParseIntRoundTrip | bot/habbiton/models/habit.py:55 | `int(str(n))` is n |
| Texts.NatToStringInjective | bot/habbiton/handler.py:46 | different ids give different payload texts |
| Actions.Parse | bot/habbiton/main.py:33 | `getattr` finds an action only under that action's own name |
| Actions.ParseName | bot/habbiton/handler.py:24-143 | every action method is found under its name |
| Actions.ParseFailsOnlyOnStrangers | bot/habbiton/main.py:33 | `getattr` fails only for a name that no action method has |
| Dialogue.Filter | bot/habbiton/models/state.py:20 | a `WHERE` keeps exactly the rows satisfying it |
| Dialogue.FilterSingle | bot/habbiton/models/state.py:39-40 | a `WHERE` that exactly one row satisfies returns that row |
| Dialogue.FilterNone | bot/habbiton/models/state.py:39-40 | a `WHERE` that no row satisfies returns nothing |
| Dialogue.Insert | bot/habbiton/models/state.py:20 | insertion adds exactly the new element |
| Dialogue.InsertSorted | bot/habbiton/models/state.py:20 | insertion keeps a sequence sorted by the key |
| Dialogue.SortBy | bot/habbiton/models/state.py:20 | `ORDER BY` returns a permutation of the rows |
| Dialogue.SortByArranges | bot/habbiton/models/state.py:20-25 | `ORDER BY` returns the rows as a permutation sorted ascending, NULL keys last |
| Dialogue.LevelsNamed | bot/habbiton/models/state.py:15 | selects exactly the levels of that name |
| Dialogue.MessagesOf | bot/habbiton/models/state.py:20 | selects exactly the messages of that level |
| Dialogue.ButtonsOf | bot/habbiton/models/state.py:25 | selects exactly the buttons leaving that level |
| Dialogue.FromName | bot/habbiton/models/state.py:13-16 | fails with no result exactly when no level has the name, and with several results exactly when two do; otherwise returns a level of that name |
| Dialogue.FromNameFinds | bot/habbiton/models/state.py:9 | in a graph with unique level names, every existing level is found |
| Dialogue.GetMessages | bot/habbiton/models/state.py:18-21 | returns exactly the level's messages, ascending by `order` |
| Dialogue.Labels | bot/habbiton/models/state.py:32-35 | one keyboard row per button, holding its text, in order |
| Dialogue.GetButtons | bot/habbiton/models/state.py:23-36 | removes the keyboard exactly when the level has no button; otherwise shows the labels of its buttons ascending by `order` |
| Dialogue.CheckButton | bot/habbiton/models/state.py:37-40 | finds nothing exactly when no button of this level has exactly that text; a button found leaves this level and carries the text |
| Dialogue.CheckButtonSelects | bot/habbiton/models/state.py:37-40 | in a well-formed graph, a button's own label on its own level finds that button |
| Dialogue.CheckButtonTargetExists | bot/habbiton/models/state.py:53 | in a well-formed graph, the target of a found button can be looked up |
| Users.ApplyAllKeeps | bot/habbiton/models/user.py:36-38 | `update` keeps the id, username and start date; the level is the last one set; the message id is unchanged unless set |
| Users.UserTable.constructor | bot/habbiton/models/user.py:6-12 | the table starts empty |
| Users.UserTable.FromId | bot/habbiton/models/user.py:19-23 | returns a fresh copy of the row with that id, or None exactly when there is none |
| Users.UserTable.New | bot/habbiton/models/user.py:25-34 | inserts a row with the defaults (level "main", no message id) only for an unknown id when "main" exists, otherwise leaves the table as it was; then loads the row |
| Users.User.constructor | bot/habbiton/models/user.py:20-23 | the object carries the row's values |
| Users.User.Update | bot/habbiton/models/user.py:36-42 | the object takes the keyword values; the row with this id takes them too unless a level is unknown (then nothing is written, an error); other rows never change |
| Seed.LevelNamesDistinct | bot/habbiton/utils.py:69-75 | the seeded level names are pairwise distinct |
| Seed.SeededLevels | bot/habbiton/utils.py:69-75 | exactly seven levels are seeded, and only "new_habit" has a callback, `get_habit_name` |
| Seed.PromptsAlign | bot/habbiton/utils.py:78-84 | the k-th message belongs to the k-th level |
| Seed.OnePromptEach | bot/habbiton/utils.py:78-84 | every seeded level gets exactly one prompt, its own |
| Seed.ButtonEndsExist | bot/habbiton/utils.py:87-96 | every button leaves and enters a seeded level |
| Seed.ButtonLevelsSeeded | bot/habbiton/utils.py:87-96 | every level name a button uses is seeded |
| Seed.LabelsDistinct | bot/habbiton/utils.py:87-96 | labels are distinct within each level |
| Seed.BasicStateWellFormed | bot/habbiton/utils.py:67-98 | the seeded graph is well formed: unique names, existing ends, unique labels per level |
| Seed.SeededCallbacksAreActions | bot/habbiton/utils.py:71-96 | every seeded callback names a handler action callable with no arguments |
| Seed.MainMenuSelects | bot/habbiton/utils.py:87 | on "main", "My habits" selects the button to "my_habits" with `show_habits` |
| Seed.MainButtons | bot/habbiton/utils.py:87-89 | the main menu has exactly the three buttons, in insertion order |
| Seed.MainMenuOrder | bot/habbiton/utils.py:87-89 | the main keyboard reads New habit, My habits, My stats |
| Seed.SortThree | bot/habbiton/utils.py:87-89 | orders 2, 3, 1 sort to the third, first, second button |
| Fixture.YearBack | bot/habbiton/utils.py:27 | `replace(year = year - 1)` fails exactly on February 29 and otherwise keeps the month and day |
| Fixture.YearBackIsAYearBack | bot/habbiton/utils.py:27-31 | the creation date lies 365 or 366 days back |
| Fixture.MonthBack | bot/habbiton/utils.py:54-63 | the corrected month formula gives the first of the month exactly i months back |
| Fixture.MonthBackBranches | bot/habbiton/utils.py:58-61 | the corrected formula is the written one's first branch, and month 12 + month − i of the previous year in the other |
| Fixture.MonthBackAsWritten | bot/habbiton/utils.py:58-61 | the formula as written, when it yields a date, yields a first of the month |
| Fixture.MonthBackAsWrittenAgrees | bot/habbiton/utils.py:58-61 | the written formula fails exactly in January with i = 1, and agrees with the true month exactly when i is below the month or the month is February |
| Fixture.Back | bot/habbiton/utils.py:38-61 | the i-th completion of a loop lies exactly i periods before today's, the monthly one by the corrected month formula |
| Fixture.Recorded | bot/habbiton/utils.py:38-52 | a `for i in range(1, n + 1)` loop with `continue` records at most n values |
| Fixture.BackDatesHasPeriod | bot/habbiton/utils.py:38-63 | a loop's completions cover exactly the periods 1..n back minus the skipped ones |
| Fixture.PlanHabit | bot/habbiton/utils.py:27-31 | each fixture habit gets its id and the year-back creation date |
| Fixture.FixtureRowsAt | bot/habbiton/utils.py:27-36 | the five rows are filed under consecutive fresh ids; other rows are untouched |
| Fixture.StampLoop | bot/habbiton/utils.py:38-52 | one completion loop appends exactly the stamps of the recorded dates |
| Fixture.InsertPlans | bot/habbiton/utils.py:27-36 | inserting the five habits gives the fixture rows and five new ids |
| Fixture.StampPlans | bot/habbiton/utils.py:38-63 | the five loops append the completions of each plan in turn |
| Fixture.CreateTestFixture | bot/habbiton/utils.py:21-65 | with the corrected month formula: fails and changes nothing exactly on February 29; otherwise adds the five habits under the next five ids, then their completions |
| Fixture.FixtureHabitDates | bot/habbiton/utils.py:38-63 | each fixture habit's completion dates are exactly its loop's dates |
| Fixture.SkippedRuns | bot/habbiton/tests/tests.py:112-143 | with at most two gaps among n periods, the current streak runs up to the first gap and the longest is the longest stretch between gaps |
| Fixture.PlanStreaks | bot/habbiton/models/habit.py:106-150 | a loop of n completions with gaps g1 ≤ g2 yields those current and longest streaks |
| Fixture.LoopMarks | bot/habbiton/models/habit.py:110-124 | the periods 1..n back outside the skipped ones are exactly the satisfied visited ones |
| Fixture.DrinkWaterRuns | bot/habbiton/tests/tests.py:97-109 | 28 daily completions give streaks 28 and 28 |
| Fixture.WorkOutRuns | bot/habbiton/tests/tests.py:112-143 | days 1..28 without 7 and 22 give current streak 6 and longest 14 |
| Fixture.WashClothesRuns | bot/habbiton/tests/tests.py:160-176 | weeks 1..4 give 4 and 4 |
| Fixture.TidyHouseRuns | bot/habbiton/tests/tests.py:179-197 | weeks 1, 3, 4 give current streak 1 and longest 2 |
| Fixture.WeeklyGapRuns | bot/habbiton/tests/tests.py:200-218 | weeks 1, 3, 4, 5 give longest streak 3 |
| Fixture.VisitParentsRuns | bot/habbiton/tests/tests.py:257-306 | months 1..4 give current and longest streak 4 |
| Fixture.MonthlyRuns | bot/habbiton/tests/tests.py:234-254 | months 1..5 give current streak 5 |
| Fixture.NoCompletionRuns | bot/habbiton/tests/tests.py:88-94 | no completions give 0 and 0, for every period |
| Fixture.PlanHabitRuns | bot/habbiton/models/habit.py:106-150 | a habit whose dates are a loop's dates has that loop's streaks |
| Fixture.FixtureHabitRuns | bot/habbiton/utils.py:21-65 | each fixture habit has its own loop's streaks |
| Fixture.FixtureStreaks | bot/habbiton/utils.py:27-63 | with the corrected month formula, the five fixture habits show streaks (28, 28), (6, 14), (4, 4), (1, 2), (4, 4) |
| Conversation.TextOf | bot/habbiton/handler.py:14 | only a text message has a text |
| Conversation.RouteFollowsButton | bot/habbiton/handler.py:14-22 | the input follows a button exactly when a button of the level has it as label, and then that button's target and callback apply; otherwise the level's own callback |
| Conversation.RouteOfLabel | bot/habbiton/handler.py:14-18 | in a well-formed graph, a button's label follows that button |
| Conversation.Prompts | bot/habbiton/handler.py:31-33 | one message per prompt, in order, each with the level's keyboard |
| Conversation.SeededScreen | bot/habbiton/handler.py:31-33 | entering a seeded level sends exactly its one prompt with its keyboard |
| Conversation.LabelShowsState | bot/habbiton/handler.py:46 | a list label shows the star and the completion: equal names with equal labels have equal flags |
| Conversation.ListScreenRows | bot/habbiton/handler.py:37-51 | one row per habit, ticked exactly when a completion lies in its current period |
| Conversation.CompletedIsTicked | bot/habbiton/handler.py:102-105 | after `complete` the list ticks the habit |
| Conversation.InfoOffers | bot/habbiton/handler.py:81-95 | the details offer Complete exactly when not done, read Unstar exactly when starred, and always offer Delete and Back |
| Conversation.Scores | bot/habbiton/handler.py:149-150 | one longest streak per habit |
| Conversation.Champion | bot/habbiton/handler.py:145-154 | the holder of the maximum is one of the habits seen |
| Conversation.ChampionIsFirstMax | bot/habbiton/handler.py:145-154 | the result is the maximum; no habit exactly when all streaks are 0; otherwise the first habit with the maximum |
| Conversation.OfKindScored | bot/habbiton/handler.py:124-135 | habits of one period never make the streak computation fail |
| Conversation.StatLineShown | bot/habbiton/handler.py:117-139 | a period's line appears exactly when a habit of that period has a positive longest streak, naming the first habit with the greatest one |
| Conversation.Chat.constructor | bot/habbiton/handler.py:6-9 | the chat starts with no messages |
| Conversation.Handler.constructor | bot/habbiton/handler.py:7-9 | the handler keeps its user and update |
| Conversation.Handler.Render | bot/habbiton/handler.py:31-33 | appends the prompts, in order, with the keyboard |
| Conversation.Handler.MoveUser | bot/habbiton/handler.py:28-33 | sets the level on the user and on the row first, then sends the level's screen; an unknown level is refused by the database before anything is sent; no user fails |
| Conversation.Handler.HandleStart | bot/habbiton/handler.py:24-26 | on success the user is at "main", having been shown "start" then "main"; only the user's level changes |
| Conversation.Handler.Edit | bot/habbiton/handler.py:53 | only a pressed button's message can be edited |
| Conversation.Handler.ListRows | bot/habbiton/handler.py:43-51 | the list rows of all habits, or the error of a draft |
| Conversation.Handler.ShowHabits | bot/habbiton/handler.py:35-56 | shows the list screen, editing it in place for 'y' and otherwise sending it and recording its id as the latest message id; the level never changes |
| Conversation.Handler.PurgeMsg | bot/habbiton/handler.py:58-61 | a recorded latest message is deleted and its id cleared; otherwise nothing changes |
| Conversation.Handler.GetHabitName | bot/habbiton/handler.py:63-65 | creates a draft named by the text, dated `loadDay`, and moves the user to "new_habit_period"; fails with nothing changed without a text or a user |
| Conversation.Handler.DeleteUnfinishedHabit | bot/habbiton/handler.py:67-68 | removes exactly the user's drafts |
| Conversation.Handler.SetHabitPeriod | bot/habbiton/handler.py:70-72 | gives the user's drafts the text as period and moves the user to "main" |
| Conversation.Handler.Info | bot/habbiton/handler.py:74-100 | shows the details of the user's habit with its streaks and buttons; fails on a bad id, a missing or foreign habit, a draft, or a text message |
| Conversation.Handler.Complete | bot/habbiton/handler.py:102-105 | appends a completion of the user's habit and shows the list in place; fails without change otherwise |
| Conversation.Handler.Star | bot/habbiton/handler.py:107-110 | flips the user's habit's star and shows its details again |
| Conversation.Handler.Delete | bot/habbiton/handler.py:112-115 | removes the user's habit and its completions and shows the list in place |
| Conversation.Handler.Fixture | bot/habbiton/handler.py:141-143 | adds the fixture's habits and completions (corrected months) for the user and shows the list in place |
| Conversation.Handler.LongestAmong | bot/habbiton/handler.py:145-154 | the loop returns the best longest streak and its first holder, or the error of a habit that cannot be scored |
| Conversation.Handler.StatLineFor | bot/habbiton/handler.py:124-137 | the period's line of the statistics |
| Conversation.Handler.ShowStats | bot/habbiton/handler.py:117-139 | sends the count and one line per period that has a streak, or a notice when there are no habits |
| Conversation.Handler.Dispatch | bot/habbiton/main.py:33 | an unknown name or a wrong argument count fails before anything changes; otherwise only the user's row can change, and only to where the action lands |
| Conversation.Handler.Handle | bot/habbiton/handler.py:11-22 | a failing level lookup or a pressed button fails unchanged; otherwise the route runs, the user ends where it leads, and a button without callback shows the target's screen and leaves the habits alone |
| Entry.Call | bot/habbiton/main.py:31-33 | a payload calls the action named by its first piece with the remaining pieces, when the action accepts that many |
| Entry.PayloadCalls | bot/habbiton/main.py:31-33 | a payload built from an action's name and separator-free arguments calls that action with exactly those arguments |
| Entry.IdTextClean | bot/habbiton/handler.py:46 | a decimal id holds no separator |
| Entry.IdPayloadCalls | bot/habbiton/handler.py:83-92 | `info`, `complete`, `star` and `delete` payloads call their action with the id, which reads back as the habit's id |
| Entry.OwnedFindsListed | bot/habbiton/models/habit.py:53-56 | the id of a listed habit finds it again for its owner and for nobody else |
| Entry.ListScreenCalls | bot/habbiton/handler.py:37-51 | the list's one button per row calls `info` on its habit, and the empty list's button calls `fixture` |
| Entry.InfoRowsData | bot/habbiton/handler.py:81-95 | the details' payloads, row by row |
| Entry.InfoRowsCall | bot/habbiton/handler.py:81-95 | every details button calls `complete`, `star` or `delete` on the habit, or lists the habits in place |
| Entry.RespondStart | bot/habbiton/main.py:12-18 | registers an unknown sender at "main" with the defaults, then succeeds exactly when "start" and "main" exist, ending at "main" having seen both screens |
| Entry.Respond | bot/habbiton/main.py:20-26 | an unknown sender is registered but the event fails, with `respond_start`'s error when that fails and on the missing user otherwise; a known sender ends where the route of their text leads |
| Entry.RespondInline | bot/habbiton/main.py:28-33 | an unknown action or argument count changes nothing; otherwise only the sender's level can change, and only to where the action lands |
| CreationDialogue.NewHabitChosen | bot/habbiton/utils.py:89 | "New habit" on "main" leads to "new_habit" and clears drafts |
| CreationDialogue.HabitNamed | bot/habbiton/utils.py:71 | any text but "Back" on "new_habit" names the habit and ends on "new_habit_period" |
| CreationDialogue.PeriodChosen | bot/habbiton/utils.py:93-95 | each period label on "new_habit_period" sets the period and ends on "main" |
| CreationDialogue.PeriodButton | bot/habbiton/utils.py:93-95 | the three period buttons all lead to "habit_created" with `set_habit_period` |

## Findings

| source | as written | input that shows it | evidently intended | confidence | as-written member | corrected member |
|---|---|---|---|---|---|---|
| bot/habbiton/utils.py:58-61 (the same formula at bot/habbiton/tests/tests.py:242-245, 268-271, 294-297) | for `today.month - i <= 0` the month is `12 - i + 2` of the previous year | today in March, i = 3: November of last year instead of December; today in January, i = 1: month 13, a `ValueError` | the month `12 + today.month - i` of the previous year, i months back | high; not executed | Fixture.MonthBackAsWritten, Fixture.MonthBackAsWrittenAgrees | Fixture.MonthBack, Fixture.MonthBackBranches |

The fixture in this model uses the corrected months. With them, the
monthly habit's streaks are 4 and 4 whatever today's month is
(`Fixture.FixtureStreaks`). As written, the fixture differs in three
months; the members that inherit the difference are listed under
"Left out".

## Left out

- aiogram is not modelled. Its markup objects and calls are abstract events
  in the chat log: `answer`, `edit_text`, `delete_message` and the keyboard
  classes. The exact message texts are kept as the values they are
  formatted from.
- `async`/`await`, sessions and the database engine are left out. Each
  update is one sequential step, so the race between two updates of one
  user is not modelled.
- The two commits of `Habit.delete` are one step: no crash between them.
- `getattr` is limited to the handler's action methods. A callback naming
  `handle` or another attribute is outside the model.
- Foreign keys are left out where the seeded flow never hits them: habits
  are not checked against `users`.
- Ties of `ORDER BY starred DESC` are in id order; PostgreSQL leaves their
  order open.
- A NULL `starred` is not modelled: the flag is a boolean.
- Python dates are limited to years 1..9999; the model's years are
  unbounded, so the `OverflowError` at the ends of that range is left out.
- `int()` also accepts surrounding whitespace and underscores. The model
  reads only an optional sign and digits, which is all the bot writes.
- `fill_new_db` (bot/habbiton/utils.py:7-19), `bot()` and `main()`
  (bot/habbiton/main.py:35-42) are left out: schema creation and polling.
- `set_session` of `Habit` and `User` is left out: the store and the user
  table are passed in instead.
- `bot/habbiton/__init__.py` and `bot/habbiton/tests/conftest.py` are not
  part of this model.
- Fixture.DrinkWaterRuns, Fixture.WorkOutRuns, Fixture.WashClothesRuns,
  Fixture.TidyHouseRuns, Fixture.VisitParentsRuns,
  Fixture.NoCompletionRuns and Fixture.WeeklyGapRuns: stated for habits
  created at least 365 days back. Fixture.MonthlyRuns needs 366 days. The
  tests date their habit 2024-01-01 and do not bound it.
- Fixture.VisitParentsRuns, Fixture.MonthlyRuns: stated for the true months
  back, not the written month formula (see Findings).
- Fixture.CreateTestFixture: uses the corrected month formula. As written,
  in January the monthly loop raises `ValueError` (month 13) after the
  habits' commit and before the completions' commit, so the five habits
  stay with no completions; in March the monthly habit gets November and
  October instead of December and November, and in April October instead
  of December.
- Fixture.Back: its monthly case is the corrected month formula, not the
  written one of bot/habbiton/utils.py:58-61 (see Findings).
- Fixture.FixtureStreaks: holds for the corrected months. As written, the
  monthly habit's streaks are (2, 2) in March and (3, 3) in April, and in
  January the fixture has no completions at all.
- Conversation.Handler.Fixture: inherits the corrected months. As written,
  in January `create_test_fixture` raises after committing the habits, so
  `fixture` never shows the list.
- Conversation.Handler.ShowStats: the text layout of the statistics is not
  modelled, only which lines appear and what they hold.
