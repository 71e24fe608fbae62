/** The conversation engine of handler.py: a `Handler` built for one incoming
    event moves its user through the dialogue graph, renders screens into the
    chat and runs the actions named by buttons and levels. Telegram objects
    are abstract: what the bot shows is an event appended to the chat log. */
module Conversation {

  import opened Wrappers
  import opened Dates
  import opened Periods
  import opened Runs
  import opened Texts
  import opened Dialogue
  import opened Habits
  import opened Users
  import opened Actions
  import TestFixture = Fixture
  import Seed

  /** An inline keyboard button: its label and the payload sent back when it
      is pressed. */
  datatype InlineButton = InlineButton(text: string, data: string)

  /** The markup under a message: a reply keyboard (or its removal), inline
      buttons row by row, or none. */
  datatype Markup = Keys(keyboard: Keyboard) | Inline(rows: seq<seq<InlineButton>>) | Plain

  /** One line of the statistics: the period, the habit with the longest
      streak of that period and the streak. */
  datatype StatLine = StatLine(kind: Kind, name: string, longest: nat)

  /** The texts the bot writes, kept as the values they are formatted from. */
  datatype Body =
    | Prompt(text: string)
    | NoHabitsYet
    | HabitTotal(count: nat)
    | HabitInfo(name: string, created: Date, period: Option<string>, streak: nat, longest: nat)
    | NoStats
    | Stats(total: nat, lines: seq<StatLine>)

  /** What the bot does in the chat: send a message, edit the message whose
      button was pressed, or delete a message. */
  datatype Event = Sent(body: Body, markup: Markup) | Edited(body: Body, markup: Markup) | Deleted(chatId: int, messageId: int)

  /** The update a handler is built for: a text message (whose text may be
      missing, as for a sticker) or a pressed inline button. */
  datatype Incoming = TextMessage(text: Option<string>) | CallbackQuery(data: string)

  /** The exceptions that end an event: an attribute of None (no user, no
      habit), a missing attribute of the update, a level lookup that fails, a
      level the database refuses, an unknown action name, a wrong number of
      arguments, a NULL habit name, the habit code's errors, and an invalid
      date in the fixture. */
  datatype Failure =
    | NoUser
    | NoAttribute
    | LevelLookup(lookup: QueryError)
    | LevelRefused
    | UnknownAction
    | WrongArguments
    | NameMissing
    | HabitFailure(cause: Error)
    | HabitMissing
    | FixtureDate

  /** `self.message.text`: only a text message has one. */
  function TextOf(m: Incoming): (r: Result<Option<string>, Failure>)
    ensures r.Ok? <==> m.TextMessage?
    ensures r.Ok? ==> r.value == m.text
  {
    if m.TextMessage? then Ok(m.text) else Err(NoAttribute)
  }

  /** What `handle` does with an input on a level: follow the button labelled
      with it (and run its action), or stay and run the level's own action. */
  datatype Route = Move(target: string, callback: Option<string>) | Stay(callback: Option<string>)

  function RouteOf(g: Graph, level: Level, text: Option<string>): Route {
    match CheckButton(g, level.name, text)
    case Some(b) => Move(b.target, b.callback)
    case None => Stay(level.callback)
  }

  /** The action names a route runs: at most one. */
  function Ran(route: Route): seq<string> {
    if route.callback.Some? then [route.callback.value] else []
  }

  /** The route follows a button exactly when one of the level's buttons
      carries the input as its label, and then that button decides the action;
      otherwise the level's own action runs. */
  lemma RouteFollowsButton(g: Graph, level: Level, text: Option<string>)
    ensures RouteOf(g, level, text).Move? <==>
      text.Some? && exists b :: b in g.buttons && b.current == level.name && b.text == text.value
    ensures RouteOf(g, level, text).Stay? ==> RouteOf(g, level, text).callback == level.callback
    ensures RouteOf(g, level, text).Move? ==>
      exists b :: (b in g.buttons && b.current == level.name && text == Some(b.text) &&
        RouteOf(g, level, text) == Move(b.target, b.callback))
  {
    var c := CheckButton(g, level.name, text);
    if c.Some? {
      assert c.value in g.buttons;
    }
  }

  /** In a well-formed graph, typing a button's label on its level follows that
      very button. */
  lemma RouteOfLabel(g: Graph, level: Level, b: Button)
    requires WellFormed(g) && b in g.buttons && b.current == level.name
    ensures RouteOf(g, level, Some(b.text)) == Move(b.target, b.callback)
  {
    CheckButtonSelects(g, b);
  }

  /** The level an action leaves its user at when it succeeds, given the
      arguments it is called with; None for actions that do not move. */
  function Lands(a: Action, args: seq<string>): Option<string> {
    match a
    case HandleStart => Some("main")
    case MoveUser => if |args| > 0 then Some(args[0]) else None
    case GetHabitName => Some("new_habit_period")
    case SetHabitPeriod => Some("main")
    case _ => None
  }

  /** A later move overrides an earlier one. */
  function Then(first: Option<string>, second: Option<string>): Option<string> {
    if second.Some? then second else first
  }

  /** Where a route and the action it runs move the user, if anywhere. */
  function Moves(route: Route): Option<string> {
    var first := if route.Move? then Some(route.target) else None;
    if route.callback.Some? && Parse(route.callback.value).Some?
    then Then(first, Lands(Parse(route.callback.value).value, []))
    else first
  }

  /** The level a successful `handle` leaves the user at. */
  function Final(route: Route, level: string): string {
    var m := Moves(route);
    if m.Some? then m.value else level
  }

  /** Rows of `users` after an action of user `id`: no row is added or
      removed, and the other users' rows are untouched. */
  predicate Untouched(before: map<int, Row>, after: map<int, Row>, id: int) {
    && after.Keys == before.Keys
    && forall x :: x in after && x != id ==> after[x] == before[x]
  }

  /** Rows of `users` after a successful action of user `id` that moves them to
      `level` (None: does not move them). */
  predicate Relevelled(before: map<int, Row>, after: map<int, Row>, id: int, level: Option<string>) {
    && Untouched(before, after, id)
    && (id in after ==> after[id].currentLevel == (if level.Some? then level.value else before[id].currentLevel))
  }

  /** The messages `move_user` sends for a level: each prompt, in the given
      order, with the level's keyboard. */
  function Prompts(ms: seq<Message>, kb: Keyboard): (r: seq<Event>)
    ensures |r| == |ms|
    ensures forall i :: 0 <= i < |ms| ==> r[i] == Sent(Prompt(ms[i].text), Keys(kb))
  {
    if |ms| == 0 then [] else [Sent(Prompt(ms[0].text), Keys(kb))] + Prompts(ms[1..], kb)
  }

  /** Everything `move_user(name)` shows. */
  function Screen(g: Graph, name: string): seq<Event> {
    Prompts(GetMessages(g, name), GetButtons(g, name))
  }

  /** Entering a seeded level sends exactly its one prompt, with the level's
      keyboard. */
  lemma SeededScreen(name: string)
    requires HasLevel(Seed.BasicState(), name)
    ensures |Screen(Seed.BasicState(), name)| == 1
    ensures Screen(Seed.BasicState(), name)[0] ==
      Sent(Prompt(GetMessages(Seed.BasicState(), name)[0].text), Keys(GetButtons(Seed.BasicState(), name)))
    ensures GetMessages(Seed.BasicState(), name)[0].levelName == name
  {
    Seed.OnePromptEach(name);
  }

  /** An inline payload: the action name and its arguments joined by '|'. */
  function Payload(name: string, args: seq<string>): string {
    Join([name] + args, '|')
  }

  /** The id of a habit as written into a payload. */
  function IdText(h: Habit): string {
    NatToString(h.id)
  }

  /** The label of a habit in the list: a star when starred, the name, and a
      tick or a cross for whether it is done in the current period. */
  function HabitLabel(h: Habit, done: bool): string {
    (if h.starred then "⭐ " else "") + h.name + (if done then " ✔️" else " ❌")
  }

  /** The label shows the star flag and the completion apart: two habits of
      the same name have the same label only when both flags agree. */
  lemma LabelShowsState(h: Habit, done: bool, h': Habit, done': bool)
    requires h.name == h'.name
    requires HabitLabel(h, done) == HabitLabel(h', done')
    ensures h.starred == h'.starred && done == done'
  {
    var a, b := HabitLabel(h, done), HabitLabel(h', done');
    assert a[|a| - 1] == b[|b| - 1];
    assert done == done';
  }

  /** A listed habit's one-button row, leading to its details. */
  function ListRow(h: Habit, done: bool): seq<InlineButton> {
    [InlineButton(HabitLabel(h, done), Payload("info", [IdText(h)]))]
  }

  /** Whether `check_completion` can run for every habit of the list: a draft
      or an unknown period raises. */
  predicate Checkable(hs: seq<Habit>) {
    forall i :: 0 <= i < |hs| ==> PeriodKind(hs[i].period).Some?
  }

  /** The rows of the habit list: one per habit, in listing order. */
  function HabitRows(hs: seq<Habit>, cs: seq<Completion>, day: Date): seq<seq<InlineButton>>
    requires Checkable(hs)
  {
    seq(|hs|, i requires 0 <= i < |hs| => ListRow(hs[i], CheckCompletion(hs[i], cs, day).value))
  }

  /** What `show_habits` shows for the listed habits: an offer to create the
      sample habits when there are none, otherwise the count and one row per
      habit; an error when some habit cannot be checked. */
  function ListScreen(hs: seq<Habit>, cs: seq<Completion>, day: Date): Result<(Body, Markup), Error> {
    if |hs| == 0 then Ok((NoHabitsYet, Inline([[InlineButton("Create text fixture", Payload("fixture", []))]])))
    else if !Checkable(hs) then Err(UnboundStatement)
    else Ok((HabitTotal(|hs|), Inline(HabitRows(hs, cs, day))))
  }

  /** The list shows every habit with the tick exactly when it is done on
      `day`, under a payload naming its id. */
  lemma ListScreenRows(hs: seq<Habit>, cs: seq<Completion>, day: Date, i: nat)
    requires ListScreen(hs, cs, day).Ok? && i < |hs|
    ensures ListScreen(hs, cs, day).value.1.Inline?
    ensures |ListScreen(hs, cs, day).value.1.rows| == |hs|
    ensures ListScreen(hs, cs, day).value.1.rows[i] == ListRow(hs[i], CheckCompletion(hs[i], cs, day) == Ok(true))
    ensures CheckCompletion(hs[i], cs, day) == Ok(true) <==>
      exists c :: c in cs && c.habitId == hs[i].id && InWindow(PeriodKind(hs[i].period).value, day, c.date)
  {
  }

  /** After `complete` stamps a habit with `day`, the list checked on `day`
      ticks it. */
  lemma CompletedIsTicked(hs: seq<Habit>, cs: seq<Completion>, day: Date, i: nat)
    requires i < |hs| && Checkable(hs)
    ensures ListScreen(hs, cs + [Completion(hs[i].id, day)], day).Ok?
    ensures ListScreen(hs, cs + [Completion(hs[i].id, day)], day).value.1.rows[i] == ListRow(hs[i], true)
  {
    CompleteThenChecked(hs[i], cs, day);
  }

  /** The buttons under a habit's details: Complete unless it is done, Star or
      Unstar and Delete, and Back to the list. */
  function InfoRows(h: Habit, done: bool): seq<seq<InlineButton>> {
    (if done then [] else [[InlineButton("Complete", Payload("complete", [IdText(h)]))]])
    + [[InlineButton(if h.starred then "Unstar" else "Star", Payload("star", [IdText(h)])),
        InlineButton("Delete", Payload("delete", [IdText(h)]))]]
    + [[InlineButton("Back", Payload("show_habits", ["y"]))]]
  }

  /** Whether some button of the rows has that label. */
  predicate Offers(rows: seq<seq<InlineButton>>, caption: string) {
    exists i, j :: 0 <= i < |rows| && 0 <= j < |rows[i]| && rows[i][j].text == caption
  }

  /** The details offer Complete exactly when the habit is not done, and the
      star button reads Unstar exactly when the habit is starred. */
  lemma InfoOffers(h: Habit, done: bool)
    ensures Offers(InfoRows(h, done), "Complete") <==> !done
    ensures Offers(InfoRows(h, done), "Unstar") <==> h.starred
    ensures Offers(InfoRows(h, done), "Star") <==> !h.starred
    ensures Offers(InfoRows(h, done), "Delete") && Offers(InfoRows(h, done), "Back")
  {
    var rows: seq<seq<InlineButton>> := InfoRows(h, done);
    var k: nat := if done then 0 else 1;
    assert rows[k][1].text == "Delete" && rows[k + 1][0].text == "Back";
    if !done {
      assert rows[0][0].text == "Complete";
    }
    if h.starred {
      assert rows[k][0].text == "Unstar";
    } else {
      assert rows[k][0].text == "Star";
    }
  }

  /** The details of a habit: name, start date, period, current and longest
      streak on `today`, and the buttons for it, completion checked on `day`. */
  function InfoScreen(h: Habit, cs: seq<Completion>, today: Date, day: Date): Event
    requires PeriodKind(h.period).Some?
  {
    var ms := HabitMarks(h, cs, PeriodKind(h.period).value, today);
    Edited(HabitInfo(h.name, h.created, h.period, CurrentRun(ms), LongestRun(ms)), Inline(InfoRows(h, CheckCompletion(h, cs, day).value)))
  }

  /** The habit `get_user_habit(user_id, id)` returns: the one with that number
      as its id when it belongs to the user. */
  function Owned(habits: map<nat, Habit>, userId: int, id: string): Option<Habit> {
    var n := ParseInt(id);
    if n.Some? && n.value >= 0 && n.value as nat in habits && habits[n.value as nat].userId == userId
    then Some(habits[n.value as nat])
    else None
  }

  /** The longest streak `calculate_longest_streak` computes for a habit. */
  function LongestOf(h: Habit, cs: seq<Completion>, today: Date): Result<nat, Error> {
    if !Le(h.created, today) then Ok(0)
    else match PeriodKind(h.period)
      case None => Err(UnboundStatement)
      case Some(k) => Ok(LongestRun(HabitMarks(h, cs, k, today)))
  }

  /** A result meeting the three cases of `calculate_longest_streak` is `LongestOf`. */
  lemma LongestOfCases(h: Habit, cs: seq<Completion>, today: Date, l: Result<nat, Error>)
    requires !Le(h.created, today) ==> l == Ok(0)
    requires Le(h.created, today) && PeriodKind(h.period).None? ==> l == Err(UnboundStatement)
    requires PeriodKind(h.period).Some? ==>
      l == Ok(LongestRun(HabitMarks(h, cs, PeriodKind(h.period).value, today)))
    ensures l == LongestOf(h, cs, today)
  {
  }

  /** The longest streaks of the habits, an error counting as none. */
  function Scores(hs: seq<Habit>, cs: seq<Completion>, today: Date): (s: seq<nat>)
    ensures |s| == |hs|
  {
    seq(|hs|, i requires 0 <= i < |hs| => var l := LongestOf(hs[i], cs, today); if l.Ok? then l.value else 0)
  }

  /** The running maximum of the static `calculate_longest_streak` over the
      first `n` scores, and where it was last raised: a score replaces the
      maximum only when strictly greater. */
  function Champion(s: seq<nat>, n: nat): (r: (nat, Option<nat>))
    requires n <= |s|
    ensures r.1.Some? ==> r.1.value < n
  {
    if n == 0 then (0, None)
    else
      var p := Champion(s, n - 1);
      if s[n - 1] > p.0 then (s[n - 1], Some(n - 1)) else p
  }

  /** The running maximum is the maximum of the scores; there is no holder
      exactly when every score is zero; otherwise the holder is the first
      position with the maximum score. */
  lemma {:induction false} ChampionIsFirstMax(s: seq<nat>, n: nat)
    requires n <= |s|
    ensures forall i :: 0 <= i < n ==> s[i] <= Champion(s, n).0
    ensures Champion(s, n).1.None? <==> Champion(s, n).0 == 0
    ensures Champion(s, n).1.None? <==> forall i :: 0 <= i < n ==> s[i] == 0
    ensures Champion(s, n).1.Some? ==> s[Champion(s, n).1.value] == Champion(s, n).0
    ensures Champion(s, n).1.Some? ==> forall i :: 0 <= i < Champion(s, n).1.value ==> s[i] < Champion(s, n).0
  {
    if n > 0 {
      ChampionIsFirstMax(s, n - 1);
    }
  }

  /** The pair the static `calculate_longest_streak` returns for the habits:
      the best longest streak and the habit holding it, if any. */
  function Best(hs: seq<Habit>, cs: seq<Completion>, today: Date): (nat, Option<Habit>) {
    var c := Champion(Scores(hs, cs, today), |hs|);
    (c.0, if c.1.Some? then Some(hs[c.1.value]) else None)
  }

  /** The habits of the list whose period is that kind's name. */
  function OfKind(hs: seq<Habit>, k: Kind): seq<Habit> {
    Filter(hs, (h: Habit) => h.period == Some(KindName(k)))
  }

  /** Habits of one kind can always be scored. */
  lemma OfKindScored(hs: seq<Habit>, k: Kind, cs: seq<Completion>, today: Date)
    ensures forall i :: 0 <= i < |OfKind(hs, k)| ==> LongestOf(OfKind(hs, k)[i], cs, today).Ok?
  {
    var ks := OfKind(hs, k);
    forall i | 0 <= i < |ks|
      ensures LongestOf(ks[i], cs, today).Ok?
    {
      assert ks[i] in ks;
    }
  }

  /** The statistics line of one kind: shown when some habit of that kind has
      a streak. */
  function StatLineOf(hs: seq<Habit>, k: Kind, cs: seq<Completion>, today: Date): Option<StatLine> {
    var b := Best(OfKind(hs, k), cs, today);
    if b.1.Some? then Some(StatLine(k, b.1.value.name, b.0)) else None
  }

  function Lines(ls: seq<Option<StatLine>>): seq<StatLine> {
    if |ls| == 0 then []
    else (if ls[0].Some? then [ls[0].value] else []) + Lines(ls[1..])
  }

  /** What `show_stats` writes for the user's habits: a notice when there are
      none, otherwise the count and a line per period, daily, weekly, monthly. */
  function StatsScreen(hs: seq<Habit>, cs: seq<Completion>, today: Date): Body {
    if |hs| == 0 then NoStats
    else Stats(|hs|, Lines([StatLineOf(hs, Daily, cs, today), StatLineOf(hs, Weekly, cs, today), StatLineOf(hs, Monthly, cs, today)]))
  }

  /** The line of a period appears exactly when a habit of that period has a
      positive longest streak. It names the first habit of that period, in
      listing order, with the greatest longest streak, and no habit of the
      period has a longer one. */
  lemma StatLineShown(hs: seq<Habit>, k: Kind, cs: seq<Completion>, today: Date)
    ensures StatLineOf(hs, k, cs, today).Some? <==>
      exists i :: 0 <= i < |OfKind(hs, k)| && Scores(OfKind(hs, k), cs, today)[i] > 0
    ensures StatLineOf(hs, k, cs, today).Some? ==>
      var line := StatLineOf(hs, k, cs, today).value;
      var ks := OfKind(hs, k);
      var s := Scores(ks, cs, today);
      && line.kind == k && line.longest > 0
      && (forall i :: 0 <= i < |ks| ==> s[i] <= line.longest)
      && exists i :: 0 <= i < |ks| && ks[i].name == line.name && s[i] == line.longest &&
           forall j :: 0 <= j < i ==> s[j] < line.longest
  {
    var ks := OfKind(hs, k);
    var s := Scores(ks, cs, today);
    ChampionIsFirstMax(s, |ks|);
    if StatLineOf(hs, k, cs, today).Some? {
      var i := Champion(s, |ks|).1.value;
      assert ks[i].name == StatLineOf(hs, k, cs, today).value.name;
    }
  }

  /** Python truthiness of `latest_msg_id`: set and not 0. */
  predicate Recorded(m: Option<int>) {
    m.Some? && m.value != 0
  }

  /** The chat as the bot sees it: everything it has sent, edited or deleted,
      in order. A sent message's id is its position in the log. */
  class Chat {
    var log: seq<Event>

    constructor ()
      ensures log == []
    {
      log := [];
    }
  }

  /** `Handler(user, message)`: the tables, the chat and the dialogue graph it
      works on, the user (None when the sender has no row), the update, the
      date the event is handled on (`datetime.now()`) and the date the habit
      module was loaded (the default argument of `check_completion` and the
      default date of a completion). */
  class Handler {
    const users: UserTable
    const store: HabitStore
    const chat: Chat
    const g: Graph
    const user: User?
    const message: Incoming
    const today: Date
    const loadDay: Date
    /** The action names `handle` has run, in order. */
    ghost var ran: seq<string>

    ghost predicate Valid()
      reads users, store
    {
      users.Valid() && store.Valid()
    }

    constructor (users: UserTable, store: HabitStore, chat: Chat, g: Graph, user: User?, message: Incoming, today: Date, loadDay: Date)
      ensures this.users == users && this.store == store && this.chat == chat && this.g == g
      ensures this.user == user && this.message == message && this.today == today && this.loadDay == loadDay
      ensures ran == []
    {
      this.users := users;
      this.store := store;
      this.chat := chat;
      this.g := g;
      this.user := user;
      this.message := message;
      this.today := today;
      this.loadDay := loadDay;
      ran := [];
    }

    /** The loop of `move_user`: each message answered with the keyboard. */
    method Render(ms: seq<Message>, kb: Keyboard)
      modifies chat
      ensures chat.log == old(chat.log) + Prompts(ms, kb)
    {
      ghost var ps := Prompts(ms, kb);
      var i := 0;
      while i < |ms|
        invariant i <= |ms|
        invariant chat.log == old(chat.log) + ps[..i]
      {
        chat.log := chat.log + [Sent(Prompt(ms[i].text), Keys(kb))];
        assert ps[..i + 1] == ps[..i] + [ps[i]];
        i := i + 1;
      }
      assert ps[..i] == ps;
    }

    /** `move_user`: stores the new level on the user (refused for a level that
        does not exist), then sends each of the level's prompts with its
        keyboard. */
    method MoveUser(name: string) returns (r: Result<(), Failure>)
      requires Valid()
      modifies user, users, chat
      ensures Valid()
      ensures user == null ==> r == Err(NoUser) && users.rows == old(users.rows) && chat.log == old(chat.log)
      ensures user != null ==> user.Snapshot() == old(user.Snapshot()).(currentLevel := name)
      ensures user != null ==> (r.Err? <==> user.id in old(users.rows) && !HasLevel(g, name))
      ensures user != null && r.Err? ==> r == Err(LevelRefused) && users.rows == old(users.rows) && chat.log == old(chat.log)
      ensures r.Ok? ==> Relevelled(old(users.rows), users.rows, user.id, Some(name))
      ensures r.Ok? && user.id in users.rows ==> users.rows[user.id] == old(users.rows)[user.id].(currentLevel := name)
      ensures r.Ok? ==> chat.log == old(chat.log) + Screen(g, name)
    {
      if user == null {
        return Err(NoUser);
      }
      var u := user.Update(users, g, [SetLevel(name)]);
      assert [SetLevel(name)][..0] == [];
      assert LevelsExist(g, [SetLevel(name)]) <==> HasLevel(g, name);
      if u.Err? {
        return Err(LevelRefused);
      }
      Render(GetMessages(g, name), GetButtons(g, name));
      r := Ok(());
    }

    /** `handle_start`: moves the user to "start" and then to "main", showing
        both screens. */
    method HandleStart() returns (r: Result<(), Failure>)
      requires Valid()
      modifies user, users, chat
      ensures Valid()
      ensures r.Ok? <==> user != null && (user.id !in old(users.rows) || (HasLevel(g, "start") && HasLevel(g, "main")))
      ensures r.Ok? ==> user.currentLevel == "main" && Relevelled(old(users.rows), users.rows, user.id, Some("main"))
      ensures r.Ok? ==> chat.log == old(chat.log) + Screen(g, "start") + Screen(g, "main")
      ensures user != null ==> Untouched(old(users.rows), users.rows, user.id)
      ensures user == null ==> r == Err(NoUser) && users.rows == old(users.rows) && chat.log == old(chat.log)
      ensures user != null && user.id in users.rows ==>
        users.rows[user.id] == old(users.rows)[user.id].(currentLevel := users.rows[user.id].currentLevel)
      ensures r.Err? && HasLevel(g, "main") ==> users.rows == old(users.rows) && chat.log == old(chat.log)
    {
      r := MoveUser("start");
      if r.Err? {
        return;
      }
      r := MoveUser("main");
    }

    /** `self.message.message.edit_text(...)`: only a pressed button carries the
        message to edit. */
    method Edit(body: Body, markup: Markup) returns (r: Result<(), Failure>)
      modifies chat
      ensures r.Ok? <==> message.CallbackQuery?
      ensures chat.log == old(chat.log) + (if r.Ok? then [Edited(body, markup)] else [])
    {
      if message.TextMessage? {
        return Err(NoAttribute);
      }
      chat.log := chat.log + [Edited(body, markup)];
      r := Ok(());
    }

    /** The loop of `show_habits`: one row per habit, checked on the load
        date; a habit whose period cannot be checked stops it. */
    method ListRows(hs: seq<Habit>) returns (r: Result<seq<seq<InlineButton>>, Error>)
      ensures Checkable(hs) ==> r == Ok(HabitRows(hs, store.completions, loadDay))
      ensures !Checkable(hs) ==> r == Err(UnboundStatement)
    {
      var rows := [];
      var i := 0;
      while i < |hs|
        invariant i <= |hs| && |rows| == i
        invariant Checkable(hs[..i])
        invariant forall j :: 0 <= j < i ==> rows[j] == ListRow(hs[j], CheckCompletion(hs[j], store.completions, loadDay).value)
      {
        var done := CheckCompletion(hs[i], store.completions, loadDay);
        if done.Err? {
          assert !Checkable(hs);
          return Err(done.error);
        }
        rows := rows + [ListRow(hs[i], done.value)];
        i := i + 1;
      }
      assert hs[..i] == hs;
      assert rows == HabitRows(hs, store.completions, loadDay);
      r := Ok(rows);
    }

    /** `show_habits`: lists the user's habits, checked on the load date. With
        `update == 'y'` it edits the pressed message; otherwise it sends a new
        message and remembers its id as the user's latest message. */
    method ShowHabits(update: string) returns (r: Result<(), Failure>)
      requires Valid()
      modifies user, users, chat
      ensures Valid()
      ensures user == null ==> r == Err(NoUser) && users.rows == old(users.rows) && chat.log == old(chat.log)
      ensures user != null ==> Untouched(old(users.rows), users.rows, user.id)
      ensures user != null ==>
        var screen := ListScreen(UserHabits(store.habits, store.nextId, user.id, None), store.completions, loadDay);
        && (screen.Err? ==> r == Err(HabitFailure(screen.error)) && chat.log == old(chat.log))
        && (screen.Ok? && update == "y" ==>
              && (r.Ok? <==> message.CallbackQuery?)
              && chat.log == old(chat.log) + (if r.Ok? then [Edited(screen.value.0, screen.value.1)] else []))
        && (screen.Ok? && update != "y" ==>
              && r.Ok?
              && chat.log == old(chat.log) + [Sent(screen.value.0, screen.value.1)]
              && user.latestMsgId == Some(|chat.log|)
              && (user.id in users.rows ==> users.rows[user.id] == old(users.rows)[user.id].(latestMsgId := Some(|chat.log|))))
      ensures user != null ==> user.currentLevel == old(user.currentLevel)
      ensures user != null && (r.Err? || update == "y") ==> user.Snapshot() == old(user.Snapshot()) && users.rows == old(users.rows)
      ensures r.Ok? ==> Relevelled(old(users.rows), users.rows, user.id, None)
    {
      if user == null {
        return Err(NoUser);
      }
      var hs := store.GetUserHabits(user.id, None);
      var markup: Markup;
      var body: Body;
      if |hs| == 0 {
        body, markup := NoHabitsYet, Inline([[InlineButton("Create text fixture", Payload("fixture", []))]]);
      } else {
        var rows := ListRows(hs);
        if rows.Err? {
          return Err(HabitFailure(rows.error));
        }
        body, markup := HabitTotal(|hs|), Inline(rows.value);
      }
      assert ListScreen(hs, store.completions, loadDay) == Ok((body, markup));
      if update == "y" {
        r := Edit(body, markup);
      } else {
        chat.log := chat.log + [Sent(body, markup)];
        var u := user.Update(users, g, [SetLatestMsgId(Some(|chat.log|))]);
        assert [SetLatestMsgId(Some(|chat.log|))][..0] == [];
        r := Ok(());
      }
    }

    /** `purge_msg`: deletes the user's latest message when one is recorded (an
        id of 0 counts as none) and forgets it. */
    method PurgeMsg() returns (r: Result<(), Failure>)
      requires Valid()
      modifies user, users, chat
      ensures Valid()
      ensures r.Ok? <==> user != null
      ensures user == null || !Recorded(old(user.latestMsgId)) ==>
        users.rows == old(users.rows) && chat.log == old(chat.log) && (user != null ==> user.Snapshot() == old(user.Snapshot()))
      ensures user != null && Recorded(old(user.latestMsgId)) ==>
        && chat.log == old(chat.log) + [Deleted(user.id, old(user.latestMsgId).value)]
        && user.Snapshot() == old(user.Snapshot()).(latestMsgId := None)
        && users.rows == if user.id in old(users.rows)
             then old(users.rows)[user.id := old(users.rows)[user.id].(latestMsgId := None)]
             else old(users.rows)
    {
      if user == null {
        return Err(NoUser);
      }
      if Recorded(user.latestMsgId) {
        chat.log := chat.log + [Deleted(user.id, user.latestMsgId.value)];
        var u := user.Update(users, g, [SetLatestMsgId(None)]);
        assert [SetLatestMsgId(None)][..0] == [];
      }
      r := Ok(());
    }

    /** `get_habit_name`: the message text becomes a new draft of the user,
        dated `loadDay` (a missing text violates the habit name's NOT NULL),
        then the user moves to choosing its period. */
    method GetHabitName() returns (r: Result<(), Failure>)
      requires Valid()
      modifies user, users, store, chat
      ensures Valid()
      ensures r.Ok? <==>
        message.TextMessage? && message.text.Some? && user != null && (user.id !in old(users.rows) || HasLevel(g, "new_habit_period"))
      ensures message.TextMessage? && message.text.Some? && user != null ==>
        && store.habits == old(store.habits)[old(store.nextId) := Habit(old(store.nextId), message.text.value, user.id, loadDay, None, false)]
        && store.nextId == old(store.nextId) + 1 && store.completions == old(store.completions)
      ensures !(message.TextMessage? && message.text.Some? && user != null) ==>
        unchanged(store) && users.rows == old(users.rows) && chat.log == old(chat.log)
      ensures user != null ==> Untouched(old(users.rows), users.rows, user.id)
      ensures r.Ok? ==> user.currentLevel == "new_habit_period" && Relevelled(old(users.rows), users.rows, user.id, Some("new_habit_period"))
      ensures r.Ok? ==> chat.log == old(chat.log) + Screen(g, "new_habit_period")
    {
      var text := TextOf(message);
      if text.Err? {
        return Err(text.error);
      }
      if user == null {
        return Err(NoUser);
      }
      if text.value.None? {
        return Err(NameMissing);
      }
      var id := store.New(text.value.value, user.id, loadDay);
      r := MoveUser("new_habit_period");
    }

    /** `delete_unfinished_habit`: deletes the user's drafts. */
    method DeleteUnfinishedHabit() returns (r: Result<(), Failure>)
      requires Valid()
      modifies store
      ensures Valid()
      ensures r.Ok? <==> user != null
      ensures r.Err? ==> unchanged(store)
      ensures r.Ok? ==> forall id :: id in store.habits <==> id in old(store.habits) && !IsDraftOf(old(store.habits)[id], user.id)
      ensures r.Ok? ==> forall id :: id in store.habits ==> store.habits[id] == old(store.habits)[id]
      ensures store.completions == old(store.completions) && store.nextId == old(store.nextId)
    {
      if user == null {
        return Err(NoUser);
      }
      store.DeleteUnfinished(user.id);
      r := Ok(());
    }

    /** `set_habit_period`: the message text becomes the period of the user's
        drafts (a missing text writes NULL over NULL, changing nothing), then the
        user goes back to the main menu. */
    method SetHabitPeriod() returns (r: Result<(), Failure>)
      requires Valid()
      modifies user, users, store, chat
      ensures Valid()
      ensures r.Ok? <==> message.TextMessage? && user != null && (user.id !in old(users.rows) || HasLevel(g, "main"))
      ensures store.habits.Keys == old(store.habits).Keys
      ensures message.TextMessage? && user != null ==> forall id :: id in store.habits ==>
        store.habits[id] == if message.text.Some? && IsDraftOf(old(store.habits)[id], user.id)
          then old(store.habits)[id].(period := message.text) else old(store.habits)[id]
      ensures !(message.TextMessage? && user != null) ==> store.habits == old(store.habits)
      ensures store.completions == old(store.completions) && store.nextId == old(store.nextId)
      ensures user != null ==> Untouched(old(users.rows), users.rows, user.id)
      ensures r.Ok? ==> user.currentLevel == "main" && Relevelled(old(users.rows), users.rows, user.id, Some("main"))
      ensures r.Ok? ==> chat.log == old(chat.log) + Screen(g, "main")
      ensures r.Err? && !(message.TextMessage? && user != null) ==> users.rows == old(users.rows) && chat.log == old(chat.log)
    {
      var text := TextOf(message);
      if text.Err? {
        return Err(text.error);
      }
      if user == null {
        return Err(NoUser);
      }
      if text.value.Some? {
        store.SetPeriod(text.value.value, user.id);
      }
      r := MoveUser("main");
    }

    /** `info`: edits the pressed message into the details of one of the
        user's habits: its name, start date, period, current and longest
        streak, and the buttons acting on it. */
    method Info(id: string) returns (r: Result<(), Failure>)
      modifies chat
      ensures r.Ok? <==>
        && user != null && Owned(store.habits, user.id, id).Some?
        && PeriodKind(Owned(store.habits, user.id, id).value.period).Some? && message.CallbackQuery?
      ensures user != null && ParseInt(id).None? ==> r == Err(HabitFailure(InvalidLiteral))
      ensures user != null && ParseInt(id).Some? && Owned(store.habits, user.id, id).None? ==> r == Err(HabitMissing)
      ensures r.Ok? ==> chat.log == old(chat.log) + [InfoScreen(Owned(store.habits, user.id, id).value, store.completions, today, loadDay)]
      ensures r.Err? ==> chat.log == old(chat.log)
    {
      if user == null {
        return Err(NoUser);
      }
      var found := store.GetUserHabit(user.id, id);
      if found.Err? {
        return Err(HabitFailure(found.error));
      }
      if found.value.None? {
        return Err(HabitMissing);
      }
      var h := found.value.value;
      assert Owned(store.habits, user.id, id) == Some(h);
      var streak := store.CalculateStreak(h, today);
      if streak.Err? {
        return Err(HabitFailure(streak.error));
      }
      var longest := store.CalculateLongestStreak(h, today);
      assert longest.Ok?;
      var done := CheckCompletion(h, store.completions, loadDay);
      if done.Err? {
        return Err(HabitFailure(done.error));
      }
      r := Edit(HabitInfo(h.name, h.created, h.period, streak.value, longest.value), Inline(InfoRows(h, done.value)));
    }

    /** `complete`: records a completion of one of the user's habits, dated
        with the load date, and edits the pressed message into the list. */
    method Complete(id: string) returns (r: Result<(), Failure>)
      requires Valid()
      modifies user, users, store, chat
      ensures Valid()
      ensures users.rows == old(users.rows) && (user != null ==> user.Snapshot() == old(user.Snapshot()))
      ensures store.habits == old(store.habits) && store.nextId == old(store.nextId)
      ensures user != null && Owned(store.habits, user.id, id).Some? ==>
        store.completions == old(store.completions) + [Completion(Owned(store.habits, user.id, id).value.id, loadDay)]
      ensures !(user != null && Owned(store.habits, user.id, id).Some?) ==>
        store.completions == old(store.completions) && chat.log == old(chat.log) && r.Err?
      ensures user != null && ParseInt(id).None? ==> r == Err(HabitFailure(InvalidLiteral))
      ensures user != null && ParseInt(id).Some? && Owned(store.habits, user.id, id).None? ==> r == Err(HabitMissing)
      ensures user != null && Owned(store.habits, user.id, id).Some? ==>
        var screen := ListScreen(UserHabits(store.habits, store.nextId, user.id, None), store.completions, loadDay);
        && (r.Ok? <==> screen.Ok? && message.CallbackQuery?)
        && chat.log == old(chat.log) + (if r.Ok? then [Edited(screen.value.0, screen.value.1)] else [])
    {
      if user == null {
        return Err(NoUser);
      }
      var found := store.GetUserHabit(user.id, id);
      if found.Err? {
        return Err(HabitFailure(found.error));
      }
      if found.value.None? {
        return Err(HabitMissing);
      }
      var h := found.value.value;
      var c := store.Complete(h, loadDay);
      assert c.Ok?;
      r := ShowHabits("y");
    }

    /** `star`: flips the star of one of the user's habits and edits the
        pressed message into its details. */
    method Star(id: string) returns (r: Result<(), Failure>)
      requires Valid()
      modifies store, chat
      ensures Valid()
      ensures store.completions == old(store.completions) && store.nextId == old(store.nextId)
      ensures user != null && Owned(old(store.habits), user.id, id).Some? ==>
        var h := Owned(old(store.habits), user.id, id).value;
        && store.habits == Restarred(old(store.habits), h.id, !h.starred)
        && Owned(store.habits, user.id, id) == Some(h.(starred := !h.starred))
        && (r.Ok? <==> PeriodKind(h.period).Some? && message.CallbackQuery?)
        && (r.Ok? ==> chat.log == old(chat.log) + [InfoScreen(h.(starred := !h.starred), store.completions, today, loadDay)])
      ensures !(user != null && Owned(old(store.habits), user.id, id).Some?) ==>
        store.habits == old(store.habits) && chat.log == old(chat.log) && r.Err?
      ensures user != null && ParseInt(id).None? ==> r == Err(HabitFailure(InvalidLiteral))
      ensures user != null && ParseInt(id).Some? && Owned(old(store.habits), user.id, id).None? ==> r == Err(HabitMissing)
    {
      if user == null {
        return Err(NoUser);
      }
      var found := store.GetUserHabit(user.id, id);
      if found.Err? {
        return Err(HabitFailure(found.error));
      }
      if found.value.None? {
        return Err(HabitMissing);
      }
      var h := found.value.value;
      var h' := store.Star(h);
      assert store.habits[h.id] == h';
      r := Info(id);
    }

    /** `delete`: deletes one of the user's habits with its completions and
        edits the pressed message into the list. */
    method Delete(id: string) returns (r: Result<(), Failure>)
      requires Valid()
      modifies user, users, store, chat
      ensures Valid()
      ensures users.rows == old(users.rows) && (user != null ==> user.Snapshot() == old(user.Snapshot()))
      ensures store.nextId == old(store.nextId)
      ensures user != null && Owned(old(store.habits), user.id, id).Some? ==>
        var h := Owned(old(store.habits), user.id, id).value;
        var screen := ListScreen(UserHabits(store.habits, store.nextId, user.id, None), store.completions, loadDay);
        && store.habits == old(store.habits) - {h.id}
        && store.completions == Without(old(store.completions), h.id)
        && (r.Ok? <==> screen.Ok? && message.CallbackQuery?)
        && chat.log == old(chat.log) + (if r.Ok? then [Edited(screen.value.0, screen.value.1)] else [])
      ensures !(user != null && Owned(old(store.habits), user.id, id).Some?) ==>
        unchanged(store) && chat.log == old(chat.log) && r.Err?
      ensures user != null && ParseInt(id).None? ==> r == Err(HabitFailure(InvalidLiteral))
      ensures user != null && ParseInt(id).Some? && Owned(old(store.habits), user.id, id).None? ==> r == Err(HabitMissing)
    {
      if user == null {
        return Err(NoUser);
      }
      var found := store.GetUserHabit(user.id, id);
      if found.Err? {
        return Err(HabitFailure(found.error));
      }
      if found.value.None? {
        return Err(HabitMissing);
      }
      var h := found.value.value;
      store.Delete(h);
      r := ShowHabits("y");
    }

    /** `fixture`: adds the five sample habits with their completions for the
        user (impossible on 29 February, which has no date a year back) and
        edits the pressed message into the list. */
    method Fixture() returns (r: Result<(), Failure>)
      requires Valid()
      modifies user, users, store, chat
      ensures Valid()
      ensures users.rows == old(users.rows) && (user != null ==> user.Snapshot() == old(user.Snapshot()))
      ensures user == null || (today.month == 2 && today.day == 29) ==>
        && store.habits == old(store.habits) && store.completions == old(store.completions)
        && store.nextId == old(store.nextId) && chat.log == old(chat.log) && r.Err?
      ensures user != null && !(today.month == 2 && today.day == 29) ==>
        var screen := ListScreen(UserHabits(store.habits, store.nextId, user.id, None), store.completions, loadDay);
        && store.nextId == old(store.nextId) + 5
        && store.habits == TestFixture.FixtureRows(old(store.habits), old(store.nextId), TestFixture.Plans(), user.id, TestFixture.YearBack(today).value)
        && store.completions == old(store.completions) + TestFixture.FixtureCompletions(old(store.nextId), TestFixture.PlanDates(TestFixture.Plans(), today))
        && (r.Ok? <==> screen.Ok? && message.CallbackQuery?)
        && chat.log == old(chat.log) + (if r.Ok? then [Edited(screen.value.0, screen.value.1)] else [])
    {
      if user == null {
        return Err(NoUser);
      }
      var made := TestFixture.CreateTestFixture(store, user.id, today);
      if made.Err? {
        return Err(FixtureDate);
      }
      r := ShowHabits("y");
    }

    /** The static `calculate_longest_streak`: the greatest longest streak
        among the habits and the first habit reaching it, or (0, None) when
        none has a streak. */
    method LongestAmong(hs: seq<Habit>) returns (r: Result<(nat, Option<Habit>), Failure>)
      ensures r.Err? <==> exists i :: 0 <= i < |hs| && LongestOf(hs[i], store.completions, today).Err?
      ensures r.Err? ==> r.error.HabitFailure?
      ensures r.Ok? ==> r.value == Best(hs, store.completions, today)
    {
      ghost var cs := store.completions;
      ghost var s := Scores(hs, cs, today);
      var best: nat := 0;
      var holder: Option<Habit> := None;
      ghost var at: Option<nat> := None;
      var i := 0;
      while i < |hs|
        invariant i <= |hs|
        invariant (best, at) == Champion(s, i)
        invariant holder == if at.Some? then Some(hs[at.value]) else None
        invariant forall j :: 0 <= j < i ==> LongestOf(hs[j], cs, today).Ok?
      {
        var l := store.CalculateLongestStreak(hs[i], today);
        if l.Err? {
          return Err(HabitFailure(l.error));
        }
        LongestOfCases(hs[i], cs, today, l);
        assert s[i] == l.value;
        if l.value > best {
          best, holder, at := l.value, Some(hs[i]), Some(i);
        }
        assert (best, at) == Champion(s, i + 1);
        i := i + 1;
      }
      r := Ok((best, holder));
    }

    /** One per-period part of `show_stats`. */
    method StatLineFor(hs: seq<Habit>, k: Kind) returns (line: Option<StatLine>)
      ensures line == StatLineOf(hs, k, store.completions, today)
    {
      OfKindScored(hs, k, store.completions, today);
      var b := LongestAmong(OfKind(hs, k));
      line := if b.value.1.Some? then Some(StatLine(k, b.value.1.value.name, b.value.0)) else None;
    }

    /** `show_stats`: sends the number of the user's habits and, per period,
        the habit with the longest streak, or a notice when there are none. */
    method ShowStats() returns (r: Result<(), Failure>)
      modifies chat
      ensures r.Ok? <==> user != null
      ensures r.Ok? ==>
        chat.log == old(chat.log) + [Sent(StatsScreen(UserHabits(store.habits, store.nextId, user.id, None), store.completions, today), Plain)]
      ensures r.Err? ==> chat.log == old(chat.log)
    {
      if user == null {
        return Err(NoUser);
      }
      var hs := store.GetUserHabits(user.id, None);
      if |hs| == 0 {
        chat.log := chat.log + [Sent(NoStats, Plain)];
        return Ok(());
      }
      var d := StatLineFor(hs, Daily);
      var w := StatLineFor(hs, Weekly);
      var m := StatLineFor(hs, Monthly);
      chat.log := chat.log + [Sent(Stats(|hs|, Lines([d, w, m])), Plain)];
      r := Ok(());
    }

    /** `getattr(self, name)(*args)`: an unknown name raises before anything
        happens, so does a wrong number of arguments; otherwise the action runs.
        Only `handle_start`, `move_user`, `get_habit_name` and
        `set_habit_period` move the user; no action touches other users. */
    method Dispatch(name: string, args: seq<string>) returns (r: Result<(), Failure>)
      requires Valid()
      modifies user, users, store, chat
      ensures Valid()
      ensures Parse(name).None? ==> r == Err(UnknownAction)
      ensures Parse(name).Some? && !Accepts(Parse(name).value, |args|) ==> r == Err(WrongArguments)
      ensures Parse(name).None? || !Accepts(Parse(name).value, |args|) ==>
        unchanged(users, store, chat) && (user != null ==> unchanged(user))
      ensures user != null ==> Untouched(old(users.rows), users.rows, user.id)
      ensures user == null ==> r.Err? && users.rows == old(users.rows)
      ensures r.Ok? ==> user != null && Parse(name).Some?
      ensures r.Ok? ==> Relevelled(old(users.rows), users.rows, user.id, Lands(Parse(name).value, args))
      ensures r.Ok? ==> user.currentLevel == Then(Some(old(user.currentLevel)), Lands(Parse(name).value, args)).value
    {
      var a := Parse(name);
      if a.None? {
        return Err(UnknownAction);
      }
      if !Accepts(a.value, |args|) {
        return Err(WrongArguments);
      }
      match a.value {
        case HandleStart => r := HandleStart();
        case MoveUser => r := MoveUser(args[0]);
        case ShowHabits => r := ShowHabits(if |args| == 0 then "n" else args[0]);
        case PurgeMsg => r := PurgeMsg();
        case GetHabitName => r := GetHabitName();
        case DeleteUnfinishedHabit => r := DeleteUnfinishedHabit();
        case SetHabitPeriod => r := SetHabitPeriod();
        case Info => r := Info(args[0]);
        case Complete => r := Complete(args[0]);
        case Star => r := Star(args[0]);
        case Delete => r := Delete(args[0]);
        case ShowStats => r := ShowStats();
        case Fixture => r := Fixture();
      }
    }

    /** `handle`: looks up the user's level and matches the text against its
        buttons. A match moves the user to the button's target and runs the
        button's action only; otherwise the level's own action, if any, runs
        where the user is. */
    method Handle() returns (r: Result<(), Failure>)
      requires Valid()
      modifies this, user, users, store, chat
      ensures Valid()
      ensures user == null ==> r == Err(NoUser) && unchanged(this, users, store, chat)
      ensures user != null ==> Untouched(old(users.rows), users.rows, user.id)
      ensures user != null && FromName(g, old(user.currentLevel)).Err? ==>
        r == Err(LevelLookup(FromName(g, old(user.currentLevel)).error)) && unchanged(this, user, users, store, chat)
      ensures user != null && FromName(g, old(user.currentLevel)).Ok? && message.CallbackQuery? ==>
        r == Err(NoAttribute) && unchanged(this, user, users, store, chat)
      ensures user != null && FromName(g, old(user.currentLevel)).Ok? && message.TextMessage? ==>
        var route := RouteOf(g, FromName(g, old(user.currentLevel)).value, message.text);
        && (route == Stay(None) ==> r == Ok(()) && unchanged(this, user, users, store, chat))
        && (r.Ok? ==> ran == old(ran) + Ran(route))
        && (r.Ok? ==> Relevelled(old(users.rows), users.rows, user.id, Moves(route)))
        && (r.Ok? ==> user.currentLevel == Final(route, old(user.currentLevel)))
        && (r.Ok? && route.Move? && route.callback.None? ==>
              chat.log == old(chat.log) + Screen(g, route.target) && unchanged(store))
    {
      if user == null {
        return Err(NoUser);
      }
      var level := FromName(g, user.currentLevel);
      if level.Err? {
        return Err(LevelLookup(level.error));
      }
      var text := TextOf(message);
      if text.Err? {
        return Err(text.error);
      }
      var button := CheckButton(g, level.value.name, text.value);
      if button.Some? {
        r := MoveUser(button.value.target);
        if r.Err? {
          return;
        }
        if button.value.callback.Some? {
          ran := ran + [button.value.callback.value];
          r := Dispatch(button.value.callback.value, []);
        }
        return;
      }
      if level.value.callback.Some? {
        ran := ran + [level.value.callback.value];
        r := Dispatch(level.value.callback.value, []);
      } else {
        r := Ok(());
      }
    }
  }
}
