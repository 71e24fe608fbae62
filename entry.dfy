/** The bot's three update handlers (main.py): `/start`, every other text
    message, and a pressed inline button. Each builds a `Handler` for the
    sender and runs one of its actions. */
module Entry {

  import opened Wrappers
  import opened Dates
  import opened Texts
  import opened Dialogue
  import opened Habits
  import opened Users
  import opened Actions
  import opened Conversation

  /** The call a button payload names, `name|arg|...`, when `getattr` finds
      the method and it takes that many arguments. */
  function Call(data: string): (r: Option<(Action, seq<string>)>)
    ensures r.Some? ==> Name(r.value.0) == Split(data, '|')[0] && r.value.1 == Split(data, '|')[1..]
    ensures r.Some? ==> Accepts(r.value.0, |r.value.1|)
  {
    var pieces := Split(data, '|');
    match Parse(pieces[0])
    case None => None
    case Some(a) => if Accepts(a, |pieces| - 1) then Some((a, pieces[1..])) else None
  }

  /** A payload built from an action's name and separator-free arguments calls
      that action with those arguments. */
  lemma {:induction false} PayloadCalls(a: Action, args: seq<string>)
    requires '|' !in Name(a) && forall x :: x in args ==> '|' !in x
    requires Accepts(a, |args|)
    ensures Call(Payload(Name(a), args)) == Some((a, args))
  {
    SplitJoin([Name(a)] + args, '|');
    ParseName(a);
    assert ([Name(a)] + args)[1..] == args;
  }

  /** A decimal id has no separator in it. */
  lemma IdTextClean(h: Habit)
    ensures '|' !in IdText(h)
  {
    var s := IdText(h);
    forall i | 0 <= i < |s|
      ensures s[i] != '|'
    {
      assert IsDigit(s[i]);
    }
  }

  /** A payload naming a habit calls the action on that habit's id, which
      reads back as the id. */
  lemma IdPayloadCalls(a: Action, h: Habit)
    requires a == Info || a == Complete || a == Star || a == Delete
    ensures Call(Payload(Name(a), [IdText(h)])) == Some((a, [IdText(h)]))
    ensures ParseInt(IdText(h)) == Some(h.id)
  {
    IdTextClean(h);
    PayloadCalls(a, [IdText(h)]);
    ParseIntRoundTrip(h.id);
  }

  /** `show_habits` finds a listed habit again from the id in its payload,
      and no other habit. */
  lemma OwnedFindsListed(habits: map<nat, Habit>, h: Habit)
    requires h.id in habits && habits[h.id] == h
    ensures Owned(habits, h.userId, IdText(h)) == Some(h)
    ensures forall u :: u != h.userId ==> Owned(habits, u, IdText(h)) == None
  {
    ParseIntRoundTrip(h.id);
  }

  /** Every button of the habit list calls `info` on its habit, and the button
      of the empty list calls `fixture`. */
  lemma ListScreenCalls(hs: seq<Habit>, cs: seq<Completion>, day: Date)
    requires ListScreen(hs, cs, day).Ok?
    ensures var m := ListScreen(hs, cs, day).value.1;
      m.Inline? && forall i :: 0 <= i < |m.rows| ==> |m.rows[i]| == 1
    ensures |hs| == 0 ==> Call(ListScreen(hs, cs, day).value.1.rows[0][0].data) == Some((Fixture, []))
    ensures forall i :: 0 <= i < |hs| ==>
      Call(ListScreen(hs, cs, day).value.1.rows[i][0].data) == Some((Info, [IdText(hs[i])]))
  {
    if |hs| == 0 {
      PayloadCalls(Fixture, []);
    } else {
      forall i | 0 <= i < |hs|
        ensures Call(ListScreen(hs, cs, day).value.1.rows[i][0].data) == Some((Info, [IdText(hs[i])]))
      {
        IdPayloadCalls(Info, hs[i]);
      }
    }
  }

  /** The payloads under a habit's details, in order. */
  lemma InfoRowsData(h: Habit, done: bool)
    ensures var rows := InfoRows(h, done); var d := if done then 0 else 1;
      && |rows| == d + 2 && |rows[d]| == 2 && |rows[d + 1]| == 1
      && (!done ==> |rows[0]| == 1 && rows[0][0].data == Payload("complete", [IdText(h)]))
      && rows[d][0].data == Payload("star", [IdText(h)])
      && rows[d][1].data == Payload("delete", [IdText(h)])
      && rows[d + 1][0].data == Payload("show_habits", ["y"])
  {
  }

  /** Every button under a habit's details calls `complete`, `star` or `delete`
      on that habit, or lists the habits again in place. */
  lemma InfoRowsCall(h: Habit, done: bool)
    ensures forall i, j :: 0 <= i < |InfoRows(h, done)| && 0 <= j < |InfoRows(h, done)[i]| ==>
      var c := Call(InfoRows(h, done)[i][j].data);
      || c == Some((Complete, [IdText(h)]))
      || c == Some((Star, [IdText(h)]))
      || c == Some((Delete, [IdText(h)]))
      || c == Some((ShowHabits, ["y"]))
  {
    var rows: seq<seq<InlineButton>> := InfoRows(h, done);
    var d := if done then 0 else 1;
    InfoRowsData(h, done);
    forall i, j | 0 <= i < |rows| && 0 <= j < |rows[i]|
      ensures var c := Call(rows[i][j].data);
        || c == Some((Complete, [IdText(h)]))
        || c == Some((Star, [IdText(h)]))
        || c == Some((Delete, [IdText(h)]))
        || c == Some((ShowHabits, ["y"]))
    {
      if i < d {
        IdPayloadCalls(Complete, h);
      } else if i == d && j == 0 {
        IdPayloadCalls(Star, h);
      } else if i == d {
        IdPayloadCalls(Delete, h);
      } else {
        PayloadCalls(ShowHabits, ["y"]);
      }
    }
  }

  /** `respond_start`: registers the sender at "main" unless they have a row
      already, then runs `handle_start`. It succeeds exactly when the graph
      has both "start" and "main"; the sender then stands at "main" having
      seen both screens. */
  method RespondStart(users: UserTable, store: HabitStore, chat: Chat, g: Graph, from: int, username: Option<string>,
                      message: Incoming, today: Date, loadDay: Date) returns (r: Result<(), Failure>)
    requires users.Valid() && store.Valid()
    modifies users, chat
    ensures users.Valid()
    ensures r.Ok? <==> HasLevel(g, "start") && HasLevel(g, "main")
    ensures users.rows.Keys == old(users.rows).Keys + (if HasLevel(g, MainLevel) then {from} else {})
    ensures forall x :: x in old(users.rows) && x != from ==> users.rows[x] == old(users.rows)[x]
    ensures from !in old(users.rows) && from in users.rows ==>
      users.rows[from] == Row(from, username, users.importDate, MainLevel, None)
    ensures r.Ok? ==> users.rows[from].currentLevel == "main"
    ensures r.Ok? ==> chat.log == old(chat.log) + Screen(g, "start") + Screen(g, "main")
  {
    var u := users.New(from, username, g);
    assert u != null ==> u.id == from;
    var h := new Handler(users, store, chat, g, u, message, today, loadDay);
    r := h.HandleStart();
  }

  /** `respond`: an unknown sender is registered as by `/start`; when that
      fails the event ends there, and otherwise the handler is still built
      with no user, so `handle` fails for them. A known sender's text is
      routed from their level and the sender ends where the route leads. */
  method Respond(users: UserTable, store: HabitStore, chat: Chat, g: Graph, from: int, username: Option<string>,
                 message: Incoming, today: Date, loadDay: Date) returns (r: Result<(), Failure>)
    requires users.Valid() && store.Valid()
    modifies users, store, chat
    ensures users.Valid() && store.Valid()
    ensures from !in old(users.rows) ==> r.Err?
    ensures from !in old(users.rows) && HasLevel(g, "start") && HasLevel(g, MainLevel) ==> r == Err(NoUser)
    ensures from !in old(users.rows) && HasLevel(g, MainLevel) ==>
      users.rows == old(users.rows)[from := Row(from, username, users.importDate, MainLevel, None)]
    ensures from !in old(users.rows) && !HasLevel(g, MainLevel) ==> users.rows == old(users.rows)
    ensures from in old(users.rows) ==> Untouched(old(users.rows), users.rows, from)
    ensures from in old(users.rows) && FromName(g, old(users.rows)[from].currentLevel).Ok? && message.TextMessage? && r.Ok? ==>
      var route := RouteOf(g, FromName(g, old(users.rows)[from].currentLevel).value, message.text);
      Relevelled(old(users.rows), users.rows, from, Moves(route))
  {
    var u := users.FromId(from);
    if u == null {
      var started := RespondStart(users, store, chat, g, from, username, message, today, loadDay);
      var expected := if HasLevel(g, MainLevel)
        then old(users.rows)[from := Row(from, username, users.importDate, MainLevel, None)]
        else old(users.rows);
      assert users.rows.Keys == expected.Keys;
      assert forall x :: x in expected ==> users.rows[x] == expected[x];
      assert users.rows == expected;
      if started.Err? {
        return started;
      }
    }
    var h := new Handler(users, store, chat, g, u, message, today, loadDay);
    r := h.Handle();
  }

  /** `respond_inline`: splits the payload at '|' and calls the named action
      with the remaining pieces. An unknown name or a wrong number of pieces
      fails before anything changes; otherwise only the sender's row may
      change, and only the sender's level, to where the action lands. */
  method RespondInline(users: UserTable, store: HabitStore, chat: Chat, g: Graph, from: int, data: string,
                       today: Date, loadDay: Date) returns (r: Result<(), Failure>)
    requires users.Valid() && store.Valid()
    modifies users, store, chat
    ensures users.Valid() && store.Valid()
    ensures Call(data).None? ==> r.Err? && unchanged(users, store, chat)
    ensures r.Ok? ==> from in old(users.rows) && Call(data).Some?
    ensures from !in old(users.rows) ==> r.Err? && users.rows == old(users.rows)
    ensures Untouched(old(users.rows), users.rows, from)
    ensures r.Ok? ==> Relevelled(old(users.rows), users.rows, from, Lands(Call(data).value.0, Call(data).value.1))
  {
    var u := users.FromId(from);
    var pieces := Split(data, '|');
    var h := new Handler(users, store, chat, g, u, CallbackQuery(data), today, loadDay);
    r := h.Dispatch(pieces[0], pieces[1..]);
  }
}
