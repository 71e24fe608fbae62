/** The names a button or level callback, or an inline payload, can give to
    `getattr` on a `Handler` (handler.py): the handler's action methods, with
    the number of positional string arguments each accepts. */
module Actions {

  import opened Wrappers

  datatype Action =
    | HandleStart
    | MoveUser
    | ShowHabits
    | PurgeMsg
    | GetHabitName
    | DeleteUnfinishedHabit
    | SetHabitPeriod
    | Info
    | Complete
    | Star
    | Delete
    | ShowStats
    | Fixture

  /** The method's name in handler.py. */
  function Name(a: Action): string {
    match a
    case HandleStart => "handle_start"
    case MoveUser => "move_user"
    case ShowHabits => "show_habits"
    case PurgeMsg => "purge_msg"
    case GetHabitName => "get_habit_name"
    case DeleteUnfinishedHabit => "delete_unfinished_habit"
    case SetHabitPeriod => "set_habit_period"
    case Info => "info"
    case Complete => "complete"
    case Star => "star"
    case Delete => "delete"
    case ShowStats => "show_stats"
    case Fixture => "fixture"
  }

  /** `getattr(handler, name)`: the action of that name, or nothing (the
      `AttributeError` case). */
  function Parse(name: string): (r: Option<Action>)
    ensures r.Some? ==> Name(r.value) == name
  {
    if name == "handle_start" then Some(HandleStart)
    else if name == "move_user" then Some(MoveUser)
    else if name == "show_habits" then Some(ShowHabits)
    else if name == "purge_msg" then Some(PurgeMsg)
    else if name == "get_habit_name" then Some(GetHabitName)
    else if name == "delete_unfinished_habit" then Some(DeleteUnfinishedHabit)
    else if name == "set_habit_period" then Some(SetHabitPeriod)
    else if name == "info" then Some(Info)
    else if name == "complete" then Some(Complete)
    else if name == "star" then Some(Star)
    else if name == "delete" then Some(Delete)
    else if name == "show_stats" then Some(ShowStats)
    else if name == "fixture" then Some(Fixture)
    else None
  }

  /** Every action is found under its own name, so names are distinct and
      `Parse` fails only on names that are no action's. */
  lemma ParseName(a: Action)
    ensures Parse(Name(a)) == Some(a)
  {
  }

  lemma ParseFailsOnlyOnStrangers(name: string)
    requires Parse(name).None?
    ensures forall a :: Name(a) != name
  {
    forall a
      ensures Name(a) != name
    {
      ParseName(a);
    }
  }

  /** Fewest positional arguments the method takes. */
  function MinArgs(a: Action): nat {
    match a
    case MoveUser | Info | Complete | Star | Delete => 1
    case _ => 0
  }

  /** Most positional arguments the method takes (`show_habits` has the
      optional `update`). */
  function MaxArgs(a: Action): nat {
    match a
    case MoveUser | Info | Complete | Star | Delete | ShowHabits => 1
    case _ => 0
  }

  /** Whether calling the method with `n` positional arguments avoids a
      `TypeError`. */
  predicate Accepts(a: Action, n: nat) {
    MinArgs(a) <= n <= MaxArgs(a)
  }
}
