/** The habit-creation dialogue of the seeded graph (utils.py), walked
    through `handle`'s routing: which button or level action each input
    selects, and where the user ends. */
module CreationDialogue {

  import opened Wrappers
  import opened Periods
  import opened Dialogue
  import opened Actions
  import opened Conversation
  import Seed

  /** Creating a habit in the seeded graph, step one: on the main menu "New
      habit" leads to "new_habit" and clears unfinished drafts. */
  lemma NewHabitChosen()
    ensures RouteOf(Seed.BasicState(), Seed.BasicLevels()[1], Some("New habit")) == Move("new_habit", Some("delete_unfinished_habit"))
    ensures Final(RouteOf(Seed.BasicState(), Seed.BasicLevels()[1], Some("New habit")), "main") == "new_habit"
  {
    NewHabitRoute();
    ClearingEnds();
  }

  lemma ClearingEnds()
    ensures Final(Move("new_habit", Some("delete_unfinished_habit")), "main") == "new_habit"
  {
    ParseName(DeleteUnfinishedHabit);
  }

  lemma NewHabitRoute()
    ensures RouteOf(Seed.BasicState(), Seed.BasicLevels()[1], Some("New habit")) == Move("new_habit", Some("delete_unfinished_habit"))
  {
    var g, b := Seed.BasicState(), Seed.BasicButtons()[2];
    assert Seed.BasicLevels()[1] == Level("main", None);
    assert b.current == "main" && b.text == "New habit";
    assert b.target == "new_habit" && b.callback == Some("delete_unfinished_habit");
    assert CheckButton(g, b.current, Some(b.text)) == Some(b) by {
      Seed.BasicStateWellFormed();
      CheckButtonSelects(g, b);
    }
  }

  /** Step two: on "new_habit" any text but "Back" is the habit's name; the
      level's own action stores the draft and moves on to the period. */
  lemma HabitNamed(t: string)
    requires t != "Back"
    ensures RouteOf(Seed.BasicState(), Seed.BasicLevels()[2], Some(t)) == Stay(Some("get_habit_name"))
    ensures Final(RouteOf(Seed.BasicState(), Seed.BasicLevels()[2], Some(t)), "new_habit") == "new_habit_period"
  {
    HabitNameRoute(t);
    NamingEnds();
  }

  lemma NamingEnds()
    ensures Final(Stay(Some("get_habit_name")), "new_habit") == "new_habit_period"
  {
    ParseName(GetHabitName);
  }

  lemma HabitNameRoute(t: string)
    requires t != "Back"
    ensures RouteOf(Seed.BasicState(), Seed.BasicLevels()[2], Some(t)) == Stay(Some("get_habit_name"))
  {
    assert Seed.BasicLevels()[2] == Level("new_habit", Some("get_habit_name"));
    assert CheckButton(Seed.BasicState(), "new_habit", Some(t)) == None by {
      var bs := Seed.BasicButtons();
      var p := (b: Button) => b.current == "new_habit" && b.text == t;
      forall i | 0 <= i < |bs|
        ensures !p(bs[i])
      {
        if i == 5 {
          assert bs[i].text == "Back";
        } else if i < 3 {
          assert |bs[i].current| == 4;
        } else if i == 3 {
          assert bs[i].current[0] != 'n';
        } else if i == 4 {
          assert |bs[i].current| == 8;
        } else {
          assert |bs[i].current| == 16;
        }
      }
      FilterNone(bs, p);
    }
  }

  /** Step three: on "new_habit_period" each of the three period labels sets
      the period of the draft, passes "habit_created" and ends on the main
      menu. */
  lemma PeriodChosen(k: Kind)
    ensures RouteOf(Seed.BasicState(), Seed.BasicLevels()[4], Some(KindName(k))) == Move("habit_created", Some("set_habit_period"))
    ensures Final(RouteOf(Seed.BasicState(), Seed.BasicLevels()[4], Some(KindName(k))), "new_habit_period") == "main"
  {
    PeriodRoute(k);
    PeriodEnds();
  }

  lemma PeriodEnds()
    ensures Final(Move("habit_created", Some("set_habit_period")), "new_habit_period") == "main"
  {
    ParseName(SetHabitPeriod);
  }

  lemma PeriodRoute(k: Kind)
    ensures RouteOf(Seed.BasicState(), Seed.BasicLevels()[4], Some(KindName(k))) == Move("habit_created", Some("set_habit_period"))
  {
    var i := match k case Daily => 8 case Weekly => 7 case Monthly => 6;
    assert Seed.BasicButtons()[i].text == KindName(k);
    PeriodButton(i);
  }

  lemma PeriodButton(i: nat)
    requires 6 <= i <= 8
    ensures RouteOf(Seed.BasicState(), Seed.BasicLevels()[4], Some(Seed.BasicButtons()[i].text)) == Move("habit_created", Some("set_habit_period"))
  {
    var g, b := Seed.BasicState(), Seed.BasicButtons()[i];
    assert Seed.BasicLevels()[4] == Level("new_habit_period", None);
    assert b.current == "new_habit_period" && b.target == "habit_created" && b.callback == Some("set_habit_period");
    assert CheckButton(g, b.current, Some(b.text)) == Some(b) by {
      Seed.BasicStateWellFormed();
      CheckButtonSelects(g, b);
    }
  }
}
