/** The dialogue graph `create_basic_state` (utils.py) writes into an empty
    database: the screens of the bot, their prompts and the buttons between
    them. */
module Seed {

  import opened Wrappers
  import opened Dialogue
  import Actions

  function BasicLevels(): seq<Level> {
    [ Level("start", None),
      Level("main", None),
      Level("new_habit", Some("get_habit_name")),
      Level("my_habits", None),
      Level("new_habit_period", None),
      Level("habit_created", None),
      Level("my_stats", None) ]
  }

  /** Every prompt keeps the default `order` of 1. */
  function BasicMessages(): seq<Message> {
    [ Message("start", "Welcome to Habbiton, a habit tracking app!", 1),
      Message("main", "Main menu", 1),
      Message("new_habit", "Enter new habit's description", 1),
      Message("my_habits", "List of your habits:", 1),
      Message("new_habit_period", "Chose habit period", 1),
      Message("habit_created", "New habit created successfully", 1),
      Message("my_stats", "Here's you stats:", 1) ]
  }

  function BasicButtons(): seq<Button> {
    [ Button("main", "my_habits", "My habits", Some("show_habits"), Some(2)),
      Button("main", "my_stats", "My stats", Some("show_stats"), Some(3)),
      Button("main", "new_habit", "New habit", Some("delete_unfinished_habit"), Some(1)),
      Button("my_habits", "main", "Back", Some("purge_msg"), Some(1)),
      Button("my_stats", "main", "Back", None, Some(1)),
      Button("new_habit", "main", "Back", None, Some(1)),
      Button("new_habit_period", "habit_created", "Monthly", Some("set_habit_period"), Some(3)),
      Button("new_habit_period", "habit_created", "Weekly", Some("set_habit_period"), Some(2)),
      Button("new_habit_period", "habit_created", "Daily", Some("set_habit_period"), Some(1)),
      Button("new_habit_period", "new_habit", "Back", Some("delete_unfinished_habit"), Some(4)) ]
  }

  /** `create_basic_state`. */
  function BasicState(): Graph {
    Graph(BasicLevels(), BasicMessages(), BasicButtons())
  }

  /** Level names are pairwise distinct. */
  lemma LevelNamesDistinct()
    ensures forall i, j :: 0 <= i < j < |BasicLevels()| ==> BasicLevels()[i].name != BasicLevels()[j].name
  {
    var ls := BasicLevels();
    assert |ls[0].name| == 5 && |ls[1].name| == 4 && |ls[2].name| == 9 && |ls[3].name| == 9;
    assert |ls[4].name| == 16 && |ls[5].name| == 13 && |ls[6].name| == 8;
    assert ls[2].name[0] != ls[3].name[0];
  }

  /** The `k`-th prompt belongs to the `k`-th level. */
  lemma PromptsAlign()
    ensures |BasicMessages()| == |BasicLevels()|
    ensures forall k :: 0 <= k < |BasicMessages()| ==> BasicMessages()[k].levelName == BasicLevels()[k].name
  {
  }

  /** The names the seeded buttons use. */
  predicate ButtonLevelName(name: string) {
    name == "main" || name == "my_habits" || name == "my_stats" || name == "new_habit"
    || name == "new_habit_period" || name == "habit_created"
  }

  /** Each name a button uses is a seeded level. */
  lemma ButtonLevelsSeeded(name: string)
    requires ButtonLevelName(name)
    ensures HasLevel(BasicState(), name)
  {
    var ls := BasicState().levels;
    if name == "main" { assert ls[1].name == name; }
    else if name == "new_habit" { assert ls[2].name == name; }
    else if name == "my_habits" { assert ls[3].name == name; }
    else if name == "new_habit_period" { assert ls[4].name == name; }
    else if name == "habit_created" { assert ls[5].name == name; }
    else { assert ls[6].name == name; }
  }

  /** Every button leaves a seeded level and leads to one. */
  lemma ButtonEndsExist()
    ensures forall b :: b in BasicButtons() ==> HasLevel(BasicState(), b.current) && HasLevel(BasicState(), b.target)
  {
    forall b | b in BasicButtons()
      ensures HasLevel(BasicState(), b.current) && HasLevel(BasicState(), b.target)
    {
      assert ButtonLevelName(b.current) && ButtonLevelName(b.target);
      ButtonLevelsSeeded(b.current);
      ButtonLevelsSeeded(b.target);
    }
  }

  /** Labels are distinct among the buttons of each level. */
  lemma LabelsDistinct()
    ensures forall i, j :: 0 <= i < j < |BasicButtons()| && BasicButtons()[i].current == BasicButtons()[j].current ==>
      BasicButtons()[i].text != BasicButtons()[j].text
  {
    var bs := BasicButtons();
    assert |bs[0].current| == 4 && |bs[3].current| == 9 && |bs[4].current| == 8 && |bs[5].current| == 9 && |bs[6].current| == 16;
    assert bs[3].current[0] != bs[5].current[0];
    assert |bs[0].text| == 9 && |bs[1].text| == 8 && bs[0].text[0] != bs[2].text[0];
    assert |bs[6].text| == 7 && |bs[7].text| == 6 && |bs[8].text| == 5 && |bs[9].text| == 4;
  }

  /** The seeded graph has distinct level names, every prompt and button
      endpoint names a seeded level, and labels are distinct per level. */
  lemma BasicStateWellFormed()
    ensures WellFormed(BasicState())
  {
    var g := BasicState();
    LevelNamesDistinct();
    PromptsAlign();
    forall m | m in g.messages
      ensures HasLevel(g, m.levelName)
    {
      var k :| 0 <= k < |g.messages| && g.messages[k] == m;
      assert BasicLevels()[k] in g.levels;
    }
    ButtonEndsExist();
    LabelsDistinct();
  }

  /** Seven levels are seeded, and only "new_habit" has a default action,
      `get_habit_name`. */
  lemma SeededLevels()
    ensures |BasicState().levels| == 7
    ensures forall l :: l in BasicState().levels && l.callback.Some? ==>
      l.name == "new_habit" && l.callback == Some("get_habit_name")
  {
  }

  /** Each seeded level has exactly one prompt. */
  lemma OnePromptEach(name: string)
    requires HasLevel(BasicState(), name)
    ensures |GetMessages(BasicState(), name)| == 1
    ensures GetMessages(BasicState(), name)[0].levelName == name
  {
    var g := BasicState();
    var ms := BasicMessages();
    var k :| 0 <= k < |g.levels| && g.levels[k].name == name;
    LevelNamesDistinct();
    PromptsAlign();
    FilterSingle(ms, (m: Message) => m.levelName == name, k);
    var r := GetMessages(g, name);
    assert multiset(r) == multiset{ms[k]};
    assert |r| == |multiset(r)|;
    assert r[0] in multiset(r);
  }

  /** Every action the seed names is a handler method that can be called
      with no arguments, as `handle` calls it. */
  lemma SeededCallbacksAreActions()
    ensures forall k :: 0 <= k < |BasicLevels()| && BasicLevels()[k].callback.Some? ==>
      var a := Actions.Parse(BasicLevels()[k].callback.value); a.Some? && Actions.Accepts(a.value, 0)
    ensures forall k :: 0 <= k < |BasicButtons()| && BasicButtons()[k].callback.Some? ==>
      var a := Actions.Parse(BasicButtons()[k].callback.value); a.Some? && Actions.Accepts(a.value, 0)
  {
    Actions.ParseName(Actions.GetHabitName);
    Actions.ParseName(Actions.ShowHabits);
    Actions.ParseName(Actions.ShowStats);
    Actions.ParseName(Actions.DeleteUnfinishedHabit);
    Actions.ParseName(Actions.PurgeMsg);
    Actions.ParseName(Actions.SetHabitPeriod);
  }

  /** On the main menu, "My habits" leads to "my_habits" and lists the habits. */
  lemma MainMenuSelects()
    ensures CheckButton(BasicState(), "main", Some("My habits")) == Some(BasicButtons()[0])
    ensures BasicButtons()[0].target == "my_habits" && BasicButtons()[0].callback == Some("show_habits")
  {
    BasicStateWellFormed();
    CheckButtonSelects(BasicState(), BasicButtons()[0]);
  }

  /** Only the first three seeded buttons leave the main menu. */
  lemma MainButtons()
    ensures ButtonsOf(BasicState(), "main") == [BasicButtons()[0], BasicButtons()[1], BasicButtons()[2]]
  {
    var bs := BasicButtons();
    var name := "main";
    var p := (b: Button) => b.current == name;
    assert |bs[3].current| == 9 && |bs[4].current| == 8 && |bs[5].current| == 9 && |bs[6].current| == 16;
    FilterPrefix(bs, p, 3);
    TakeThree(bs);
  }

  lemma TakeThree<T>(s: seq<T>)
    requires |s| >= 3
    ensures s[..3] == [s[0], s[1], s[2]]
  {
  }

  /** The main menu reads New habit, My habits, My stats from top to bottom. */
  lemma MainMenuOrder()
    ensures GetButtons(BasicState(), "main") ==
      Reply([BasicButtons()[2].text, BasicButtons()[0].text, BasicButtons()[1].text])
  {
    var bs := BasicButtons();
    MainButtons();
    MenuOfThree(BasicState(), "main", bs[0], bs[1], bs[2]);
  }

  /** Three buttons with orders 2, 3 and 1 are shown as the third, the first,
      the second. */
  lemma MenuOfThree(g: Graph, name: string, b0: Button, b1: Button, b2: Button)
    requires ButtonsOf(g, name) == [b0, b1, b2]
    requires b0.order == Some(2) && b1.order == Some(3) && b2.order == Some(1)
    ensures GetButtons(g, name) == Reply([b2.text, b0.text, b1.text])
  {
    var sorted := SortBy(ButtonsOf(g, name), ButtonRank);
    SortThree(b0, b1, b2);
    LabelsThree(b2, b0, b1);
    assert |sorted| == 3;
  }

  lemma LabelsThree(x: Button, y: Button, z: Button)
    ensures Labels([x, y, z]) == [x.text, y.text, z.text]
  {
  }

  lemma SortThree(b0: Button, b1: Button, b2: Button)
    requires b0.order == Some(2) && b1.order == Some(3) && b2.order == Some(1)
    ensures SortBy([b0, b1, b2], ButtonRank) == [b2, b0, b1]
  {
    var s := [b0, b1, b2];
    assert s[1..] == [b1, b2] && s[1..][1..] == [b2] && [b2][1..] == [];
    assert SortBy([b2], ButtonRank) == [b2];
    assert Insert(b1, [b2], ButtonRank) == [b2, b1];
    assert SortBy([b1, b2], ButtonRank) == [b2, b1];
    assert [b2, b1][1..] == [b1];
    assert Insert(b0, [b1], ButtonRank) == [b0, b1];
    assert Insert(b0, [b2, b1], ButtonRank) == [b2, b0, b1];
  }
}
