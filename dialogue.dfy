/** The dialogue graph of models/state.py: screens (`levels`), the prompts
    shown on entering one (`messages`) and the labelled choices leading out of
    one (`buttons`), with the read-only queries the conversation engine makes
    on them. The tables are sequences of rows in insertion order. */
module Dialogue {

  import opened Wrappers

  /** A row of `levels`: its name is the primary key; `callback` names the
      handler action run for input that matches no button. */
  datatype Level = Level(name: string, callback: Option<string>)

  /** A row of `messages` (its serial id plays no part); `order` defaults to 1. */
  datatype Message = Message(levelName: string, text: string, order: int)

  /** A row of `buttons`: an edge `current -> target` with a label and an
      optional action; `order` may be NULL. */
  datatype Button = Button(current: string, target: string, text: string, callback: Option<string>, order: Option<int>)

  datatype Graph = Graph(levels: seq<Level>, messages: seq<Message>, buttons: seq<Button>)

  /** The reply markup shown under a prompt: one label per row, or the marker
      that removes the keyboard. */
  datatype Keyboard = Reply(labels: seq<string>) | Remove

  /** What `scalar_one()` raises when the query does not find exactly one row. */
  datatype QueryError = NoResultFound | MultipleResultsFound

  /** An `ORDER BY` key. In ascending order PostgreSQL puts NULL after every
      value. */
  datatype Rank = Value(v: int) | Null

  predicate RankLe(a: Rank, b: Rank) {
    b.Null? || (a.Value? && a.v <= b.v)
  }

  function MessageRank(m: Message): Rank {
    Value(m.order)
  }

  function ButtonRank(b: Button): Rank {
    if b.order.Some? then Value(b.order.value) else Null
  }

  /** A `WHERE` clause: the rows satisfying `p`, in table order. */
  function Filter<T(!new)>(s: seq<T>, p: T -> bool): (r: seq<T>)
    ensures forall x :: x in r <==> x in s && p(x)
  {
    if |s| == 0 then []
    else if p(s[0]) then [s[0]] + Filter(s[1..], p)
    else Filter(s[1..], p)
  }

  /** Two positions of the table that pass the filter give two rows. */
  lemma {:induction false} FilterTwoFromPositions<T(!new)>(s: seq<T>, p: T -> bool, i: nat, j: nat)
    requires i < j < |s| && p(s[i]) && p(s[j])
    ensures |Filter(s, p)| >= 2
  {
    if i == 0 {
      assert s[j] in s[1..];
      assert s[j] in Filter(s[1..], p);
    } else {
      FilterTwoFromPositions(s[1..], p, i - 1, j - 1);
    }
  }

  /** Two rows that pass the filter come from two positions of the table. */
  lemma {:induction false} FilterTwoPositions<T(!new)>(s: seq<T>, p: T -> bool)
    requires |Filter(s, p)| >= 2
    ensures exists i, j :: 0 <= i < j < |s| && p(s[i]) && p(s[j])
  {
    var rest := Filter(s[1..], p);
    if p(s[0]) {
      assert rest[0] in rest;
      var j :| 0 <= j < |s[1..]| && s[1..][j] == rest[0];
      assert p(s[0]) && p(s[j + 1]);
    } else {
      FilterTwoPositions(s[1..], p);
      var i, j :| 0 <= i < j < |s[1..]| && p(s[1..][i]) && p(s[1..][j]);
      assert p(s[i + 1]) && p(s[j + 1]);
    }
  }

  /** A filter that exactly one position passes returns that row alone. */
  lemma {:induction false} FilterSingle<T(!new)>(s: seq<T>, p: T -> bool, k: nat)
    requires k < |s| && p(s[k])
    requires forall i :: 0 <= i < |s| && i != k ==> !p(s[i])
    ensures Filter(s, p) == [s[k]]
  {
    if k == 0 {
      FilterNone(s[1..], p);
    } else {
      FilterSingle(s[1..], p, k - 1);
    }
  }

  /** A filter that no position passes returns nothing. */
  lemma {:induction false} FilterNone<T(!new)>(s: seq<T>, p: T -> bool)
    requires forall i :: 0 <= i < |s| ==> !p(s[i])
    ensures Filter(s, p) == []
  {
    if |s| > 0 {
      FilterNone(s[1..], p);
    }
  }

  /** A filter that the first `n` positions pass and the rest fail returns
      those `n` rows. */
  lemma {:induction false} FilterPrefix<T(!new)>(s: seq<T>, p: T -> bool, n: nat)
    requires n <= |s|
    requires forall i :: 0 <= i < n ==> p(s[i])
    requires forall i :: n <= i < |s| ==> !p(s[i])
    ensures Filter(s, p) == s[..n]
  {
    if n == 0 {
      FilterNone(s, p);
    } else {
      FilterPrefix(s[1..], p, n - 1);
      assert [s[0]] + s[1..][..n - 1] == s[..n];
    }
  }

  /** Every pair of rows is in ascending order of `key`. */
  predicate SortedBy<T>(s: seq<T>, key: T -> Rank) {
    forall i, j :: 0 <= i < j < |s| ==> RankLe(key(s[i]), key(s[j]))
  }

  /** `bs` lists exactly the rows of `rows`, in ascending order of `key`: what
      an `ORDER BY key` returns (the order among equal keys is unspecified). */
  predicate Arranged<T(==)>(bs: seq<T>, rows: seq<T>, key: T -> Rank) {
    SortedBy(bs, key) && multiset(bs) == multiset(rows)
  }

  function Insert<T(==)>(x: T, s: seq<T>, key: T -> Rank): (r: seq<T>)
    ensures multiset(r) == multiset(s) + multiset{x}
  {
    if |s| == 0 then [x]
    else if RankLe(key(x), key(s[0])) then [x] + s
    else
      assert s == [s[0]] + s[1..];
      [s[0]] + Insert(x, s[1..], key)
  }

  lemma {:induction false} InsertSorted<T>(x: T, s: seq<T>, key: T -> Rank)
    requires SortedBy(s, key)
    ensures SortedBy(Insert(x, s, key), key)
  {
    if |s| == 0 {
    } else if RankLe(key(x), key(s[0])) {
      SortedCons(x, s, key);
    } else {
      var rest := Insert(x, s[1..], key);
      InsertSorted(x, s[1..], key);
      forall y | y in rest
        ensures RankLe(key(s[0]), key(y))
      {
        assert y in multiset(rest);
        if y != x {
          assert y in multiset(s[1..]);
        }
      }
      SortedCons(s[0], rest, key);
    }
  }

  /** A row no greater than any row of a sorted sequence can go in front. */
  lemma SortedCons<T>(h: T, s: seq<T>, key: T -> Rank)
    requires SortedBy(s, key)
    requires forall y :: y in s ==> RankLe(key(h), key(y))
    ensures SortedBy([h] + s, key)
  {
    var r := [h] + s;
    forall i, j | 0 <= i < j < |r|
      ensures RankLe(key(r[i]), key(r[j]))
    {
      if i > 0 {
        assert r[i] == s[i - 1] && r[j] == s[j - 1];
      } else {
        assert r[j] in s;
      }
    }
  }

  /** An insertion sort: the rows of `s` in ascending order of `key`. */
  function SortBy<T(==)>(s: seq<T>, key: T -> Rank): (r: seq<T>)
    ensures multiset(r) == multiset(s)
  {
    if |s| == 0 then []
    else
      assert s == [s[0]] + s[1..];
      Insert(s[0], SortBy(s[1..], key), key)
  }

  lemma {:induction false} SortByArranges<T>(s: seq<T>, key: T -> Rank)
    ensures Arranged(SortBy(s, key), s, key)
  {
    if |s| > 0 {
      SortByArranges(s[1..], key);
      InsertSorted(s[0], SortBy(s[1..], key), key);
    }
  }

  /** The rows of `levels` with that name. */
  function LevelsNamed(g: Graph, name: string): (r: seq<Level>)
    ensures forall l :: l in r <==> l in g.levels && l.name == name
  {
    Filter(g.levels, (l: Level) => l.name == name)
  }

  /** The rows of `messages` of a level. */
  function MessagesOf(g: Graph, name: string): (r: seq<Message>)
    ensures forall m :: m in r <==> m in g.messages && m.levelName == name
  {
    Filter(g.messages, (m: Message) => m.levelName == name)
  }

  /** The rows of `buttons` leaving a level. */
  function ButtonsOf(g: Graph, name: string): (r: seq<Button>)
    ensures forall b :: b in r <==> b in g.buttons && b.current == name
  {
    Filter(g.buttons, (b: Button) => b.current == name)
  }

  /** `Level.from_name`: `scalar_one()` over the levels with that name. */
  function FromName(g: Graph, name: string): (r: Result<Level, QueryError>)
    ensures r == Err(NoResultFound) <==> forall l :: l in g.levels ==> l.name != name
    ensures r == Err(MultipleResultsFound) <==>
      exists i, j :: 0 <= i < j < |g.levels| && g.levels[i].name == name && g.levels[j].name == name
    ensures r.Ok? ==> r.value in g.levels && r.value.name == name
  {
    var named := LevelsNamed(g, name);
    if |named| > 1 then
      FilterTwoPositions(g.levels, (l: Level) => l.name == name);
      Err(MultipleResultsFound)
    else
      assert !exists i, j :: 0 <= i < j < |g.levels| && g.levels[i].name == name && g.levels[j].name == name by {
        forall i, j | 0 <= i < j < |g.levels| && g.levels[i].name == name && g.levels[j].name == name
          ensures false
        {
          FilterTwoFromPositions(g.levels, (l: Level) => l.name == name, i, j);
        }
      }
      if |named| == 0 then
        assert forall l :: l in g.levels ==> l.name != name;
        Err(NoResultFound)
      else
        assert named[0] in named;
        Ok(named[0])
  }

  /** `Level.get_messages`: the level's messages in ascending `order`. */
  function GetMessages(g: Graph, name: string): (r: seq<Message>)
    ensures Arranged(r, MessagesOf(g, name), MessageRank)
  {
    SortByArranges(MessagesOf(g, name), MessageRank);
    SortBy(MessagesOf(g, name), MessageRank)
  }

  /** The labels of the buttons, one per keyboard row. */
  function Labels(bs: seq<Button>): (r: seq<string>)
    ensures |r| == |bs|
    ensures forall i :: 0 <= i < |bs| ==> r[i] == bs[i].text
  {
    if |bs| == 0 then [] else [bs[0].text] + Labels(bs[1..])
  }

  /** `Level.get_buttons`: the level's button labels in ascending `order`, or the
      marker removing the keyboard when the level has no buttons. */
  function GetButtons(g: Graph, name: string): (r: Keyboard)
    ensures r == Remove <==> forall b :: b in g.buttons ==> b.current != name
    ensures r.Reply? ==> exists bs :: Arranged(bs, ButtonsOf(g, name), ButtonRank) && r.labels == Labels(bs)
  {
    var bs := SortBy(ButtonsOf(g, name), ButtonRank);
    SortByArranges(ButtonsOf(g, name), ButtonRank);
    if |bs| == 0 then
      assert |ButtonsOf(g, name)| == 0;
      Remove
    else
      assert bs[0] in multiset(ButtonsOf(g, name));
      Reply(Labels(bs))
  }

  /** `Level.check_button`: the first button of the level whose label is exactly
      the input, if any. A message without text (NULL) matches nothing. */
  function CheckButton(g: Graph, name: string, text: Option<string>): (r: Option<Button>)
    ensures r.None? <==> text.None? || forall b :: b in g.buttons ==> !(b.current == name && b.text == text.value)
    ensures r.Some? ==> r.value in g.buttons && r.value.current == name && text == Some(r.value.text)
  {
    if text.None? then None
    else
      var hits := Filter(g.buttons, (b: Button) => b.current == name && b.text == text.value);
      if |hits| == 0 then None
      else
        assert hits[0] in hits;
        Some(hits[0])
  }

  predicate HasLevel(g: Graph, name: string) {
    exists l :: l in g.levels && l.name == name
  }

  /** The integrity the schema and the seed give the graph: level names are a
      key, every message and button refers to existing levels, and labels are
      distinct among the buttons of one level. */
  predicate WellFormed(g: Graph) {
    && (forall i, j :: 0 <= i < j < |g.levels| ==> g.levels[i].name != g.levels[j].name)
    && (forall m :: m in g.messages ==> HasLevel(g, m.levelName))
    && (forall b :: b in g.buttons ==> HasLevel(g, b.current) && HasLevel(g, b.target))
    && (forall i, j :: 0 <= i < j < |g.buttons| && g.buttons[i].current == g.buttons[j].current ==>
          g.buttons[i].text != g.buttons[j].text)
  }

  /** In a well-formed graph every existing level is found by name. */
  lemma FromNameFinds(g: Graph, name: string)
    requires WellFormed(g) && HasLevel(g, name)
    ensures FromName(g, name).Ok? && FromName(g, name).value.name == name
  {
    var l :| l in g.levels && l.name == name;
  }

  /** Labels are unambiguous: typing a button's label on its level selects that
      very button. */
  lemma CheckButtonSelects(g: Graph, b: Button)
    requires WellFormed(g) && b in g.buttons
    ensures CheckButton(g, b.current, Some(b.text)) == Some(b)
  {
    var c := CheckButton(g, b.current, Some(b.text)).value;
    var i :| 0 <= i < |g.buttons| && g.buttons[i] == b;
    var j :| 0 <= j < |g.buttons| && g.buttons[j] == c;
    LabelPicksPosition(g, i, j);
  }

  /** Two buttons of one level with the same label are the same row. */
  lemma LabelPicksPosition(g: Graph, i: nat, j: nat)
    requires WellFormed(g) && i < |g.buttons| && j < |g.buttons|
    requires g.buttons[i].current == g.buttons[j].current && g.buttons[i].text == g.buttons[j].text
    ensures i == j
  {
  }

  /** A selected button leads to a level that exists. */
  lemma CheckButtonTargetExists(g: Graph, name: string, text: Option<string>)
    requires WellFormed(g) && CheckButton(g, name, text).Some?
    ensures FromName(g, CheckButton(g, name, text).value.target).Ok?
  {
    FromNameFinds(g, CheckButton(g, name, text).value.target);
  }
}
