/** The `users` table of models/user.py and the `User` objects loaded from it.
    A loaded object is a copy of its row: `update` changes the object first
    and the row afterwards, so the two differ when the write is refused. */
module Users {

  import opened Wrappers
  import opened Dates
  import opened Dialogue

  /** A row of `users`. `current_level` is a foreign key into `levels` and
      defaults to "main". */
  datatype Row = Row(id: int, username: Option<string>, startDate: Date, currentLevel: string, latestMsgId: Option<int>)

  /** One keyword argument of `User.update`. */
  datatype Change = SetLevel(level: string) | SetLatestMsgId(msgId: Option<int>)

  /** What the database refuses: a `current_level` naming no level. */
  datatype DbError = ForeignKeyViolation

  /** The level every new user starts at. */
  const MainLevel: string := "main"

  function Apply(r: Row, c: Change): Row {
    match c
    case SetLevel(l) => r.(currentLevel := l)
    case SetLatestMsgId(m) => r.(latestMsgId := m)
  }

  /** The row after the keyword arguments, applied in order. */
  function ApplyAll(r: Row, cs: seq<Change>): Row {
    if |cs| == 0 then r else Apply(ApplyAll(r, cs[..|cs| - 1]), cs[|cs| - 1])
  }

  /** The level the changes leave: the last one they set, else the old one. */
  function LevelAfter(level: string, cs: seq<Change>): string {
    if |cs| == 0 then level
    else if cs[|cs| - 1].SetLevel? then cs[|cs| - 1].level
    else LevelAfter(level, cs[..|cs| - 1])
  }

  /** `update(**kwargs)` touches only the named fields: the id, the username and
      the start date never change, and the level is the last one set. */
  lemma {:induction false} ApplyAllKeeps(r: Row, cs: seq<Change>)
    ensures ApplyAll(r, cs).id == r.id && ApplyAll(r, cs).username == r.username
    ensures ApplyAll(r, cs).startDate == r.startDate
    ensures ApplyAll(r, cs).currentLevel == LevelAfter(r.currentLevel, cs)
    ensures (forall c :: c in cs ==> c.SetLevel?) ==> ApplyAll(r, cs).latestMsgId == r.latestMsgId
  {
    if |cs| > 0 {
      var init := cs[..|cs| - 1];
      ApplyAllKeeps(r, init);
      assert forall c :: c in init ==> c in cs;
    }
  }

  /** Every level the changes set exists, so the foreign key accepts them. */
  predicate LevelsExist(g: Graph, cs: seq<Change>) {
    forall c :: c in cs && c.SetLevel? ==> HasLevel(g, c.level)
  }

  class UserTable {
    var rows: map<int, Row>
    /** `start_date`'s default, computed once when the module is imported. */
    const importDate: Date

    ghost predicate Valid()
      reads this
    {
      forall id :: id in rows ==> rows[id].id == id
    }

    constructor (importDate: Date)
      ensures Valid() && rows == map[] && this.importDate == importDate
    {
      rows := map[];
      this.importDate := importDate;
    }

    /** `User.from_id`: a new object loaded from the row, or None. */
    method FromId(id: int) returns (u: User?)
      ensures u == null <==> id !in rows
      ensures u != null ==> fresh(u) && u.Snapshot() == rows[id]
    {
      if id !in rows {
        return null;
      }
      u := new User(rows[id]);
    }

    /** `User.new`: inserts a row with the defaults unless the insert fails (the
        id exists, or there is no "main" level), swallows the failure, and
        loads whatever row has that id. */
    method New(id: int, name: Option<string>, g: Graph) returns (u: User?)
      requires Valid()
      modifies this
      ensures Valid()
      ensures rows == if id !in old(rows) && HasLevel(g, MainLevel)
        then old(rows)[id := Row(id, name, importDate, MainLevel, None)]
        else old(rows)
      ensures u == null <==> id !in rows
      ensures u != null ==> fresh(u) && u.Snapshot() == rows[id]
    {
      if id !in rows && HasLevel(g, MainLevel) {
        rows := rows[id := Row(id, name, importDate, MainLevel, None)];
      }
      u := FromId(id);
    }
  }

  class User {
    const id: int
    var username: Option<string>
    var startDate: Date
    var currentLevel: string
    var latestMsgId: Option<int>

    function Snapshot(): Row
      reads this
    {
      Row(id, username, startDate, currentLevel, latestMsgId)
    }

    constructor (r: Row)
      ensures Snapshot() == r
    {
      id := r.id;
      username := r.username;
      startDate := r.startDate;
      currentLevel := r.currentLevel;
      latestMsgId := r.latestMsgId;
    }

    /** `User.update`: sets each field on the object in turn, then writes the
        same values to the row with this id (a no-op when there is none). The
        write is refused, after the object has changed, when it names a level
        that does not exist. */
    method Update(table: UserTable, g: Graph, cs: seq<Change>) returns (r: Result<(), DbError>)
      requires table.Valid()
      modifies this, table
      ensures table.Valid()
      ensures Snapshot() == ApplyAll(old(Snapshot()), cs)
      ensures r.Err? <==> id in old(table.rows) && !LevelsExist(g, cs)
      ensures table.rows == if r.Ok? && id in old(table.rows)
        then old(table.rows)[id := ApplyAll(old(table.rows)[id], cs)]
        else old(table.rows)
    {
      ghost var before := Snapshot();
      var i := 0;
      while i < |cs|
        invariant i <= |cs|
        invariant Snapshot() == ApplyAll(before, cs[..i])
        invariant table.rows == old(table.rows)
      {
        assert cs[..i + 1][..i] == cs[..i];
        match cs[i] {
          case SetLevel(l) => currentLevel := l;
          case SetLatestMsgId(m) => latestMsgId := m;
        }
        i := i + 1;
      }
      assert cs[..i] == cs;
      if id in table.rows {
        if !LevelsExist(g, cs) {
          return Err(ForeignKeyViolation);
        }
        ApplyAllKeeps(table.rows[id], cs);
        table.rows := table.rows[id := ApplyAll(table.rows[id], cs)];
      }
      r := Ok(());
    }
  }
}
