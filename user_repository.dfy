/** The user repository: lookups by id and by email, the partial update
    whose SET list is built from the keys of its argument, and the switch
    of the `active` flag. */
module UserRepository {
  import opened Common
  import opened Tables
  import opened Entities
  import opened Sql

  /** `getUserById(id)`: the row, or null when there is none. */
  function GetUserById(db: Db, id: int): (r: Option<User>)
    ensures r.Some? <==> id in db.users.rows
    ensures r.Some? ==> r.value == db.users.rows[id]
  {
    db.users.Get(id)
  }

  function EmailIs(email: string): User -> bool {
    (u: User) => u.email == email
  }

  /** `getUserByEmail(email)`: the first row with that email, or null
      when no user has it. */
  function GetUserByEmail(db: Db, email: string): (r: Option<User>)
    requires Valid(db)
    ensures r.None? <==> forall k :: k in db.users.rows ==> db.users.rows[k].email != email
    ensures r.Some? ==> && r.value.email == email && r.value.id in db.users.rows
                        && db.users.rows[r.value.id] == r.value
                        && forall k :: k in db.users.rows && k < r.value.id ==> db.users.rows[k].email != email
  {
    FindNone(db.users, EmailIs(email));
    match Find(db.users, EmailIs(email))
    case None => None
    case Some(k) => Some(db.users.rows[k])
  }

  // ----------------------------------------------------------- updateUser

  /** `UPDATE users SET ... WHERE id = $1`: its SET list and parameters. */
  datatype UserUpdate = UserUpdate(sets: seq<Assignment>, params: seq<SqlValue>)

  /** The keys of `fields` in order, each bound to `$(i+2)`, after the id
      at `$1`: the statement binds each column to its own value. */
  function UserUpdateStatement(id: int, fields: seq<(string, SqlValue)>): (st: UserUpdate)
    ensures |st.sets| == |fields| && |st.params| == |fields| + 1
    ensures forall i :: 0 <= i < |fields| ==> st.sets[i] == Assignment(fields[i].0, i + 2)
    ensures st.params[0] == SInt(id) && Bound(st.params, 1) == Some(SInt(id))
    ensures forall i :: 0 <= i < |fields| ==> st.params[i + 1] == fields[i].1
    ensures DecodeAssignments(st.sets, st.params) == Some(fields)
  {
    var sets := seq(|fields|, i requires 0 <= i < |fields| => Assignment(fields[i].0, i + 2));
    var params := [SInt(id)] + seq(|fields|, i requires 0 <= i < |fields| => fields[i].1);
    DecodeShifted(fields, sets, params, 0);
    assert fields[0..] == fields;
    UserUpdate(sets, params)
  }

  /** A SET list numbered from $2 over a list whose first value is the id. */
  lemma {:induction false} DecodeShifted(fields: seq<(string, SqlValue)>, sets: seq<Assignment>,
                                         params: seq<SqlValue>, from: nat)
    requires from <= |fields| && |sets| == |fields| - from && |params| == |fields| + 1
    requires forall i :: 0 <= i < |sets| ==> sets[i] == Assignment(fields[from + i].0, from + i + 2)
    requires forall i :: 0 <= i < |fields| ==> params[i + 1] == fields[i].1
    ensures DecodeAssignments(sets, params) == Some(fields[from..])
    decreases |fields| - from
  {
    if from < |fields| {
      DecodeShifted(fields, sets[1..], params, from + 1);
      assert [(fields[from].0, fields[from].1)] + fields[from + 1..] == fields[from..];
    }
  }

  /** The columns of a user row as the store reads them. */
  function Column(u: User, column: string): Option<SqlValue> {
    if column == "name" then Some(SStr(u.name))
    else if column == "email" then Some(SStr(u.email))
    else if column == "role" then Some(SStr(u.role))
    else if column == "active" then Some(SBool(u.active))
    else if column == "password_hash" then Some(SStr(u.passwordHash))
    else None
  }

  const UserColumns: set<string> := {"name", "email", "role", "active", "password_hash"}

  /** The store's codes for a value of the wrong type, a column the row
      does not have, and a statement with an empty SET list. */
  const InvalidValue := "22P02"
  const UndefinedColumn := "42703"
  const SyntaxError := "42601"

  /** The store sets one column. */
  function SetUserColumn(u: User, column: string, v: SqlValue): (r: Result<User>)
    ensures r.Ok? ==> Column(r.value, column) == Some(v) && r.value.id == u.id
    ensures r.Ok? ==> forall c :: c != column ==> Column(r.value, c) == Column(u, c)
    ensures r.Ok? <==> column in UserColumns && (if column == "active" then v.SBool? else v.SStr?)
  {
    if column == "name" && v.SStr? then Ok(u.(name := v.s))
    else if column == "email" && v.SStr? then Ok(u.(email := v.s))
    else if column == "role" && v.SStr? then Ok(u.(role := v.s))
    else if column == "active" && v.SBool? then Ok(u.(active := v.b))
    else if column == "password_hash" && v.SStr? then Ok(u.(passwordHash := v.s))
    else if column in UserColumns then Err(StoreError(InvalidValue, "invalid input value"))
    else Err(StoreError(UndefinedColumn, "column does not exist"))
  }

  function SetUserColumns(u: User, fields: seq<(string, SqlValue)>): (r: Result<User>)
    ensures r.Ok? ==> r.value.id == u.id
    decreases |fields|
  {
    if fields == [] then Ok(u)
    else match SetUserColumn(u, fields[0].0, fields[0].1)
      case Err(e) => Err(e)
      case Ok(u1) => SetUserColumns(u1, fields[1..])
  }

  /** The keys of an object are distinct. */
  predicate DistinctKeys(fields: seq<(string, SqlValue)>) {
    forall i, j :: 0 <= i < j < |fields| ==> fields[i].0 != fields[j].0
  }

  predicate Listed(fields: seq<(string, SqlValue)>, column: string) {
    exists i :: 0 <= i < |fields| && fields[i].0 == column
  }

  /** A successful update gives every listed column its value and keeps
      every other column. */
  lemma {:induction false} SetUserColumnsSpec(u: User, fields: seq<(string, SqlValue)>)
    requires DistinctKeys(fields) && SetUserColumns(u, fields).Ok?
    ensures forall i :: 0 <= i < |fields| ==> Column(SetUserColumns(u, fields).value, fields[i].0) == Some(fields[i].1)
    ensures forall c :: !Listed(fields, c) ==> Column(SetUserColumns(u, fields).value, c) == Column(u, c)
    decreases |fields|
  {
    if fields != [] {
      var u1 := SetUserColumn(u, fields[0].0, fields[0].1).value;
      var rest := fields[1..];
      assert DistinctKeys(rest) by {
        forall i, j | 0 <= i < j < |rest| ensures rest[i].0 != rest[j].0 {
          assert rest[i] == fields[i + 1] && rest[j] == fields[j + 1];
        }
      }
      SetUserColumnsSpec(u1, rest);
      var r := SetUserColumns(u, fields).value;
      assert !Listed(rest, fields[0].0) by {
        forall i | 0 <= i < |rest| ensures rest[i].0 != fields[0].0 {
          assert rest[i] == fields[i + 1];
        }
      }
      forall i | 0 <= i < |fields| ensures Column(r, fields[i].0) == Some(fields[i].1) {
        if i > 0 {
          assert fields[i] == rest[i - 1];
        }
      }
      forall c | !Listed(fields, c) ensures Column(r, c) == Column(u, c) {
        assert c != fields[0].0;
      }
    }
  }

  /** `updateUser(id, fields)`. An empty `fields` is not guarded by the
      source: its statement has an empty SET list, which the store rejects.
      An unknown id returns nothing. */
  function UpdateUserEffect(db: Db, id: int, fields: seq<(string, SqlValue)>): (r: (Result<Option<User>>, Db))
    requires Valid(db)
    ensures fields == [] ==> r.0.Err? && r.0.error.code == SyntaxError && r.1 == db
    ensures fields != [] && id !in db.users.rows ==> r == (Ok(None), db)
    ensures !(r.0.Ok? && r.0.value.Some?) ==> r.1 == db
    ensures Valid(r.1) && r.1.(users := db.users) == db
    ensures r.0.Ok? && r.0.value.Some? ==>
              && id in db.users.rows && r.0.value.value.id == id
              && r.1.users == db.users.Put(id, r.0.value.value)
  {
    if fields == [] then (Err(StoreError(SyntaxError, "syntax error at or near \"WHERE\"")), db)
    else match db.users.Get(id)
      case None => (Ok(None), db)
      case Some(u) =>
        match SetUserColumns(u, fields)
        case Err(e) => (Err(e), db)
        case Ok(u1) => (Ok(Some(u1)), db.(users := db.users.Put(id, u1)))
  }

  method UpdateUser(s: Store, id: int, fields: seq<(string, SqlValue)>) returns (r: Result<Option<User>>)
    requires Valid(s.db)
    modifies s
    ensures (r, s.db) == UpdateUserEffect(old(s.db), id, fields)
  {
    var st := UserUpdateStatement(id, fields);
    // The statement binds exactly the pairs the effect applies.
    assert DecodeAssignments(st.sets, st.params) == Some(fields);
    var e := UpdateUserEffect(s.db, id, fields);
    s.db := e.1;
    r := e.0;
  }

  /** After a successful update the row read back by id has the listed
      values and its other columns unchanged; other users are untouched. */
  lemma UpdateUserReadBack(db: Db, id: int, fields: seq<(string, SqlValue)>, other: int)
    requires Valid(db) && DistinctKeys(fields)
    requires UpdateUserEffect(db, id, fields).0.Ok? && UpdateUserEffect(db, id, fields).0.value.Some?
    ensures var d := UpdateUserEffect(db, id, fields).1;
            && GetUserById(d, id).Some?
            && (forall i :: 0 <= i < |fields| ==> Column(GetUserById(d, id).value, fields[i].0) == Some(fields[i].1))
            && (forall c :: !Listed(fields, c) ==> Column(GetUserById(d, id).value, c) == Column(db.users.rows[id], c))
            && (other != id ==> GetUserById(d, other) == GetUserById(db, other))
  {
    SetUserColumnsSpec(db.users.rows[id], fields);
  }

  // -------------------------------------------------------- setUserActive

  /** `setUserActive(id, active)`: only the `active` column of that user
      changes; an unknown id returns nothing and writes nothing. */
  function SetActiveEffect(db: Db, id: int, active: bool): (r: (Option<User>, Db))
    requires Valid(db)
    ensures r.0.Some? <==> id in db.users.rows
    ensures r.0.None? ==> r.1 == db
    ensures Valid(r.1) && r.1.(users := db.users) == db
    ensures r.0.Some? ==> && r.0.value.active == active
                          && r.0.value == db.users.rows[id].(active := active)
                          && r.1.users == db.users.Put(id, r.0.value)
  {
    match db.users.Get(id)
    case None => (None, db)
    case Some(u) =>
      var u1 := u.(active := active);
      (Some(u1), db.(users := db.users.Put(id, u1)))
  }

  method SetUserActive(s: Store, id: int, active: bool) returns (r: Option<User>)
    requires Valid(s.db)
    modifies s
    ensures (r, s.db) == SetActiveEffect(old(s.db), id, active)
  {
    var e := SetActiveEffect(s.db, id, active);
    s.db := e.1;
    r := e.0;
  }

  /** Switching the flag keeps every other column, and switching it back
      restores the row. */
  lemma SetActiveOnlyActive(db: Db, id: int, active: bool)
    requires Valid(db) && id in db.users.rows
    ensures var u := SetActiveEffect(db, id, active).0.value;
            forall c :: c != "active" ==> Column(u, c) == Column(db.users.rows[id], c)
    ensures var d := SetActiveEffect(db, id, active).1;
            SetActiveEffect(d, id, db.users.rows[id].active).1 == db
  {
    var d := SetActiveEffect(db, id, active).1;
    var d2 := SetActiveEffect(d, id, db.users.rows[id].active).1;
    assert d2.users.rows == db.users.rows;
  }
}
