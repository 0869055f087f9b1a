/** The in-memory user registry of the first auth controller: a list that
    `register` appends to and `login` searches. Password hashing and its
    check are passed in; the hash is salted, so it is an input. */
module LegacyAuth {

  /** `{ id, name, email, passwordHash, role }`. Absent body fields are "". */
  datatype LegacyUser = LegacyUser(id: int, name: string, email: string, passwordHash: string, role: string)

  datatype Reply =
    | Failed(status: int, error: string)
    | Registered(status: int, message: string, userId: int)
    /** The claims the one-hour token is signed with. */
    | LoggedIn(userId: int, role: string)

  /** `users.find(u => u.email === email)`: the index of the first match. */
  function FindIndex(users: seq<LegacyUser>, email: string): (i: nat)
    ensures i <= |users|
    ensures i < |users| ==> users[i].email == email
    ensures forall j :: 0 <= j < i ==> users[j].email != email
  {
    if users == [] then 0
    else if users[0].email == email then 0
    else 1 + FindIndex(users[1..], email)
  }

  predicate EmailTaken(users: seq<LegacyUser>, email: string) {
    exists i :: 0 <= i < |users| && users[i].email == email
  }

  lemma FindIndexComplete(users: seq<LegacyUser>, email: string)
    ensures FindIndex(users, email) < |users| <==> EmailTaken(users, email)
  {
  }

  /** What the registry always satisfies: ids are 1..n in order, and no
      email is registered twice. */
  predicate Registry(users: seq<LegacyUser>) {
    && (forall i :: 0 <= i < |users| ==> users[i].id == i + 1)
    && (forall i, j :: 0 <= i < j < |users| ==> users[i].email != users[j].email)
  }

  const AllFieldsRequired := "All fields are required"
  const UserExists := "User already exists"
  const InvalidCredentials := "Invalid credentials"

  /** `register` on the list: the reply and the list afterwards. */
  function RegisterSpec(users: seq<LegacyUser>, name: string, email: string, password: string, role: string,
                        hashed: string): (r: (Reply, seq<LegacyUser>))
    ensures r.0.Failed? ==> r.1 == users
    ensures r.0.Registered? ==> |r.1| == |users| + 1 && r.1[..|users|] == users
  {
    if name == "" || email == "" || password == "" || role == "" then (Failed(400, AllFieldsRequired), users)
    else if FindIndex(users, email) < |users| then (Failed(400, UserExists), users)
    else
      var u := LegacyUser(|users| + 1, name, email, hashed, role);
      (Registered(201, "User registered successfully", u.id), users + [u])
  }

  /** Registration keeps the registry's invariant. */
  lemma RegisterKeepsRegistry(users: seq<LegacyUser>, name: string, email: string, password: string, role: string,
                              hashed: string)
    requires Registry(users)
    ensures Registry(RegisterSpec(users, name, email, password, role, hashed).1)
  {
    var r := RegisterSpec(users, name, email, password, role, hashed);
    if r.0.Registered? {
      FindIndexComplete(users, email);
      var after := r.1;
      assert after[|users|].email == email;
      assert forall i :: 0 <= i < |users| ==> after[i] == users[i];
    }
  }

  /** The outcomes of registration: a missing field or a taken email
      changes nothing; otherwise one user is appended with the next id and
      the hash rather than the password. */
  lemma RegisterOutcomes(users: seq<LegacyUser>, name: string, email: string, password: string, role: string,
                         hashed: string)
    ensures var (r, after) := RegisterSpec(users, name, email, password, role, hashed);
            && ((name == "" || email == "" || password == "" || role == "") ==>
                  r == Failed(400, AllFieldsRequired) && after == users)
            && (name != "" && email != "" && password != "" && role != "" && EmailTaken(users, email) ==>
                  r == Failed(400, UserExists) && after == users)
            && (name != "" && email != "" && password != "" && role != "" && !EmailTaken(users, email) ==>
                  r == Registered(201, "User registered successfully", |users| + 1)
                  && after == users + [LegacyUser(|users| + 1, name, email, hashed, role)])
  {
    FindIndexComplete(users, email);
  }

  /** `login` on the list, with `compare` standing for `bcrypt.compare`. */
  function LoginSpec(users: seq<LegacyUser>, email: string, password: string, compare: (string, string) -> bool): (r: Reply)
    ensures r.LoggedIn? ==> EmailTaken(users, email)
  {
    var i := FindIndex(users, email);
    if i == |users| then Failed(401, InvalidCredentials)
    else if !compare(password, users[i].passwordHash) then Failed(401, InvalidCredentials)
    else LoggedIn(users[i].id, users[i].role)
  }

  /** In a registry, login succeeds exactly for the registered email whose
      hash accepts the password, and returns that user's id and role. */
  lemma LoginExactly(users: seq<LegacyUser>, email: string, password: string, compare: (string, string) -> bool, k: nat)
    requires Registry(users) && k < |users| && users[k].email == email
    ensures LoginSpec(users, email, password, compare)
            == if compare(password, users[k].passwordHash) then LoggedIn(k + 1, users[k].role)
               else Failed(401, InvalidCredentials)
  {
    assert FindIndex(users, email) == k;
  }

  lemma LoginUnknown(users: seq<LegacyUser>, email: string, password: string, compare: (string, string) -> bool)
    requires !EmailTaken(users, email)
    ensures LoginSpec(users, email, password, compare) == Failed(401, InvalidCredentials)
  {
    FindIndexComplete(users, email);
  }

  /** The module-level `users` array. */
  class Registrar {
    var users: seq<LegacyUser>

    ghost predicate Valid()
      reads this
    {
      Registry(users)
    }

    constructor()
      ensures users == [] && Valid()
    {
      users := [];
    }

    /** `users.find(...)` as the loop it is. */
    method FindByEmail(email: string) returns (i: nat)
      ensures i == FindIndex(users, email)
    {
      i := 0;
      while i < |users| && users[i].email != email
        invariant i <= |users|
        invariant forall j :: 0 <= j < i ==> users[j].email != email
      {
        i := i + 1;
      }
      FindIndexFirst(users, email, i);
    }

    method Register(name: string, email: string, password: string, role: string, hashed: string) returns (r: Reply)
      requires Valid()
      modifies this
      ensures Valid()
      ensures (r, users) == RegisterSpec(old(users), name, email, password, role, hashed)
    {
      RegisterKeepsRegistry(users, name, email, password, role, hashed);
      if name == "" || email == "" || password == "" || role == "" {
        return Failed(400, AllFieldsRequired);
      }
      var i := FindByEmail(email);
      if i < |users| {
        return Failed(400, UserExists);
      }
      var u := LegacyUser(|users| + 1, name, email, hashed, role);
      users := users + [u];
      r := Registered(201, "User registered successfully", u.id);
    }

    method Login(email: string, password: string, compare: (string, string) -> bool) returns (r: Reply)
      ensures r == LoginSpec(users, email, password, compare)
    {
      var i := FindByEmail(email);
      if i == |users| {
        return Failed(401, InvalidCredentials);
      }
      if !compare(password, users[i].passwordHash) {
        return Failed(401, InvalidCredentials);
      }
      r := LoggedIn(users[i].id, users[i].role);
    }
  }

  /** The first index whose email matches is the one `FindIndex` gives. */
  lemma FindIndexFirst(users: seq<LegacyUser>, email: string, i: nat)
    requires i <= |users| && (i < |users| ==> users[i].email == email)
    requires forall j :: 0 <= j < i ==> users[j].email != email
    ensures i == FindIndex(users, email)
  {
    if users != [] && users[0].email != email {
      FindIndexFirst(users[1..], email, i - 1);
    }
  }
}
