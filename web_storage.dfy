/** The browser-side users table kept in one localStorage slot. Unlike the
    backend it stores passwords in plain text and does not keep usernames unique. */
module BrowserStorage {
  import opened Wrappers

  /** A stored user; `createdAt` is a Unix time in seconds. */
  datatype User = User(id: int, username: string, password: string, createdAt: int)

  const UsersTable := "users"

  /** `Math.max(...users.map((u) => u.id))` on a non-empty list. */
  function MaxId(users: seq<User>): (m: int)
    requires |users| > 0
    ensures forall i :: 0 <= i < |users| ==> users[i].id <= m
    ensures exists i :: 0 <= i < |users| && users[i].id == m
  {
    if |users| == 1 then users[0].id
    else
      var rest := MaxId(users[1..]);
      if users[0].id > rest then users[0].id else rest
  }

  /** The id `insert` gives a new record: one past the largest, or 1 when empty. */
  function NextId(users: seq<User>): (n: int)
    ensures forall i :: 0 <= i < |users| ==> users[i].id < n
    ensures |users| == 0 ==> n == 1
    ensures |users| > 0 ==> exists i :: 0 <= i < |users| && users[i].id == n - 1
  {
    if |users| > 0 then MaxId(users) + 1 else 1
  }

  /** `users.filter((u) => u.username === name)`. */
  function WithUsername(users: seq<User>, name: string): (r: seq<User>)
    ensures |r| <= |users|
    ensures forall i :: 0 <= i < |r| ==> r[i].username == name
  {
    if users == [] then []
    else if users[0].username == name then [users[0]] + WithUsername(users[1..], name)
    else WithUsername(users[1..], name)
  }

  /** The list after `insert` pushes its new record. */
  function Appended(users: seq<User>, username: string, password: string, now: int): (r: seq<User>)
    ensures |r| == |users| + 1 && r[..|users|] == users
    ensures r[|users|].username == username && r[|users|].password == password
    ensures forall i :: 0 <= i < |users| ==> users[i].id < r[|users|].id
  {
    users + [User(NextId(users), username, password, now)]
  }

  /** No two records share an id. */
  predicate DistinctIds(users: seq<User>) {
    forall i, j :: 0 <= i < j < |users| ==> users[i].id != users[j].id
  }

  /** `init`: create an empty list only when the slot is absent. */
  function Initialized(slot: Option<seq<User>>): (r: Option<seq<User>>)
    ensures r.Some?
    ensures slot.Some? ==> r == slot
    ensures slot.None? ==> r.value == []
  {
    if slot.None? then Some([]) else slot
  }

  /** The filter keeps each record exactly as often as it is stored when the
      name matches, and drops it otherwise. */
  lemma {:induction false} WithUsernameCounts(users: seq<User>, name: string)
    ensures forall x :: multiset(WithUsername(users, name))[x]
                        == if x.username == name then multiset(users)[x] else 0
  {
    if users != [] {
      WithUsernameCounts(users[1..], name);
      assert users == [users[0]] + users[1..];
    }
  }

  /** Filtering distributes over concatenation, so it keeps stored order. */
  lemma {:induction false} WithUsernameAppend(a: seq<User>, b: seq<User>, name: string)
    ensures WithUsername(a + b, name) == WithUsername(a, name) + WithUsername(b, name)
  {
    if a == [] {
      assert a + b == b;
    } else {
      assert (a + b)[1..] == a[1..] + b;
      WithUsernameAppend(a[1..], b, name);
    }
  }

  /** The new record's id is above every stored id, so distinct ids stay distinct. */
  lemma AppendedKeepsDistinctIds(users: seq<User>, username: string, password: string, now: int)
    requires DistinctIds(users)
    ensures DistinctIds(Appended(users, username, password, now))
  {
  }

  /** Selecting the inserted name after an insert finds the earlier matches
      followed by the new record. */
  lemma AppendedFound(users: seq<User>, name: string, password: string, now: int)
    ensures WithUsername(Appended(users, name, password, now), name)
         == WithUsername(users, name) + [User(NextId(users), name, password, now)]
  {
    var u := User(NextId(users), name, password, now);
    WithUsernameAppend(users, [u], name);
    assert [u][1..] == [];
  }

  /** `insert` does not check usernames: inserting the same name twice keeps both. */
  lemma DuplicateUsernamesKept(users: seq<User>, name: string, p1: string, p2: string, t1: int, t2: int)
    ensures var once := Appended(users, name, p1, t1);
      var twice := Appended(once, name, p2, t2);
      WithUsername(twice, name)
        == WithUsername(users, name) + [User(NextId(users), name, p1, t1), User(NextId(once), name, p2, t2)]
  {
    var once := Appended(users, name, p1, t1);
    AppendedFound(users, name, p1, t1);
    AppendedFound(once, name, p2, t2);
  }

  /** `init` is idempotent and never disturbs existing contents. */
  lemma InitializedIdempotent(slot: Option<seq<User>>)
    ensures Initialized(Initialized(slot)) == Initialized(slot)
    ensures slot.Some? ==> Initialized(slot) == slot
    ensures Initialized(slot).Some?
  {
  }

  /** The storage object: the `app_users` slot, absent or holding a list. */
  class WebStorage {
    var slot: Option<seq<User>>

    /** What the page's localStorage already holds. */
    constructor (slot: Option<seq<User>>)
      ensures this.slot == slot
    {
      this.slot := slot;
    }

    /** `getUsers`: the stored list, or `[]` when the slot is absent. */
    function Users(): (r: seq<User>)
      reads this
      ensures slot.None? ==> r == []
      ensures slot.Some? ==> r == slot.value
    {
      match slot
      case None => []
      case Some(users) => users
    }

    /** `saveUsers`. */
    method SaveUsers(users: seq<User>)
      modifies this
      ensures slot == Some(users)
    {
      slot := Some(users);
    }

    /** `select(tableName, where)`; `username` is `where?.username`. */
    method Select(tableName: string, username: Option<string>) returns (r: seq<User>)
      ensures tableName != UsersTable ==> r == []
      ensures tableName == UsersTable && (username.None? || username.value == "") ==> r == Users()
      ensures tableName == UsersTable && username.Some? && username.value != "" ==>
        r == WithUsername(Users(), username.value)
    {
      if tableName != UsersTable {
        return [];
      }
      var users := Users();
      if username.Some? && username.value != "" {
        users := WithUsername(users, username.value);
      }
      r := users;
    }

    /** `insert(tableName, values)`; `now` is `Date.now()` in whole seconds. */
    method Insert(tableName: string, username: string, password: string, now: int) returns (r: seq<User>)
      modifies this
      ensures tableName != UsersTable ==> r == [] && slot == old(slot)
      ensures tableName == UsersTable ==>
        && r == [User(NextId(old(Users())), username, password, now)]
        && slot == Some(Appended(old(Users()), username, password, now))
    {
      if tableName != UsersTable {
        return [];
      }
      var users := Users();
      var newId := if |users| > 0 then MaxId(users) + 1 else 1;
      var newUser := User(newId, username, password, now);
      users := users + [newUser];
      SaveUsers(users);
      r := [newUser];
    }

    /** `init`. */
    method Init()
      modifies this
      ensures slot == Initialized(old(slot))
    {
      if slot.None? {
        slot := Some([]);
      }
    }
  }
}
