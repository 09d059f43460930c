/**
 * The user router's `setup`: a username that passes the input rule is checked against the caller's
 * row (a username is set once) and against the stored usernames, then stored lower-cased.
 */
module UserRouter {
  import opened Wrappers
  import opened Rows
  import opened Text
  import opened Schema
  import opened Store

  const MinUsernameLength: nat := 3
  const MaxUsernameLength: nat := 30

  /** The input rule: 3 to 30 characters, each from `[a-zA-Z0-9_]`. */
  predicate ValidUsername(s: string) {
    MinUsernameLength <= |s| <= MaxUsernameLength && forall i :: 0 <= i < |s| ==> IsWordChar(s[i])
  }

  function WithId(id: UserId): User -> bool {
    (u: User) => u.id == id
  }

  function Named(name: string): User -> bool {
    (u: User) => u.username == Some(name)
  }

  /** Another row than the caller's already stores `name`. */
  function OtherNamed(caller: UserId, name: string): User -> bool {
    (u: User) => u.id != caller && u.username == Some(name)
  }

  function SetUsername(name: string): User -> User {
    (u: User) => u.(username := Some(name))
  }

  /** `currentUser?.username` is truthy: a row was found and its username is a non-empty string. */
  predicate HasUsername(current: Option<User>) {
    current.Some? && current.value.username.Some? && |current.value.username.value| > 0
  }

  /** The committed tables and the first row the update returned, if it touched any. */
  datatype Setup = Setup(tables: Tables, user: Option<User>)

  /**
   * The update of the caller's row. The unique `username` column refuses it when another row already
   * stores the new value.
   */
  function StoreUsername(t: Tables, caller: UserId, name: string): Result<Setup> {
    if Any(t.users, WithId(caller)) && Any(t.users, OtherNamed(caller, name)) then Err(InternalError)
    else
      var users := UpdateWhere(t.users, WithId(caller), SetUsername(name));
      Ok(Setup(t.(users := users), FindFirst(users, WithId(caller))))
  }

  /** `setup` as written: the conflict check compares the raw input, the update stores it lower-cased. */
  function SetupSpec(t: Tables, caller: UserId, username: string): Result<Setup> {
    if !ValidUsername(username) then Err(BadRequest)
    else if HasUsername(FindFirst(t.users, WithId(caller))) then Err(Forbidden)
    else if FindFirst(t.users, Named(username)).Some? then Err(Conflict)
    else StoreUsername(t, caller, LowerStr(username))
  }

  /** Storing a name no other row holds keeps the constraints. */
  lemma StoreUsernameValid(t: Tables, caller: UserId, name: string)
    requires Valid(t)
    ensures var r := StoreUsername(t, caller, name);
            r.Ok? ==> Valid(r.value.tables)
  {
    var r := StoreUsername(t, caller, name);
    if r.Ok? {
      var users := UpdateWhere(t.users, WithId(caller), SetUsername(name));
      assert r.value.tables == t.(users := users);
      RenameKeepsUnique(t.users, caller, name);
      UsersOnlyValid(t, users);
    }
  }

  /** Renaming the caller keeps user ids unique, and usernames too when no other row holds the name. */
  lemma RenameKeepsUnique(users: seq<User>, caller: UserId, name: string)
    requires UniqueUserIds(users) && UniqueUsernames(users)
    requires Any(users, WithId(caller)) ==> !Any(users, OtherNamed(caller, name))
    ensures var users' := UpdateWhere(users, WithId(caller), SetUsername(name));
            UniqueUserIds(users') && UniqueUsernames(users')
  {
    var users' := UpdateWhere(users, WithId(caller), SetUsername(name));
    if !Any(users, WithId(caller)) {
      assert users' == users by {
        forall i | 0 <= i < |users| ensures users'[i] == users[i] {
          assert !WithId(caller)(users[i]);
        }
      }
    } else {
      forall i, j | 0 <= i < |users'| && 0 <= j < |users'| && users'[i].username.Some? && users'[i].username == users'[j].username
        ensures i == j
      {
        if users[i].id == caller && users[j].id == caller {
        } else if users[i].id == caller {
          assert !OtherNamed(caller, name)(users[j]);
        } else if users[j].id == caller {
          assert !OtherNamed(caller, name)(users[i]);
        }
      }
      RenameKeepsIds(users, caller, name);
    }
  }

  lemma RenameKeepsIds(users: seq<User>, caller: UserId, name: string)
    requires UniqueUserIds(users)
    ensures UniqueUserIds(UpdateWhere(users, WithId(caller), SetUsername(name)))
  {
    var users' := UpdateWhere(users, WithId(caller), SetUsername(name));
    forall i, j | 0 <= i < |users'| && 0 <= j < |users'| && users'[i].id == users'[j].id ensures i == j {
      assert users'[i].id == users[i].id && users'[j].id == users[j].id;
    }
  }

  /** The constraints do not look past the users' ids and usernames. */
  lemma UsersOnlyValid(t: Tables, users: seq<User>)
    requires Valid(t) && UniqueUserIds(users) && UniqueUsernames(users)
    ensures Valid(t.(users := users))
  {
  }

  method SetupUsername(db: Database, caller: UserId, username: string) returns (r: Result<Option<User>>)
    requires Valid(db.tables)
    modifies db
    ensures var spec := SetupSpec(old(db.tables), caller, username);
            && (spec.Ok? ==> r == Ok(spec.value.user) && db.tables == spec.value.tables)
            && (spec.Err? ==> r == Err(spec.code) && db.tables == old(db.tables))
    ensures Valid(db.tables)
  {
    if !ValidUsername(username) {
      return Err(BadRequest);
    }
    var t := db.tables;
    var currentUser := FindFirst(t.users, WithId(caller));
    if HasUsername(currentUser) {
      return Err(Forbidden);
    }
    var existing := FindFirst(t.users, Named(username));
    if existing.Some? {
      return Err(Conflict);
    }
    var lower := LowerStr(username);
    if Any(t.users, WithId(caller)) && Any(t.users, OtherNamed(caller, lower)) {
      return Err(InternalError);
    }
    StoreUsernameValid(t, caller, lower);
    var users := UpdateWhere(t.users, WithId(caller), SetUsername(lower));
    db.tables := t.(users := users);
    return Ok(FindFirst(users, WithId(caller)));
  }

  /**
   * The guards of `setup`, in order: BAD_REQUEST for a name outside the input rule, FORBIDDEN when the
   * caller's row already has a username, CONFLICT when some row stores exactly the input.
   */
  lemma SetupGuards(t: Tables, caller: UserId, username: string, u: User)
    requires u in t.users
    ensures !ValidUsername(username) ==> SetupSpec(t, caller, username) == Err(BadRequest)
    ensures (ValidUsername(username) && u.id == caller && u.username.Some? && |u.username.value| > 0
             && UniqueUserIds(t.users)) ==> SetupSpec(t, caller, username) == Err(Forbidden)
    ensures (ValidUsername(username) && !HasUsername(FindFirst(t.users, WithId(caller))) && u.username == Some(username))
              ==> SetupSpec(t, caller, username) == Err(Conflict)
  {
    var k :| 0 <= k < |t.users| && t.users[k] == u;
    assert Named(username)(u) ==> Any(t.users, Named(username));
    if u.id == caller && UniqueUserIds(t.users) {
      assert Any(t.users, WithId(caller));
      var current := FindFirst(t.users, WithId(caller));
      var j :| 0 <= j < |t.users| && t.users[j] == current.value && WithId(caller)(t.users[j]);
      assert j == k;
    }
  }

  /**
   * A successful store changes only the caller's row, whose username becomes `name`, and returns that
   * row; every other table is unchanged.
   */
  lemma StoreUsernameEffect(t: Tables, caller: UserId, name: string)
    ensures var r := StoreUsername(t, caller, name);
            r.Ok? ==>
              && r.value.tables == t.(users := r.value.tables.users)
              && |r.value.tables.users| == |t.users|
              && (forall i :: 0 <= i < |t.users| ==>
                    r.value.tables.users[i] == (if t.users[i].id == caller then t.users[i].(username := Some(name)) else t.users[i]))
              && (Any(t.users, WithId(caller)) ==>
                    r.value.user.Some? && r.value.user.value.id == caller && r.value.user.value.username == Some(name))
  {
    var r := StoreUsername(t, caller, name);
    if r.Ok? {
      var users := UpdateWhere(t.users, WithId(caller), SetUsername(name));
      assert r.value == Setup(t.(users := users), FindFirst(users, WithId(caller)));
      if Any(t.users, WithId(caller)) {
        FoundAfterUpdate(t.users, caller, name);
      }
    }
  }

  /** After the update, looking up the caller finds their row with the new name. */
  lemma FoundAfterUpdate(users: seq<User>, caller: UserId, name: string)
    requires Any(users, WithId(caller))
    ensures var f := FindFirst(UpdateWhere(users, WithId(caller), SetUsername(name)), WithId(caller));
            f.Some? && f.value.id == caller && f.value.username == Some(name)
  {
    var users' := UpdateWhere(users, WithId(caller), SetUsername(name));
    var k :| 0 <= k < |users| && WithId(caller)(users[k]);
    assert WithId(caller)(users'[k]);
    var f := FindFirst(users', WithId(caller));
    var j :| 0 <= j < |users'| && users'[j] == f.value && WithId(caller)(users'[j]);
    assert users[j].id == users'[j].id;
    assert users'[j] == SetUsername(name)(users[j]);
  }

  /**
   * A successful `setup` changes only the caller's row, whose username becomes the lower-cased
   * input, and returns that row; every other table is unchanged.
   */
  lemma SetupStoresLowerCase(t: Tables, caller: UserId, username: string)
    ensures var r := SetupSpec(t, caller, username);
            r.Ok? ==>
              && r.value.tables == t.(users := r.value.tables.users)
              && |r.value.tables.users| == |t.users|
              && (forall i :: 0 <= i < |t.users| ==>
                    r.value.tables.users[i] == (if t.users[i].id == caller then t.users[i].(username := Some(LowerStr(username))) else t.users[i]))
              && (Any(t.users, WithId(caller)) ==>
                    r.value.user.Some? && r.value.user.value.id == caller && r.value.user.value.username == Some(LowerStr(username)))
  {
    StoreUsernameEffect(t, caller, LowerStr(username));
    var r := SetupSpec(t, caller, username);
    if r.Ok? {
      assert r == StoreUsername(t, caller, LowerStr(username));
    }
  }

  /** Set-once: after a successful `setup` by a user with a row, every further valid `setup` by that user raises FORBIDDEN. */
  lemma SetOnce(t: Tables, caller: UserId, first: string, second: string)
    requires UniqueUserIds(t.users) && Any(t.users, WithId(caller))
    requires SetupSpec(t, caller, first).Ok?
    requires ValidUsername(second)
    ensures SetupSpec(SetupSpec(t, caller, first).value.tables, caller, second) == Err(Forbidden)
  {
    var users := SetupSpec(t, caller, first).value.tables.users;
    SetupStoresLowerCase(t, caller, first);
    var current := FindFirst(users, WithId(caller));
    assert Any(users, WithId(caller)) by {
      var k :| 0 <= k < |t.users| && WithId(caller)(t.users[k]);
      assert WithId(caller)(users[k]);
    }
    var j :| 0 <= j < |users| && users[j] == current.value && WithId(caller)(users[j]);
    assert users[j].username == Some(LowerStr(first));
  }

  /** `setup` keeps the constraints. */
  lemma SetupValid(t: Tables, caller: UserId, username: string)
    requires Valid(t)
    ensures var r := SetupSpec(t, caller, username);
            r.Ok? ==> Valid(r.value.tables)
  {
    var lower := LowerStr(username);
    if SetupSpec(t, caller, username).Ok? {
      assert SetupSpec(t, caller, username) == StoreUsername(t, caller, lower);
      StoreUsernameValid(t, caller, lower);
    }
  }

  /**
   * The uniqueness lookup compares the raw input while the update stores it lower-cased: with "bob" stored, the
   * input "Bob" passes the CONFLICT check and only the unique column refuses the update.
   */
  lemma CaseVariantPassesCheck(t: Tables, caller: UserId, username: string)
    requires ValidUsername(username) && Any(t.users, WithId(caller))
    requires !HasUsername(FindFirst(t.users, WithId(caller)))
    requires forall i :: 0 <= i < |t.users| ==> t.users[i].username != Some(username)
    requires exists i :: 0 <= i < |t.users| && t.users[i].id != caller && t.users[i].username == Some(LowerStr(username))
    ensures SetupSpec(t, caller, username) == Err(InternalError)
  {
    var i :| 0 <= i < |t.users| && t.users[i].id != caller && t.users[i].username == Some(LowerStr(username));
    assert OtherNamed(caller, LowerStr(username))(t.users[i]);
    assert !Any(t.users, Named(username));
  }

  /** The concrete case: "bob" is stored by another user and the caller asks for "Bob". */
  lemma BobAfterBob()
    ensures var alice := User("u1", "Alice", "a@example.com", None, Some("bob"), None);
            var carol := User("u2", "Carol", "c@example.com", None, None, None);
            var t := EmptyTables().(users := [alice, carol]);
            SetupSpec(t, "u2", "Bob") == Err(InternalError)
  {
    var alice := User("u1", "Alice", "a@example.com", None, Some("bob"), None);
    var carol := User("u2", "Carol", "c@example.com", None, None, None);
    var t := EmptyTables().(users := [alice, carol]);
    assert LowerStr("Bob") == "bob";
    assert ValidUsername("Bob") by {
      assert IsWordChar('B') && IsWordChar('o') && IsWordChar('b');
    }
    CaseVariantPassesCheck(t, "u2", "Bob");
  }

  /** `setup` with the conflict check on the lower-cased input, the value the update stores. */
  function SetupCheckedSpec(t: Tables, caller: UserId, username: string): Result<Setup> {
    if !ValidUsername(username) then Err(BadRequest)
    else if HasUsername(FindFirst(t.users, WithId(caller))) then Err(Forbidden)
    else if FindFirst(t.users, Named(LowerStr(username))).Some? then Err(Conflict)
    else StoreUsername(t, caller, LowerStr(username))
  }

  /**
   * With the lookup on the stored value, the unique column never refuses the update: CONFLICT is raised
   * exactly when some row stores the lower-cased input, and otherwise the update commits.
   */
  lemma CheckedSetupNeverClashes(t: Tables, caller: UserId, username: string)
    requires ValidUsername(username) && !HasUsername(FindFirst(t.users, WithId(caller)))
    ensures var r := SetupCheckedSpec(t, caller, username);
            && (r == Err(Conflict) <==> exists i :: 0 <= i < |t.users| && t.users[i].username == Some(LowerStr(username)))
            && (r.Err? ==> r.code == Conflict)
  {
    var lower := LowerStr(username);
    if !Any(t.users, Named(lower)) {
      forall i | 0 <= i < |t.users| ensures !OtherNamed(caller, lower)(t.users[i]) {
        assert !Named(lower)(t.users[i]);
      }
    } else {
      var i :| 0 <= i < |t.users| && Named(lower)(t.users[i]);
    }
  }
}
