/**
 * The repository half of cmd/api/main.go: a user store holding pointers to
 * users, the two ways of listing it (handing out the stored pointers, or
 * fresh copies) and the two ways of updating it (writing into the stored
 * object, or replacing it by a new one), and the `MockUserRepository` built
 * from the safe choices. Go's `map[int]*User` is a `map<int, User>` of
 * references; a Go map's iteration order is unspecified and chosen by the
 * runtime, so the listings take that order as a parameter `keys`.
 */
module ApiMain {
  import opened Results

  /** The demo's `User` struct, always handled through a pointer. */
  class User {
    var id: int
    var name: string

    constructor (id: int, name: string)
      ensures this.id == id && this.name == name
    {
      this.id, this.name := id, name;
    }
  }

  /** `fmt.Errorf("user not found")`. */
  datatype StoreError = UserNotFound

  function StoreMessage(e: StoreError): string {
    "user not found"
  }

  /** `userCopy := *user; &userCopy`: a new object with the same fields. */
  method CopyOf(u: User) returns (c: User)
    ensures fresh(c) && c.id == u.id && c.name == u.name
  {
    c := new User(u.id, u.name);
  }

  /** `modifyByCopy`: Go passes the struct by value, so the write lands on a copy. */
  method ModifyByCopy(u: User)
    ensures u.name == old(u.name)
  {
    var local := CopyOf(u);
    local.name := "Bob";
  }

  /** `modifyByPointer`: the write lands on the caller's object. */
  method ModifyByPointer(u: User)
    modifies u
    ensures u.name == "Charlie" && u.id == old(u.id)
  {
    u.name := "Charlie";
  }

  /**
   * `demonstratePointerVsCopy`: the names the two prints show after each call;
   * the copy leaves "Alice" in place, the pointer writes "Charlie".
   */
  method DemonstratePointerVsCopy() returns (afterCopy: string, afterPointer: string)
    ensures afterCopy == "Alice" && afterPointer == "Charlie"
  {
    var user := new User(1, "Alice");
    ModifyByCopy(user);
    afterCopy := user.name;
    ModifyByPointer(user);
    afterPointer := user.name;
  }

  /** `keys` lists every key of `m` exactly once: an order a `range` loop over `m` may take. */
  ghost predicate EnumeratesKeys<V>(keys: seq<int>, m: map<int, V>) {
    && |keys| == |m|
    && (forall j :: 0 <= j < |keys| ==> keys[j] in m)
    && (forall k :: k in m ==> k in keys)
    && (forall i, j :: 0 <= i < j < |keys| ==> keys[i] != keys[j])
  }

  /**
   * The loop of `dangerousList`: appends each stored pointer, in the iteration
   * order `keys`, so the result aliases the stored objects.
   */
  method StoredPointers(m: map<int, User>, keys: seq<int>) returns (users: seq<User>)
    requires EnumeratesKeys(keys, m)
    ensures |users| == |m|
    ensures forall j :: 0 <= j < |users| ==> users[j] == m[keys[j]]
  {
    users := [];
    for i := 0 to |keys|
      invariant |users| == i
      invariant forall j :: 0 <= j < i ==> users[j] == m[keys[j]]
    {
      users := users + [m[keys[i]]];
    }
  }

  /**
   * The loop of `safeList` and of `MockUserRepository.List`: appends a fresh
   * copy of each stored user, in the iteration order `keys`, so no element is
   * a stored object and no two elements are the same object.
   */
  method CopiedUsers(m: map<int, User>, keys: seq<int>) returns (users: seq<User>)
    requires EnumeratesKeys(keys, m)
    ensures |users| == |m|
    ensures forall j :: 0 <= j < |users| ==>
              fresh(users[j]) && users[j].id == m[keys[j]].id && users[j].name == m[keys[j]].name
    ensures forall i, j :: 0 <= i < j < |users| ==> users[i] != users[j]
  {
    users := [];
    for i := 0 to |keys|
      invariant |users| == i
      invariant forall j :: 0 <= j < i ==>
                  fresh(users[j]) && users[j].id == m[keys[j]].id && users[j].name == m[keys[j]].name
      invariant forall j, k :: 0 <= j < k < i ==> users[j] != users[k]
    {
      var copy := CopyOf(m[keys[i]]);
      users := users + [copy];
    }
  }

  // ---------------------------------------------------------------------------
  // The demo's storage and its closures
  // ---------------------------------------------------------------------------

  /** The `storage` map the demo closures capture. */
  class Storage {
    var entries: map<int, User>

    constructor (entries: map<int, User>)
      ensures this.entries == entries
    {
      this.entries := entries;
    }

    /** `dangerousList`: the stored pointers themselves, one per entry. */
    method DangerousList(keys: seq<int>) returns (users: seq<User>)
      requires EnumeratesKeys(keys, entries)
      ensures |users| == |entries|
      ensures forall j :: 0 <= j < |users| ==> users[j] == entries[keys[j]]
    {
      users := StoredPointers(entries, keys);
    }

    /** `safeList`: a fresh copy per entry, none of them a stored object. */
    method SafeList(keys: seq<int>) returns (users: seq<User>)
      requires EnumeratesKeys(keys, entries)
      ensures |users| == |entries|
      ensures forall j :: 0 <= j < |users| ==>
                fresh(users[j]) && users[j].id == entries[keys[j]].id
                && users[j].name == entries[keys[j]].name
      ensures forall j :: 0 <= j < |users| ==> users[j] !in entries.Values
    {
      users := CopiedUsers(entries, keys);
    }

    /**
     * `updateInPlace`: writes the argument's name into the stored object, which
     * stays where it is. The stored pointer must exist (Go would dereference nil).
     */
    method UpdateInPlace(user: User)
      requires user.id in entries
      modifies entries[user.id]
      ensures entries == old(entries) && user.id == old(user.id)
      ensures entries[user.id].name == old(user.name) && entries[user.id].id == old(entries[user.id].id)
    {
      var existing := entries[user.id];
      existing.name := user.name;
    }

    /**
     * `updateWithReplace`: stores a pointer to a new copy of the argument under
     * its id, present or not; the old object, if any, is left as it was and is
     * no longer stored there.
     */
    method UpdateWithReplace(user: User)
      modifies this
      ensures user.id in entries && fresh(entries[user.id])
      ensures entries[user.id].id == user.id && entries[user.id].name == user.name
      ensures entries == old(entries)[user.id := entries[user.id]]
      ensures user.id in old(entries) ==> entries[user.id] != old(entries[user.id])
    {
      var newUser := CopyOf(user);
      entries := entries[user.id := newUser];
    }
  }

  /** Writing through an element of `dangerousList` changes the stored user it points to. */
  method RenameThroughDangerousList(storage: Storage, keys: seq<int>, newName: string)
    returns (users: seq<User>)
    requires EnumeratesKeys(keys, storage.entries)
    modifies if |keys| > 0 then {storage.entries[keys[0]]} else {}
    ensures storage.entries == old(storage.entries) && |users| == |keys|
    ensures |users| > 0 ==> users[0] == storage.entries[keys[0]] && storage.entries[keys[0]].name == newName
    ensures forall k :: k in storage.entries && (|users| == 0 || storage.entries[k] != users[0]) ==>
              storage.entries[k].name == old(storage.entries[k].name)
  {
    users := storage.DangerousList(keys);
    if |users| > 0 {
      users[0].name := newName;
    }
  }

  /** Writing through an element of `safeList` leaves every stored user as it was. */
  method RenameThroughSafeList(storage: Storage, keys: seq<int>, newName: string)
    returns (users: seq<User>)
    requires EnumeratesKeys(keys, storage.entries)
    ensures |users| == |keys|
    ensures |users| > 0 ==> users[0].name == newName
    ensures forall k :: k in storage.entries ==> storage.entries[k].name == old(storage.entries[k].name)
  {
    users := storage.SafeList(keys);
    if |users| > 0 {
      users[0].name := newName;
    }
  }

  // ---------------------------------------------------------------------------
  // MockUserRepository
  // ---------------------------------------------------------------------------

  /** `MockUserRepository`: users by id, each through a pointer. */
  class MockUserRepository {
    var users: map<int, User>

    constructor (users: map<int, User>)
      ensures this.users == users
    {
      this.users := users;
    }

    /** `List`: one fresh copy per stored user, none of them a stored object. */
    method List(keys: seq<int>) returns (result: seq<User>)
      requires EnumeratesKeys(keys, users)
      ensures |result| == |users|
      ensures forall j :: 0 <= j < |result| ==>
                fresh(result[j]) && result[j].id == users[keys[j]].id && result[j].name == users[keys[j]].name
      ensures forall j :: 0 <= j < |result| ==> result[j] !in users.Values
    {
      result := CopiedUsers(users, keys);
    }

    /**
     * `Update`: for a stored id, writes the argument's name into the stored
     * object, which stays the stored object; nothing else changes, and the
     * argument is never stored. An absent id is an error and changes nothing.
     */
    method Update(user: User) returns (r: Outcome<StoreError>)
      modifies if user.id in users then {users[user.id]} else {}
      ensures users == old(users) && user.id == old(user.id)
      ensures user.id !in users ==> r == Fail(UserNotFound)
      ensures user.id in users ==>
                && r == Pass
                && users[user.id].name == old(user.name)
                && users[user.id].id == old(users[user.id].id)
      ensures user.id in users ==>
                forall k :: k in users && users[k] != users[user.id] ==>
                  users[k].name == old(users[k].name) && users[k].id == old(users[k].id)
      ensures user !in old(users.Values) ==> user !in users.Values
    {
      if user.id !in users {
        return Fail(UserNotFound);
      }
      var existing := users[user.id];
      existing.name := user.name;
      r := Pass;
    }

    /** `GetByID`: a fresh copy of the stored user, which is therefore not the stored object. */
    method GetByID(id: int) returns (r: Result<User, StoreError>)
      ensures id !in users ==> r == Err(UserNotFound)
      ensures id in users ==>
                && r.Ok? && fresh(r.value)
                && r.value.id == users[id].id && r.value.name == users[id].name
                && r.value != users[id]
    {
      if id !in users {
        return Err(UserNotFound);
      }
      var copy := CopyOf(users[id]);
      r := Ok(copy);
    }
  }

  /** Writing through an element of `List` leaves every stored user as it was. */
  method RenameThroughList(repo: MockUserRepository, keys: seq<int>, newName: string)
    returns (result: seq<User>)
    requires EnumeratesKeys(keys, repo.users)
    ensures |result| == |keys|
    ensures |result| > 0 ==> result[0].name == newName
    ensures forall k :: k in repo.users ==> repo.users[k].name == old(repo.users[k].name)
  {
    result := repo.List(keys);
    if |result| > 0 {
      result[0].name := newName;
    }
  }

  /**
   * After `Update`, writing to the argument leaves the store as `Update` left
   * it: the argument was read, not stored.
   */
  method UpdateThenRenameArgument(repo: MockUserRepository, user: User, later: string)
    returns (r: Outcome<StoreError>)
    requires user !in repo.users.Values
    modifies (if user.id in repo.users then {repo.users[user.id]} else {}), user
    ensures repo.users == old(repo.users)
    ensures user.name == later
    ensures old(user.id) in repo.users ==> r == Pass && repo.users[old(user.id)].name == old(user.name)
  {
    r := repo.Update(user);
    user.name := later;
  }
}
