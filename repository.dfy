/**
 * The store behind the `UserRepository` interface of
 * internal/domain/repositories/user_repository.go: an in-memory map from id to
 * user record. The interface has no implementation in the repository, so this
 * one keeps to what its method list says and to what the use cases rely on:
 * every read hands out a fresh copy, records are stored by value, ids are
 * allocated from a counter, and `isEmailTaken` compares addresses exactly.
 * Any operation can also fail as a whole (a database that is down): the
 * operations named in `failing` return `Unavailable` and change nothing.
 */
module Repository {
  import opened Results
  import opened Entities

  /** The methods of the interface, used to say which of them the backend fails. */
  datatype RepoOp =
    | CreateOp | GetByIdOp | GetByEmailOp | IsEmailTakenOp | UpdateOp | DeleteByIdOp | ListOp | CountOp

  datatype RepoError = NotFound | Unavailable

  /**
   * The positions `[lo, hi)` of the page of `limit` records after the first
   * `offset`, among `n`: a page is cut short at the end, a negative offset
   * counts as zero and a negative limit gives an empty page.
   */
  function Window(n: nat, limit: int, offset: int): (w: (nat, nat))
    ensures w.0 <= w.1 <= n
    ensures w.1 - w.0 <= (if limit < 0 then 0 else limit)
    ensures offset >= n ==> w.0 == w.1
    ensures 0 <= offset && 0 <= limit && offset + limit <= n ==> w == (offset, offset + limit)
    ensures 0 <= offset < n && 0 <= limit && offset + limit > n ==> w == (offset, n)
    ensures offset < 0 && 0 <= limit ==> w == (0, if limit <= n then limit else n)
  {
    var lo := if offset < 0 then 0 else if offset > n then n else offset;
    var size := if limit < 0 then 0 else if limit > n - lo then n - lo else limit;
    (lo, lo + size)
  }

  class UserRepository {
    /** The stored records, by id. */
    var users: map<int, UserData>
    /** The stored ids in ascending order: the listing order. */
    var order: seq<int>
    /** The id the next `Create` allocates. */
    var nextId: int
    /** The operations the backend currently fails. */
    var failing: set<RepoOp>

    ghost predicate Valid()
      reads this
    {
      && 1 <= nextId
      && (forall id :: id in users ==> users[id].id == id && 1 <= id < nextId)
      && Ascending(order)
      && (forall i :: 0 <= i < |order| ==> order[i] in users)
      && (forall id :: id in users ==> id in order)
    }

    /** Some stored user has exactly this e-mail address. */
    predicate EmailTaken(email: string)
      reads this
    {
      exists id :: id in users && users[id].email == email
    }

    /** No two stored users share an e-mail address. */
    ghost predicate EmailsUnique()
      reads this
    {
      UniqueEmails(users)
    }

    /** The records `List(limit, offset)` returns, in order. */
    ghost function Page(limit: int, offset: int): (p: seq<UserData>)
      reads this
      requires Valid()
    {
      var w := Window(|order|, limit, offset);
      var stored, ids := users, order;
      seq(w.1 - w.0, j requires 0 <= j < w.1 - w.0 => stored[ids[w.0 + j]])
    }

    constructor (failing: set<RepoOp>)
      ensures Valid()
      ensures users == map[] && order == [] && nextId == 1 && this.failing == failing
    {
      users, order, nextId := map[], [], 1;
      this.failing := failing;
    }

    /**
     * `Create`: stores a copy of the user's fields under a newly allocated id
     * and returns a fresh copy of what was stored; the argument is never kept.
     */
    method Create(user: User) returns (r: Result<User, RepoError>)
      requires Valid()
      modifies this
      ensures Valid() && failing == old(failing)
      ensures CreateOp in failing ==> r == Err(Unavailable) && unchanged(this)
      ensures CreateOp !in failing ==>
                && r.Ok? && fresh(r.value)
                && r.value.Data() == old(user.Data()).(id := old(nextId))
                && users == old(users)[old(nextId) := r.value.Data()]
                && order == old(order) + [old(nextId)]
                && nextId == old(nextId) + 1
    {
      if CreateOp in failing {
        return Err(Unavailable);
      }
      var id := nextId;
      var stored := user.Data().(id := id);
      users := users[id := stored];
      order := order + [id];
      nextId := nextId + 1;
      var copy := new User.FromData(stored);
      r := Ok(copy);
    }

    /** `GetById`: a fresh copy of the record stored under `id`. */
    method GetById(id: int) returns (r: Result<User, RepoError>)
      requires Valid()
      ensures GetByIdOp in failing ==> r == Err(Unavailable)
      ensures GetByIdOp !in failing && id !in users ==> r == Err(NotFound)
      ensures GetByIdOp !in failing && id in users ==>
                r.Ok? && fresh(r.value) && r.value.Data() == users[id]
    {
      if GetByIdOp in failing {
        return Err(Unavailable);
      }
      if id !in users {
        return Err(NotFound);
      }
      var copy := new User.FromData(users[id]);
      r := Ok(copy);
    }

    /** `GetByEmail`: a fresh copy of the lowest-id record with exactly this e-mail address. */
    method GetByEmail(email: string) returns (r: Result<User, RepoError>)
      requires Valid()
      ensures GetByEmailOp in failing ==> r == Err(Unavailable)
      ensures GetByEmailOp !in failing ==> (r.Ok? <==> EmailTaken(email))
      ensures GetByEmailOp !in failing && !EmailTaken(email) ==> r == Err(NotFound)
      ensures r.Ok? ==>
                && fresh(r.value) && r.value.id in users && r.value.Data() == users[r.value.id]
                && r.value.email == email
                && forall id :: id in users && users[id].email == email ==> r.value.id <= id
    {
      if GetByEmailOp in failing {
        return Err(Unavailable);
      }
      var i := 0;
      while i < |order|
        invariant 0 <= i <= |order|
        invariant forall j :: 0 <= j < i ==> users[order[j]].email != email
      {
        var id := order[i];
        if users[id].email == email {
          forall other | other in users && users[other].email == email
            ensures id <= other
          {
            var k :| 0 <= k < |order| && order[k] == other;
            assert i <= k;
          }
          var copy := new User.FromData(users[id]);
          return Ok(copy);
        }
        i := i + 1;
      }
      forall id | id in users
        ensures users[id].email != email
      {
        var k :| 0 <= k < |order| && order[k] == id;
      }
      r := Err(NotFound);
    }

    /** `isEmailTaken`: whether some stored user has exactly this e-mail address. */
    method IsEmailTaken(email: string) returns (r: Result<bool, RepoError>)
      ensures IsEmailTakenOp in failing ==> r == Err(Unavailable)
      ensures IsEmailTakenOp !in failing ==>
                r.Ok? && (r.value <==> exists id :: id in users && users[id].email == email)
    {
      if IsEmailTakenOp in failing {
        return Err(Unavailable);
      }
      r := Ok(exists id | id in users :: users[id].email == email);
    }

    /**
     * `Update`: replaces the record stored under the user's id by a copy of
     * the user's fields, and returns a fresh copy of it.
     */
    method Update(user: User) returns (r: Result<User, RepoError>)
      requires Valid()
      modifies this
      ensures Valid() && failing == old(failing) && order == old(order) && nextId == old(nextId)
      ensures UpdateOp in failing ==> r == Err(Unavailable) && unchanged(this)
      ensures UpdateOp !in failing && old(user.id) !in old(users) ==> r == Err(NotFound) && unchanged(this)
      ensures UpdateOp !in failing && old(user.id) in old(users) ==>
                && r.Ok? && fresh(r.value) && r.value.Data() == old(user.Data())
                && users == old(users)[old(user.id) := old(user.Data())]
    {
      if UpdateOp in failing {
        return Err(Unavailable);
      }
      if user.id !in users {
        return Err(NotFound);
      }
      var stored := user.Data();
      users := users[user.id := stored];
      var copy := new User.FromData(stored);
      r := Ok(copy);
    }

    /** `DeleteById`: removes the record stored under `id`. */
    method DeleteById(id: int) returns (r: Outcome<RepoError>)
      requires Valid()
      modifies this
      ensures Valid() && failing == old(failing) && nextId == old(nextId)
      ensures DeleteByIdOp in failing ==> r == Fail(Unavailable) && unchanged(this)
      ensures DeleteByIdOp !in failing && id !in old(users) ==> r == Fail(NotFound) && unchanged(this)
      ensures DeleteByIdOp !in failing && id in old(users) ==> r == Pass && users == old(users) - {id}
    {
      if DeleteByIdOp in failing {
        return Fail(Unavailable);
      }
      if id !in users {
        return Fail(NotFound);
      }
      var i :| 0 <= i < |order| && order[i] == id;
      RemoveAt(order, i);
      users := users - {id};
      order := order[..i] + order[i + 1..];
      r := Pass;
    }

    /**
     * `List`: fresh copies of at most `limit` records, skipping the first
     * `offset`, in ascending id order. A negative limit is an empty page and a
     * negative offset skips nothing.
     */
    method List(limit: int, offset: int) returns (r: Result<seq<User>, RepoError>)
      requires Valid()
      ensures ListOp in failing ==> r == Err(Unavailable)
      ensures ListOp !in failing ==>
                && r.Ok? && |r.value| == |Page(limit, offset)|
                && forall j :: 0 <= j < |r.value| ==>
                     fresh(r.value[j]) && r.value[j].Data() == Page(limit, offset)[j]
    {
      if ListOp in failing {
        return Err(Unavailable);
      }
      var w := Window(|order|, limit, offset);
      var page: seq<User> := [];
      var i := w.0;
      while i < w.1
        invariant w.0 <= i <= w.1
        invariant |page| == i - w.0
        invariant forall j :: 0 <= j < |page| ==>
                    fresh(page[j]) && page[j].Data() == users[order[w.0 + j]]
      {
        var copy := new User.FromData(users[order[i]]);
        page := page + [copy];
        i := i + 1;
      }
      r := Ok(page);
    }

    /** `Count`: the number of stored users. */
    method Count() returns (r: Result<int, RepoError>)
      ensures CountOp in failing ==> r == Err(Unavailable)
      ensures CountOp !in failing ==> r == Ok(|users|)
    {
      if CountOp in failing {
        return Err(Unavailable);
      }
      r := Ok(|users|);
    }
  }

  /** No two records of `users` share an e-mail address. */
  ghost predicate UniqueEmails(users: map<int, UserData>) {
    forall a, b :: a in users && b in users && users[a].email == users[b].email ==> a == b
  }

  /** Adding a record under a new id keeps addresses unique when its address is not stored yet. */
  lemma AddKeepsUniqueEmails(users: map<int, UserData>, id: int, d: UserData)
    requires UniqueEmails(users) && id !in users
    ensures UniqueEmails(users[id := d]) <==> forall k :: k in users ==> users[k].email != d.email
  {
    var after := users[id := d];
    if forall k :: k in users ==> users[k].email != d.email {
      forall a, b | a in after && b in after && after[a].email == after[b].email
        ensures a == b
      {
        if a != id && b != id {
          assert users[a].email == users[b].email;
        }
      }
    } else {
      var k :| k in users && users[k].email == d.email;
      assert after[k].email == after[id].email && k != id;
    }
  }

  /**
   * Replacing the record under a stored id keeps addresses unique when the new
   * address is the record's own or is not stored at all.
   */
  lemma ReplaceKeepsUniqueEmails(users: map<int, UserData>, id: int, d: UserData)
    requires UniqueEmails(users) && id in users
    requires d.email == users[id].email || forall k :: k in users ==> users[k].email != d.email
    ensures UniqueEmails(users[id := d])
  {
    var after := users[id := d];
    forall a, b | a in after && b in after && after[a].email == after[b].email
      ensures a == b
    {
      if a != id && b != id {
        assert users[a].email == users[b].email;
      }
    }
  }

  /** Strictly ascending. */
  predicate Ascending(s: seq<int>) {
    forall i, j :: 0 <= i < j < |s| ==> s[i] < s[j]
  }

  /** Taking one element out of an ascending sequence leaves the others, still ascending. */
  lemma RemoveAt(s: seq<int>, i: nat)
    requires Ascending(s) && i < |s|
    ensures Ascending(s[..i] + s[i + 1..])
    ensures forall x :: x in s[..i] + s[i + 1..] <==> x in s && x != s[i]
  {
    var t := s[..i] + s[i + 1..];
    assert forall k :: 0 <= k < |t| ==> t[k] == (if k < i then s[k] else s[k + 1]);
    forall x | x in s && x != s[i]
      ensures x in t
    {
      var k :| 0 <= k < |s| && s[k] == x;
      assert t[if k < i then k else k - 1] == x;
    }
  }

  /** A page lists its records in strictly ascending id order. */
  lemma PageAscending(repo: UserRepository, limit: int, offset: int)
    requires repo.Valid()
    ensures forall i, j :: 0 <= i < j < |repo.Page(limit, offset)| ==>
              repo.Page(limit, offset)[i].id < repo.Page(limit, offset)[j].id
  {
    var p := repo.Page(limit, offset);
    var w := Window(|repo.order|, limit, offset);
    assert forall k :: 0 <= k < |p| ==> p[k].id == repo.order[w.0 + k];
  }

  /** Each stored user is listed once in the order. */
  lemma {:induction false} OrderCountsUsers(order: seq<int>, ids: set<int>)
    requires Ascending(order)
    requires forall i :: 0 <= i < |order| ==> order[i] in ids
    requires forall id :: id in ids ==> id in order
    ensures |order| == |ids|
  {
    if order != [] {
      var last := order[|order| - 1];
      var rest := order[..|order| - 1];
      assert last in ids;
      assert last !in rest;
      forall id | id in ids - {last}
        ensures id in rest
      {
        var k :| 0 <= k < |order| && order[k] == id;
        assert k != |order| - 1;
        assert rest[k] == id;
      }
      OrderCountsUsers(rest, ids - {last});
      assert |ids - {last}| == |ids| - 1;
    } else {
      assert forall id :: id !in ids;
      assert ids == {};
    }
  }

  /** A page beyond the stored records is empty; a page within them is exactly `limit` long. */
  lemma PageLength(repo: UserRepository, limit: int, offset: int)
    requires repo.Valid()
    ensures offset >= |repo.users| ==> repo.Page(limit, offset) == []
    ensures 0 <= offset && 0 <= limit && offset + limit <= |repo.users| ==>
              |repo.Page(limit, offset)| == limit
    ensures 0 <= offset < |repo.users| && 0 <= limit && offset + limit > |repo.users| ==>
              |repo.Page(limit, offset)| == |repo.users| - offset
  {
    OrderCountsUsers(repo.order, repo.users.Keys);
  }
}
