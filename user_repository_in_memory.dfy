/** The in-memory user store of the earliest generation: a hash map from id to
    user object and a counter that hands out ids. Users are objects, and the
    map holds references to them, so an update changes the stored object
    itself. */
module InMemoryUserRepository {
  import opened Common
  import opened Text
  import opened Sequences

  /** A stored user; `update` changes its fields in place. */
  class User {
    var id: int
    var name: string
    var email: string

    constructor (id: int, name: string, email: string)
      ensures this.id == id && this.name == name && this.email == email
    {
      this.id := id;
      this.name := name;
      this.email := email;
    }
  }

  /** What the store hands out: a copy of a user's fields. */
  datatype UserDto = UserDto(id: int, name: string, email: string)

  /** An `update` body: a field counts only when it has text. */
  datatype UserPatch = UserPatch(name: Option<string>, email: Option<string>)

  /** `toUserDto`: the user's fields as they are now. */
  function Snapshot(u: User): (r: UserDto)
    reads u
    ensures r.id == u.id && r.name == u.name && r.email == u.email
  {
    UserDto(u.id, u.name, u.email)
  }

  /** `ks` lists every key of `users` exactly once, and `r` holds a snapshot
      of the user under each of them in the same order. */
  ghost predicate SnapshotsBy(users: map<int, User>, r: seq<UserDto>, ks: seq<int>)
    reads users.Values
  {
    |ks| == |r| && Distinct(ks) && (forall k :: k in users <==> k in ks)
    && (forall i :: 0 <= i < |ks| ==> ks[i] in users && r[i] == Snapshot(users[ks[i]]))
  }

  /** `r` holds one snapshot per key of `users`, in some order of the keys; a
      user reached by two keys comes twice. */
  ghost predicate ListsSnapshots(users: map<int, User>, r: seq<UserDto>)
    reads users.Values
  {
    exists ks: seq<int> :: SnapshotsBy(users, r, ks)
  }

  class UserRepository {
    var users: map<int, User>
    var id: int

    /** What holds whatever the updates did: keys run from 1 up to the
        counter, and every key below the counter holds the user with that
        id. */
    ghost predicate Valid()
      reads this, users.Values
    {
      id >= 1
      && (forall k :: k in users ==> 1 <= k <= id)
      && (forall k :: k in users && k < id ==> users[k].id == k)
    }

    /** What the store is meant to keep: every key holds the user with that
        id. */
    ghost predicate Keyed()
      reads this, users.Values
    {
      forall k :: k in users ==> users[k].id == k
    }

    constructor ()
      ensures Valid() && Keyed() && users == map[] && id == 1
    {
      users := map[];
      id := 1;
    }

    /** `create`: the user gets the counter as id and is stored under it; the
        counter moves on. */
    method Create(name: string, email: string) returns (r: UserDto)
      requires Valid()
      modifies this
      ensures Valid() && id == old(id) + 1
      ensures old(id) in users && fresh(users[old(id)])
      ensures users == old(users)[old(id) := users[old(id)]]
      ensures r == UserDto(old(id), name, email) && Snapshot(users[old(id)]) == r
      ensures old(Keyed()) ==> Keyed()
    {
      var user := new User(id, name, email);
      users := users[id := user];
      id := id + 1;
      r := Snapshot(user);
    }

    /** `update` as written: the stored user's address and name change when
        the body gives them with text, and then the same object is put under
        the COUNTER's key as well, so two keys now reach it. */
    method Update(dto: UserPatch, userId: int) returns (r: UserDto)
      requires Valid() && userId in users
      modifies this, users[userId]
      ensures Valid() && id == old(id)
      ensures users == old(users)[old(id) := old(users)[userId]]
      ensures users[userId].id == old(users[userId].id)
      ensures users[userId].email == (if HasText(dto.email) then dto.email.value else old(users[userId].email))
      ensures users[userId].name == (if HasText(dto.name) then dto.name.value else old(users[userId].name))
      ensures r == Snapshot(users[userId])
    {
      var newUser := users[userId];
      if HasText(dto.email) {
        newUser.email := dto.email.value;
      }
      if HasText(dto.name) {
        newUser.name := dto.name.value;
      }
      users := users[id := newUser];
      r := Snapshot(newUser);
    }

    /** The update the code evidently means: the user is put back under its
        own key, so the keys do not change and every key keeps its user. */
    method UpdateFixed(dto: UserPatch, userId: int) returns (r: UserDto)
      requires Valid() && userId in users
      modifies users[userId]
      ensures Valid() && users == old(users)
      ensures old(Keyed()) ==> Keyed()
      ensures users[userId].id == old(users[userId].id)
      ensures users[userId].email == (if HasText(dto.email) then dto.email.value else old(users[userId].email))
      ensures users[userId].name == (if HasText(dto.name) then dto.name.value else old(users[userId].name))
      ensures r == Snapshot(users[userId])
    {
      var newUser := users[userId];
      if HasText(dto.email) {
        newUser.email := dto.email.value;
      }
      if HasText(dto.name) {
        newUser.name := dto.name.value;
      }
      r := Snapshot(newUser);
    }

    /** `getUser`: the user under that key, or NotFound when there is none. */
    method GetUser(userId: int) returns (r: Result<UserDto>)
      ensures r.Ok? <==> userId in users
      ensures r.Err? ==> r.error == NotFound
      ensures r.Ok? ==> r.value == Snapshot(users[userId])
    {
      if userId !in users {
        return Err(NotFound);
      }
      r := Ok(Snapshot(users[userId]));
    }

    /** `getAllUsers`: one copy per key, in the map's order (which the model
        leaves open); a user reached by two keys comes twice. */
    method GetAllUsers() returns (r: seq<UserDto>)
      ensures ListsSnapshots(users, r)
      ensures |r| == |users|
      ensures forall k :: k in users ==> Snapshot(users[k]) in r
    {
      r := [];
      ghost var ks: seq<int> := [];
      var keys := users.Keys;
      while keys != {}
        invariant keys <= users.Keys
        invariant |r| + |keys| == |users|
        invariant |ks| == |r| && Distinct(ks)
        invariant forall k :: k in users ==> (k in ks <==> k !in keys)
        invariant forall i :: 0 <= i < |ks| ==> ks[i] in users && r[i] == Snapshot(users[ks[i]])
        invariant forall k :: k in users && k !in keys ==> Snapshot(users[k]) in r
        decreases keys
      {
        NonEmptyHasElement(keys);
        var k :| k in keys;
        r := r + [Snapshot(users[k])];
        ks := ks + [k];
        keys := keys - {k};
      }
      assert SnapshotsBy(users, r, ks);
    }

    /** `delete`: exactly that key goes. */
    method Delete(userId: int)
      requires Valid()
      modifies this
      ensures Valid() && id == old(id)
      ensures users == old(users) - {userId}
      ensures old(Keyed()) ==> Keyed()
    {
      users := users - {userId};
    }

    /** `checkUserExist`: a CONFLICT if and only if some stored user has this
        address. */
    method CheckUserExist(email: string) returns (r: Option<Error>)
      ensures r.Some? <==> exists k :: k in users && users[k].email == email
      ensures r.Some? ==> r.value == Conflict
    {
      var keys := users.Keys;
      while keys != {}
        invariant keys <= users.Keys
        invariant forall k :: k in users && k !in keys ==> users[k].email != email
        decreases keys
      {
        NonEmptyHasElement(keys);
        var k :| k in keys;
        if users[k].email == email {
          return Some(Conflict);
        }
        keys := keys - {k};
      }
      r := None;
    }
  }

  /** The update as written duplicates a user: after one `create` and one
      `update` of that user the store lists it twice, and the second key does
      not hold the user with that id. */
  method UpdateListsUserTwice() returns (all: seq<UserDto>)
    ensures |all| == 2
    ensures forall i :: 0 <= i < |all| ==> all[i] == UserDto(1, "anna", "ann@x.org")
  {
    var repo := new UserRepository();
    var created := repo.Create("ann", "ann@x.org");
    assert !IsWhitespace("anna"[0]);
    var updated := repo.Update(UserPatch(Some("anna"), None), 1);
    assert repo.users.Keys == {1, 2} && repo.users[1] == repo.users[2];
    assert Snapshot(repo.users[1]) == UserDto(1, "anna", "ann@x.org");
    assert !repo.Keyed();
    assert forall k :: k in repo.users ==> Snapshot(repo.users[k]) == UserDto(1, "anna", "ann@x.org");
    assert |repo.users| == |repo.users.Keys| == |{1, 2}| == 2;
    all := repo.GetAllUsers();
    SameSnapshotEverywhere(repo.users, all, UserDto(1, "anna", "ann@x.org"));
  }

  /** When every key reaches a user with the same fields, every element of a
      listing is that snapshot. */
  lemma SameSnapshotEverywhere(users: map<int, User>, all: seq<UserDto>, d: UserDto)
    requires ListsSnapshots(users, all)
    requires forall k :: k in users ==> Snapshot(users[k]) == d
    ensures forall i :: 0 <= i < |all| ==> all[i] == d
  {
    var ks :| SnapshotsBy(users, all, ks);
    forall i | 0 <= i < |all| ensures all[i] == d {
      var k := ks[i];
      assert k in users && all[i] == Snapshot(users[k]);
    }
  }

  /** The corrected update keeps one entry per user. */
  method FixedUpdateListsUserOnce() returns (all: seq<UserDto>)
    ensures all == [UserDto(1, "anna", "ann@x.org")]
  {
    var repo := new UserRepository();
    var created := repo.Create("ann", "ann@x.org");
    assert !IsWhitespace("anna"[0]);
    var updated := repo.UpdateFixed(UserPatch(Some("anna"), None), 1);
    assert repo.users.Keys == {1};
    assert Snapshot(repo.users[1]) == UserDto(1, "anna", "ann@x.org");
    assert |repo.users| == |repo.users.Keys| == |{1}| == 1;
    assert forall k :: k in repo.users ==> Snapshot(repo.users[k]) == UserDto(1, "anna", "ann@x.org");
    all := repo.GetAllUsers();
    SameSnapshotEverywhere(repo.users, all, UserDto(1, "anna", "ann@x.org"));
  }
}
