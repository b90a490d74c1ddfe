/** The in-memory user service of the earliest generation: each operation checks
    the store first (the address is free, the user exists) and then performs
    the change. */
module InMemoryUserService {
  import opened Common
  import opened Text
  import opened InMemoryUserRepository

  class UserService {
    const storage: UserRepository

    ghost predicate Valid()
      reads this, storage, storage.users.Values
    {
      storage.Valid()
    }

    constructor ()
      ensures Valid() && fresh(storage) && storage.users == map[] && storage.id == 1
    {
      storage := new UserRepository();
    }

    /** `create`: an address some stored user already has is a CONFLICT and
        stores nothing; otherwise the store creates the user. */
    method Create(name: string, email: string) returns (r: Result<UserDto>)
      requires Valid()
      modifies storage
      ensures Valid()
      ensures r.Err? <==> exists k :: k in old(storage.users) && old(storage.users[k].email) == email
      ensures r.Err? ==> r.error == Conflict && storage.users == old(storage.users) && storage.id == old(storage.id)
      ensures r.Ok? ==> r == Ok(UserDto(old(storage.id), name, email))
                        && storage.id == old(storage.id) + 1
                        && old(storage.id) in storage.users && fresh(storage.users[old(storage.id)])
                        && Snapshot(storage.users[old(storage.id)]) == r.value
                        && storage.users == old(storage.users)[old(storage.id) := storage.users[old(storage.id)]]
    {
      var conflict := storage.CheckUserExist(email);
      if conflict.Some? {
        return Err(conflict.value);
      }
      var created := storage.Create(name, email);
      r := Ok(created);
    }

    /** `update`: an unknown id is a NotFoundException and changes nothing;
        otherwise the store's update runs, with its re-insertion under the
        counter's key. */
    method Update(dto: UserPatch, userId: int) returns (r: Result<UserDto>)
      requires Valid()
      modifies storage, if userId in storage.users then {storage.users[userId]} else {}
      ensures Valid() && storage.id == old(storage.id)
      ensures r.Err? <==> userId !in old(storage.users)
      ensures r.Err? ==> r.error == NotFound && storage.users == old(storage.users)
      ensures r.Ok? ==> storage.users == old(storage.users)[old(storage.id) := old(storage.users)[userId]]
                        && r.value == Snapshot(storage.users[userId])
                        && r.value.id == old(storage.users[userId].id)
                        && r.value.email == (if HasText(dto.email) then dto.email.value else old(storage.users[userId].email))
                        && r.value.name == (if HasText(dto.name) then dto.name.value else old(storage.users[userId].name))
    {
      var found := storage.GetUser(userId);
      if found.Err? {
        return Err(found.error);
      }
      var updated := storage.Update(dto, userId);
      r := Ok(updated);
    }

    /** `getUser`: the store's lookup; an unknown id is a NotFoundException. */
    method GetUser(userId: int) returns (r: Result<UserDto>)
      ensures r.Ok? <==> userId in storage.users
      ensures r.Err? ==> r.error == NotFound
      ensures r.Ok? ==> r.value == Snapshot(storage.users[userId])
    {
      r := storage.GetUser(userId);
    }

    /** `getAllUsers`: one copy per key of the store (the fallback to an empty
        list is never reached, since the store's map is never null). */
    method GetAllUsers() returns (r: seq<UserDto>)
      ensures ListsSnapshots(storage.users, r)
      ensures |r| == |storage.users|
      ensures forall k :: k in storage.users ==> Snapshot(storage.users[k]) in r
    {
      r := storage.GetAllUsers();
    }

    /** `delete`: an unknown id is a NotFoundException and removes nothing;
        otherwise exactly that key goes. */
    method Delete(userId: int) returns (r: Option<Error>)
      requires Valid()
      modifies storage
      ensures Valid() && storage.id == old(storage.id)
      ensures r.Some? <==> userId !in old(storage.users)
      ensures r.Some? ==> r.value == NotFound && storage.users == old(storage.users)
      ensures r.None? ==> storage.users == old(storage.users) - {userId}
    {
      var found := storage.GetUser(userId);
      if found.Err? {
        return Some(found.error);
      }
      storage.Delete(userId);
      r := None;
    }
  }
}
