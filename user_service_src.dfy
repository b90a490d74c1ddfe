/** The earlier JPA user service (`src/.../user/service`). It differs from the
    later one only in `update`, which takes a new address without asking
    whether another user already has it. */
module SrcUserService {
  import opened Common
  import opened UserModel
  import ServerUserService

  /** The outcome of `update`: a null id is an IllegalArgumentException, an
      unknown one a NotFoundException; otherwise the name and the address
      given replace the stored ones, with no check of the address. */
  function UpdateResult(users: map<int, User>, dto: UserDto, id: Option<int>): (r: Result<User>)
    ensures id.None? ==> r == Err(IllegalArgument)
    ensures id.Some? && id.value !in users ==> r == Err(NotFound)
    ensures r.Ok? <==> id.Some? && id.value in users
    ensures r.Ok? ==> r.value.id == users[id.value].id
                      && r.value.name == dto.name.GetOr(users[id.value].name)
                      && r.value.email == dto.email.GetOr(users[id.value].email)
  {
    if id.None? then Err(IllegalArgument)
    else if id.value !in users then Err(NotFound)
    else
      var existing := users[id.value];
      var named := if dto.name.Some? then existing.(name := dto.name.value) else existing;
      if dto.email.Some? then Ok(named.(email := dto.email.value)) else Ok(named)
  }

  /** The user table and the id the database hands out next. Addresses are
      not kept unique: `update` can copy one. */
  class UserService {
    var users: map<int, User>
    var nextId: int

    ghost predicate Valid()
      reads this
    {
      UserStoreValid(users, nextId)
    }

    constructor ()
      ensures Valid() && users == map[] && nextId == 1
    {
      users := map[];
      nextId := 1;
    }

    /** `create`: an address that is already stored is a CONFLICT and saves
        nothing; otherwise the user is saved under a fresh id. */
    method Create(name: string, email: string) returns (r: Result<User>)
      requires Valid()
      modifies this
      ensures Valid()
      ensures r.Err? <==> EmailTaken(old(users), email)
      ensures r.Err? ==> r.error == Conflict && users == old(users) && nextId == old(nextId)
      ensures r.Ok? ==> r.value == User(old(nextId), name, email)
                        && users == old(users)[old(nextId) := r.value] && nextId == old(nextId) + 1
    {
      if EmailTaken(users, email) {
        return Err(Conflict);
      }
      var u := User(nextId, name, email);
      users := users[nextId := u];
      nextId := nextId + 1;
      r := Ok(u);
    }

    /** `update`: the outcome is `UpdateResult`; on success the user's row is
        replaced and nothing else changes. */
    method Update(dto: UserDto, id: Option<int>) returns (r: Result<User>)
      requires Valid()
      modifies this
      ensures Valid() && nextId == old(nextId)
      ensures r == UpdateResult(old(users), dto, id)
      ensures r.Ok? ==> users == old(users)[id.value := r.value]
      ensures r.Err? ==> users == old(users)
    {
      r := UpdateResult(users, dto, id);
      if r.Ok? {
        users := users[id.value := r.value];
      }
    }

    /** `delete`: the outcome is `DeleteResult`; on success exactly that row
        goes. */
    method Delete(id: Option<int>) returns (r: Option<Error>)
      requires Valid()
      modifies this
      ensures Valid() && nextId == old(nextId)
      ensures r == DeleteResult(old(users), id)
      ensures r.None? ==> users == old(users) - {id.value}
      ensures r.Some? ==> users == old(users)
    {
      r := DeleteResult(users, id);
      if r.None? {
        users := users - {id.value};
      }
    }
  }

  /** When the new address is free (or none is given) the two generations'
      updates agree. */
  lemma {:induction false} UpdatesAgreeOnFreeEmail(users: map<int, User>, dto: UserDto, id: Option<int>)
    requires dto.email.Some? ==> !EmailTaken(users, dto.email.value)
    ensures UpdateResult(users, dto, id) == ServerUserService.UpdateResult(users, dto, id)
  {
  }

  /** The earlier update can give two users the same address: user 2 takes
      user 1's address, which the later update refuses. */
  lemma UpdateCanDuplicateEmail()
    ensures var users := map[1 := User(1, "ann", "a@x.org"), 2 := User(2, "bob", "b@x.org")];
            var dto := UserDto(None, Some("a@x.org"));
            && UpdateResult(users, dto, Some(2)).Ok?
            && !EmailsUnique(users[2 := UpdateResult(users, dto, Some(2)).value])
            && ServerUserService.UpdateResult(users, dto, Some(2)) == Err(Conflict)
  {
    var users := map[1 := User(1, "ann", "a@x.org"), 2 := User(2, "bob", "b@x.org")];
    var dto := UserDto(None, Some("a@x.org"));
    var after := users[2 := UpdateResult(users, dto, Some(2)).value];
    assert after[1].email == after[2].email;
    assert users[1].email == "a@x.org";
  }
}
