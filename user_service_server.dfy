/** The later user service (`server/`): a JPA user table, kept free of duplicate
    addresses because both `create` and `update` refuse an address that is
    already stored. */
module ServerUserService {
  import opened Common
  import opened UserModel

  /** The outcome of `update`: a null id is an IllegalArgumentException, an
      unknown one a NotFoundException; a new address that is already stored
      (the user's own included) is a CONFLICT; otherwise the name and the
      address given replace the stored ones and the rest is kept. */
  function UpdateResult(users: map<int, User>, dto: UserDto, id: Option<int>): (r: Result<User>)
    ensures id.None? ==> r == Err(IllegalArgument)
    ensures id.Some? && id.value !in users ==> r == Err(NotFound)
    ensures id.Some? && id.value in users && dto.email.Some? && EmailTaken(users, dto.email.value) ==>
              r == Err(Conflict)
    ensures r.Ok? <==> id.Some? && id.value in users && !(dto.email.Some? && EmailTaken(users, dto.email.value))
    ensures r.Ok? ==> r.value.id == users[id.value].id
                      && r.value.name == dto.name.GetOr(users[id.value].name)
                      && r.value.email == dto.email.GetOr(users[id.value].email)
  {
    if id.None? then Err(IllegalArgument)
    else if id.value !in users then Err(NotFound)
    else
      var existing := users[id.value];
      var named := if dto.name.Some? then existing.(name := dto.name.value) else existing;
      if dto.email.Some? then
        if EmailTaken(users, dto.email.value) then Err(Conflict)
        else Ok(named.(email := dto.email.value))
      else Ok(named)
  }

  /** The user table and the id the database hands out next. */
  class UserService {
    var users: map<int, User>
    var nextId: int

    ghost predicate Valid()
      reads this
    {
      UserStoreValid(users, nextId) && EmailsUnique(users)
    }

    constructor ()
      ensures Valid() && users == map[] && nextId == 1
    {
      users := map[];
      nextId := 1;
    }

    /** `create`: an address that is already stored is a CONFLICT and saves
        nothing; otherwise the user is saved under a fresh id. */
    method Create(name: string, email: string) returns (r: Result<User>)
      requires Valid()
      modifies this
      ensures Valid()
      ensures r.Err? <==> EmailTaken(old(users), email)
      ensures r.Err? ==> r.error == Conflict && users == old(users) && nextId == old(nextId)
      ensures r.Ok? ==> r.value == User(old(nextId), name, email)
                        && users == old(users)[old(nextId) := r.value] && nextId == old(nextId) + 1
    {
      if EmailTaken(users, email) {
        return Err(Conflict);
      }
      var u := User(nextId, name, email);
      users := users[nextId := u];
      nextId := nextId + 1;
      r := Ok(u);
    }

    /** `update`: the outcome is `UpdateResult`; on success the user's row is
        replaced and nothing else changes (the transaction rolls back a
        refused update, so the name set before the check is not kept). */
    method Update(dto: UserDto, id: Option<int>) returns (r: Result<User>)
      requires Valid()
      modifies this
      ensures Valid() && nextId == old(nextId)
      ensures r == UpdateResult(old(users), dto, id)
      ensures r.Ok? ==> users == old(users)[id.value := r.value]
      ensures r.Err? ==> users == old(users)
    {
      r := UpdateResult(users, dto, id);
      if r.Ok? {
        UpdateKeepsEmailsUnique(users, dto, id.value);
        users := users[id.value := r.value];
      }
    }

    /** `delete`: the outcome is `DeleteResult`; on success exactly that row
        goes. */
    method Delete(id: Option<int>) returns (r: Option<Error>)
      requires Valid()
      modifies this
      ensures Valid() && nextId == old(nextId)
      ensures r == DeleteResult(old(users), id)
      ensures r.None? ==> users == old(users) - {id.value}
      ensures r.Some? ==> users == old(users)
    {
      r := DeleteResult(users, id);
      if r.None? {
        users := users - {id.value};
      }
    }
  }

  /** A successful update keeps the addresses unique: a new address was not
      stored before, and an omitted one is the user's own. */
  lemma {:induction false} UpdateKeepsEmailsUnique(users: map<int, User>, dto: UserDto, id: int)
    requires EmailsUnique(users)
    requires UpdateResult(users, dto, Some(id)).Ok?
    ensures EmailsUnique(users[id := UpdateResult(users, dto, Some(id)).value])
  {
    var u := UpdateResult(users, dto, Some(id)).value;
    var after := users[id := u];
    forall k1, k2 | k1 in after && k2 in after && after[k1].email == after[k2].email
      ensures k1 == k2
    {
      if k1 != id && k2 != id {
        assert users[k1].email == users[k2].email;
      }
    }
  }

  /** Sending the user's own current address is refused as a CONFLICT, like
      any other stored address. */
  lemma UpdateToOwnEmailConflicts(users: map<int, User>, name: Option<string>, id: int)
    requires id in users
    ensures UpdateResult(users, UserDto(name, Some(users[id].email)), Some(id)) == Err(Conflict)
  {
    assert EmailTaken(users, users[id].email);
  }

  /** An update that gives only a name never conflicts and changes only the
      name. */
  lemma {:induction false} NameOnlyUpdateKeepsEmail(users: map<int, User>, name: string, id: int)
    requires id in users
    ensures UpdateResult(users, UserDto(Some(name), None), Some(id)) == Ok(users[id].(name := name))
  {
  }
}
