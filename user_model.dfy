/** Users as the JPA services of both generations store them: an id, a name and
    an e-mail address, kept by id. */
module UserModel {
  import opened Common
  import opened Sequences

  datatype User = User(id: int, name: string, email: string)

  /** A request body for `update`: either field may be left out (null). */
  datatype UserDto = UserDto(name: Option<string>, email: Option<string>)

  /** The user table: every user sits under its own id, which is below the next
      id the database will hand out. */
  ghost predicate UserStoreValid(users: map<int, User>, nextId: int) {
    nextId >= 1 && forall k :: k in users ==> users[k].id == k && 1 <= k < nextId
  }

  /** `existsByEmail`: some stored user has exactly this address. */
  predicate EmailTaken(users: map<int, User>, email: string) {
    exists k :: k in users && users[k].email == email
  }

  /** No two stored users share an address. */
  ghost predicate EmailsUnique(users: map<int, User>) {
    forall k1, k2 :: k1 in users && k2 in users && users[k1].email == users[k2].email ==> k1 == k2
  }

  /** `getUser`: a null id is an IllegalArgumentException, an unknown one a
      NotFoundException. */
  function GetUser(users: map<int, User>, id: Option<int>): (r: Result<User>)
    ensures id.None? ==> r == Err(IllegalArgument)
    ensures id.Some? && id.value !in users ==> r == Err(NotFound)
    ensures r.Ok? <==> id.Some? && id.value in users
    ensures r.Ok? ==> r.value == users[id.value]
  {
    if id.None? then Err(IllegalArgument)
    else if id.value !in users then Err(NotFound)
    else Ok(users[id.value])
  }

  /** `getAllUsers`: every stored user, once each, in the table's order (which
      the model leaves open). */
  method GetAllUsers(users: map<int, User>) returns (r: seq<User>)
    ensures ListsValues(users, r)
    ensures |r| == |users|
    ensures forall k :: k in users ==> users[k] in r
    ensures forall i :: 0 <= i < |r| ==> r[i] in users.Values
  {
    r := Values(users);
  }

  /** `delete`: a null id is an IllegalArgumentException, an unknown one a
      NotFoundException; otherwise the user's row goes. */
  function DeleteResult(users: map<int, User>, id: Option<int>): (r: Option<Error>)
    ensures id.None? ==> r == Some(IllegalArgument)
    ensures id.Some? && id.value !in users ==> r == Some(NotFound)
    ensures r.None? <==> id.Some? && id.value in users
  {
    if id.None? then Some(IllegalArgument)
    else if id.value !in users then Some(NotFound)
    else None
  }
}
