/**
 * The User document (models/user.js): five required string fields, a role
 * enum with a default, the `name` virtual, and the unique indexes on
 * `username` and `email`.
 */
module UserModel {
  import opened Library

  datatype User = User(
    id: Id,
    firstName: string,
    lastName: string,
    email: string,
    username: string,
    password: string,
    role: string)

  /** The values the schema's `role` enum admits. */
  const Roles: seq<string> := ["admin", "librarian", "user"]

  const DefaultRole: string := "user"

  /** Save-time validation: all five fields are required (non-empty) and the role is in the enum. */
  predicate SchemaAccepts(u: User)
    ensures SchemaAccepts(u) <==>
      u.firstName != "" && u.lastName != "" && u.email != "" && u.username != "" && u.password != ""
      && (u.role == "admin" || u.role == "librarian" || u.role == "user")
    ensures u.password == "" ==> !SchemaAccepts(u)
  {
    u.firstName != "" && u.lastName != "" && u.email != "" && u.username != ""
    && u.password != "" && u.role in Roles
  }

  /** The `name` virtual: `${last_name}, ${first_name}`, from which both names can be read back. */
  function Name(u: User): (r: string)
    ensures |r| == |u.lastName| + 2 + |u.firstName|
    ensures r[..|u.lastName|] == u.lastName
    ensures r[|u.lastName|..|u.lastName| + 2] == ", "
    ensures r[|u.lastName| + 2..] == u.firstName
  {
    u.lastName + ", " + u.firstName
  }

  /**
   * What the collection's indexes guarantee: document ids, usernames and
   * e-mail addresses are each unique.
   */
  ghost predicate UsersUnique(users: seq<User>)
  {
    forall i, j :: 0 <= i < j < |users| ==>
      users[i].id != users[j].id
      && users[i].username != users[j].username
      && users[i].email != users[j].email
  }

  /** The index of the first user satisfying `p`, or -1: the order in which a query returns documents. */
  function FirstWhere(users: seq<User>, p: User -> bool): (r: int)
    ensures -1 <= r < |users|
    ensures r >= 0 ==> p(users[r]) && forall j :: 0 <= j < r ==> !p(users[j])
    ensures r == -1 <==> forall j :: 0 <= j < |users| ==> !p(users[j])
  {
    if |users| == 0 then -1
    else if p(users[0]) then 0
    else
      var k := FirstWhere(users[1..], p);
      if k == -1 then -1 else k + 1
  }

  /** `User.findById(id)`. */
  function FindById(users: seq<User>, id: Id): (r: Option<User>)
    ensures r.None? <==> forall u :: u in users ==> u.id != id
    ensures r.Some? ==> r.value in users && r.value.id == id
  {
    var k := FirstWhere(users, (u: User) => u.id == id);
    if k == -1 then None else Some(users[k])
  }

  /** `User.findOne({username})`. */
  function FindByUsername(users: seq<User>, username: string): (r: Option<User>)
    ensures r.None? <==> forall u :: u in users ==> u.username != username
    ensures r.Some? ==> r.value in users && r.value.username == username
  {
    var k := FirstWhere(users, (u: User) => u.username == username);
    if k == -1 then None else Some(users[k])
  }

  /** With unique ids, the user found by id is the one stored under it. */
  lemma FindByIdUnique(users: seq<User>, i: nat)
    requires UsersUnique(users) && i < |users|
    ensures FindById(users, users[i].id) == Some(users[i])
  {
    var k := FirstWhere(users, (u: User) => u.id == users[i].id);
    assert k != -1 by { assert users[i].id == users[i].id; }
    assert k == i;
  }

  /** With unique usernames, the user found by username is the one stored with it. */
  lemma FindByUsernameUnique(users: seq<User>, i: nat)
    requires UsersUnique(users) && i < |users|
    ensures FindByUsername(users, users[i].username) == Some(users[i])
  {
    var k := FirstWhere(users, (u: User) => u.username == users[i].username);
    assert k != -1 by { assert users[i].username == users[i].username; }
    assert k == i;
  }
}
