/**
 * utils/passport.js: the local sign-in strategy and the session
 * serialisation of users. Password checking (bcrypt's compare) is a
 * parameter: `verify(submitted, stored)` says whether the submitted
 * password matches what is stored.
 */
module Passport {
  import opened Library
  import opened UserModel

  const NoSuchUserMsg: string := "Username does not exist"
  const WrongPasswordMsg: string := "Incorrect password"

  /** What the strategy hands `done`: a user, or `false` with a message. */
  datatype AuthResult = SignedIn(user: User) | Refused(message: string)

  /**
   * The local strategy: look the username up; no user is refused with one
   * message, a user whose stored password does not verify with another,
   * and otherwise the found user signs in.
   */
  function Authenticate(users: seq<User>, verify: (string, string) -> bool,
                        username: string, password: string): (r: AuthResult)
    ensures r.SignedIn? ==> r.user in users && r.user.username == username && verify(password, r.user.password)
    ensures r.Refused? ==> r.message == NoSuchUserMsg || r.message == WrongPasswordMsg
    ensures r == Refused(NoSuchUserMsg) <==> forall u | u in users :: u.username != username
  {
    match FindByUsername(users, username)
    case None => Refused(NoSuchUserMsg)
    case Some(u) => if verify(password, u.password) then SignedIn(u) else Refused(WrongPasswordMsg)
  }

  /**
   * The three outcomes, each exactly characterised: an unknown username,
   * a known one whose password does not verify, and success with a stored
   * user of that username whose password verifies.
   */
  lemma AuthenticateOutcomes(users: seq<User>, verify: (string, string) -> bool, username: string, password: string)
    ensures Authenticate(users, verify, username, password) == Refused(NoSuchUserMsg)
      <==> forall u | u in users :: u.username != username
    ensures Authenticate(users, verify, username, password) == Refused(WrongPasswordMsg)
      <==> FindByUsername(users, username).Some? && !verify(password, FindByUsername(users, username).value.password)
    ensures Authenticate(users, verify, username, password).SignedIn? ==>
      var u := Authenticate(users, verify, username, password).user;
      u in users && u.username == username && verify(password, u.password)
  {
  }

  /**
   * With unique usernames, signing in succeeds exactly when some stored
   * user has that username and the password verifies against theirs, and
   * it signs in that user.
   */
  lemma SignInIff(users: seq<User>, verify: (string, string) -> bool, username: string, password: string)
    requires UsersUnique(users)
    ensures Authenticate(users, verify, username, password).SignedIn?
      <==> exists i | 0 <= i < |users| :: users[i].username == username && verify(password, users[i].password)
    ensures forall i | 0 <= i < |users| && users[i].username == username && verify(password, users[i].password) ::
      Authenticate(users, verify, username, password) == SignedIn(users[i])
  {
    forall i | 0 <= i < |users| && users[i].username == username
      ensures FindByUsername(users, username) == Some(users[i])
    {
      FindByUsernameUnique(users, i);
    }
    if Authenticate(users, verify, username, password).SignedIn? {
      var u := FindByUsername(users, username).value;
      var i :| 0 <= i < |users| && users[i] == u;
      assert users[i].username == username && verify(password, users[i].password);
    }
  }

  /** serializeUser: the session keeps the user's id. */
  function Serialize(u: User): (id: Id)
    ensures id == u.id
  {
    u.id
  }

  /**
   * deserializeUser: the id is looked up again on every request; an id no
   * stored user has any more gives no user, and the request is anonymous.
   */
  function Deserialize(users: seq<User>, id: Id): (r: Option<User>)
    ensures r.None? <==> forall u | u in users :: u.id != id
    ensures r.Some? ==> r.value in users && r.value.id == id
  {
    FindById(users, id)
  }

  /** The round trip through the session returns the stored user itself. */
  lemma SessionRoundTrip(users: seq<User>, i: nat)
    requires UsersUnique(users) && i < |users|
    ensures Deserialize(users, Serialize(users[i])) == Some(users[i])
  {
    FindByIdUnique(users, i);
  }

  /** A session whose user has been removed deserialises to no user. */
  lemma StaleSessionIsAnonymous(users: seq<User>, u: User)
    requires forall v | v in users :: v.id != u.id
    ensures Deserialize(users, Serialize(u)).None?
  {
  }
}
