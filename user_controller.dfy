/**
 * controllers/userController.js: the registration form's rules, the
 * duplicate username-or-email decision, and saving the new user.
 */
module UserController {
  import opened Library
  import opened Forms
  import opened CatalogStore
  import opened UserModel
  import Passport

  const LoginUrl: string := "/users/login"

  const FirstLengthMsg: string := "First name must be between 1 and 100 characters long"
  const FirstPatternMsg: string := "First name must only contain letters and hyphen"
  const LastLengthMsg: string := "Last name must be between 1 and 100 characters long"
  const LastPatternMsg: string := "Last name must only contain letters and -"
  const UsernameLengthMsg: string := "Username must be between 4 and 40 characters long"
  const UsernameIllegalMsg: string := "Username contains Illegal Characters"
  const EmailMsg: string := "Invalid email"
  const MismatchMsg: string := "Passwords do not match"

  /** The registration form as posted. */
  datatype RegisterForm = RegisterForm(
    firstName: string,
    lastName: string,
    username: string,
    email: string,
    password: string,
    password2: string)

  /** `^[a-zA-Z\-]+$`: one or more letters and hyphens, nothing else. */
  predicate NamePattern(s: string)
  {
    |s| > 0 && forall i | 0 <= i < |s| :: LetterOrHyphen(s[i])
  }

  predicate UsernameChar(c: char)
  {
    'a' <= c <= 'z' || 'A' <= c <= 'Z' || '0' <= c <= '9' || c == '_' || c == '.'
  }

  /** `^[a-zA-Z0-9_.]+$`: one or more letters, digits, underscores and dots, nothing else. */
  predicate UsernamePattern(s: string)
  {
    |s| > 0 && forall i | 0 <= i < |s| :: UsernameChar(s[i])
  }

  /** The rules of user_register_post, in the order they run, on the trimmed names. */
  function RegisterErrors(lib: Primitives, f: RegisterForm): (r: seq<FieldError>)
    ensures FieldError("username", UsernameIllegalMsg) in r <==> !UsernamePattern(Trim(f.username))
    ensures FieldError("password2", MismatchMsg) in r <==> f.password2 != f.password
  {
    UsernamePatternIsAscii(Trim(f.username));
    Check(LengthIn(Trim(f.firstName), 1, Some(100)), "first_name", FirstLengthMsg)
    + Check(NamePattern(Trim(f.firstName)), "first_name", FirstPatternMsg)
    + Check(LengthIn(Trim(f.lastName), 1, Some(100)), "last_name", LastLengthMsg)
    + Check(NamePattern(Trim(f.lastName)), "last_name", LastPatternMsg)
    + Check(LengthIn(Trim(f.username), 4, Some(40)), "username", UsernameLengthMsg)
    + Check(IsAscii(Trim(f.username)), "username", UsernameIllegalMsg)
    + Check(UsernamePattern(Trim(f.username)), "username", UsernameIllegalMsg)
    + Check(lib.isEmail(f.email), "email", EmailMsg)
    + Check(f.password2 == f.password, "password2", MismatchMsg)
  }

  /** A username that matches the pattern is ASCII, so the isAscii rule never adds an error of its own. */
  lemma UsernamePatternIsAscii(s: string)
    ensures UsernamePattern(s) ==> IsAscii(s)
  {
    if UsernamePattern(s) {
      forall i | 0 <= i < |s| ensures s[i] as int < 128 {
        assert UsernameChar(s[i]);
      }
    }
  }

  /**
   * A registration passes exactly when both trimmed names are 1 to 100
   * letters and hyphens, the trimmed username is 4 to 40 characters of the
   * username class, the e-mail address is valid, and the two passwords are
   * equal.
   */
  lemma RegisterErrorsExplained(lib: Primitives, f: RegisterForm)
    ensures RegisterErrors(lib, f) == [] <==>
      NamePattern(Trim(f.firstName)) && |Trim(f.firstName)| <= 100
      && NamePattern(Trim(f.lastName)) && |Trim(f.lastName)| <= 100
      && UsernamePattern(Trim(f.username)) && 4 <= |Trim(f.username)| <= 40
      && lib.isEmail(f.email) && f.password2 == f.password
  {
    UsernamePatternIsAscii(Trim(f.username));
  }

  /** Mismatched passwords are always reported, whatever else the form holds. */
  lemma MismatchReported(lib: Primitives, f: RegisterForm)
    requires f.password2 != f.password
    ensures RegisterErrors(lib, f) != [] && RegisterErrors(lib, f)[|RegisterErrors(lib, f)| - 1] == FieldError("password2", MismatchMsg)
  {
  }

  /**
   * The user the handler builds: escaped trimmed names, the trimmed
   * username (its sanitiser names a field that does not exist, so it is
   * not escaped), the normalised e-mail address, an empty password and the
   * default role.
   */
  function Draft(lib: Primitives, f: RegisterForm, newId: Id): (u: User)
    ensures u.password == "" && u.role == DefaultRole && u.id == newId
  {
    User(newId, lib.escape(Trim(f.firstName)), lib.escape(Trim(f.lastName)),
         lib.normalizeEmail(f.email), Trim(f.username), "", DefaultRole)
  }

  /** Which field the duplicate page names. */
  datatype DupField = UsernameDup | EmailDup

  /** How registration ends. */
  datatype RegisterOutcome =
    | FormErrors(user: User, errors: seq<FieldError>)   // the form again, password blanked
    | Duplicate(user: User, dup: DupField)              // the form again, naming the clash
    | Registered(url: string)                           // redirect to the login page
    | SaveFailed(reason: string)                        // the schema refused the user

  /** `User.find({$or: [{username}, {email}]})[0]`: the first stored user sharing either. */
  function FirstClash(users: seq<User>, username: string, email: string): (r: int)
    ensures -1 <= r < |users|
    ensures r == -1 <==> forall u | u in users :: u.username != username && u.email != email
    ensures r >= 0 ==> users[r].username == username || users[r].email == email
    ensures r >= 0 ==> forall j | 0 <= j < r :: users[j].username != username && users[j].email != email
  {
    var r := FirstWhere(users, (u: User) => u.username == username || u.email == email);
    assert r == -1 ==> forall u | u in users :: u.username != username && u.email != email by {
      if r == -1 {
        forall u | u in users ensures u.username != username && u.email != email {
          var j :| 0 <= j < |users| && users[j] == u;
        }
      }
    }
    r
  }

  /** The `dup` field: `username` when the first clash has the submitted username, else `email`. */
  function DupOf(users: seq<User>, username: string, k: nat): DupField
    requires k < |users|
  {
    if users[k].username == username then UsernameDup else EmailDup
  }

  /**
   * The duplicate decision: `email` is named only for a first clash that
   * shares the e-mail address but not the username.
   */
  lemma DupNamesTheClash(users: seq<User>, username: string, email: string)
    requires FirstClash(users, username, email) >= 0
    ensures var k := FirstClash(users, username, email);
      (DupOf(users, username, k) == UsernameDup <==> users[k].username == username)
      && (DupOf(users, username, k) == EmailDup ==> users[k].email == email && users[k].username != username)
  {
  }

  /**
   * user_register_post. Failing rules redisplay the draft with an empty
   * password and save nothing. A stored user with the same username or
   * e-mail address stops the registration, naming the first such user's
   * clash, and saves nothing. Otherwise the draft with the submitted
   * password is saved, unless the schema refuses it, and the response
   * redirects to the login page. The unique indexes keep holding.
   */
  method RegisterPost(db: Db, lib: Primitives, f: RegisterForm, newId: Id)
    returns (out: RegisterOutcome)
    requires db.Valid()
    requires forall u | u in db.users :: u.id != newId
    modifies db
    ensures db.Valid()
    ensures RegisterErrors(lib, f) != [] ==>
      out == FormErrors(Draft(lib, f, newId), RegisterErrors(lib, f)) && db.State() == old(db.State())
    ensures RegisterErrors(lib, f) == [] && FirstClash(old(db.users), Trim(f.username), lib.normalizeEmail(f.email)) >= 0 ==>
      db.State() == old(db.State())
      && out == Duplicate(Draft(lib, f, newId),
                          DupOf(old(db.users), Trim(f.username),
                                FirstClash(old(db.users), Trim(f.username), lib.normalizeEmail(f.email))))
    ensures RegisterErrors(lib, f) == [] && FirstClash(old(db.users), Trim(f.username), lib.normalizeEmail(f.email)) == -1
            && !SchemaAccepts(Draft(lib, f, newId).(password := f.password)) ==>
      out.SaveFailed? && db.State() == old(db.State())
    ensures RegisterErrors(lib, f) == [] && FirstClash(old(db.users), Trim(f.username), lib.normalizeEmail(f.email)) == -1
            && SchemaAccepts(Draft(lib, f, newId).(password := f.password)) ==>
      out == Registered(LoginUrl)
      && db.State() == old(db.State()).(users := old(db.users) + [Draft(lib, f, newId).(password := f.password)])
  {
    var errors := RegisterErrors(lib, f);
    var user := Draft(lib, f, newId);
    if errors != [] {
      return FormErrors(user, errors);
    }
    var k := FirstClash(db.users, user.username, user.email);
    if k >= 0 {
      return Duplicate(user, DupOf(db.users, user.username, k));
    }
    user := user.(password := f.password);
    if !SchemaAccepts(user) {
      return SaveFailed("User validation failed");
    }
    AppendKeepsUnique(db.users, user);
    db.users := db.users + [user];
    out := Registered(LoginUrl);
  }

  /** A user whose id, username and e-mail address no stored user has can be appended without breaking uniqueness. */
  lemma AppendKeepsUnique(users: seq<User>, u: User)
    requires UsersUnique(users)
    requires forall v | v in users :: v.id != u.id && v.username != u.username && v.email != u.email
    ensures UsersUnique(users + [u])
  {
    var r := users + [u];
    forall i, j | 0 <= i < j < |r|
      ensures r[i].id != r[j].id && r[i].username != r[j].username && r[i].email != r[j].email
    {
      if j == |users| {
        assert r[i] in users;
      }
    }
  }

  /**
   * Once registered, the new user is the one sign-in finds under the
   * username: it signs in exactly when the password verifies against the
   * stored one.
   */
  lemma RegisteredUserSignsIn(users: seq<User>, u: User, verify: (string, string) -> bool, password: string)
    requires UsersUnique(users)
    requires forall v | v in users :: v.id != u.id && v.username != u.username && v.email != u.email
    ensures Passport.Authenticate(users + [u], verify, u.username, password)
      == if verify(password, u.password) then Passport.SignedIn(u) else Passport.Refused(Passport.WrongPasswordMsg)
  {
    AppendKeepsUnique(users, u);
    FindByUsernameUnique(users + [u], |users|);
  }
}
