/**
 * The account form's local user registry: the `users` list and the
 * `currentUser` field of AuthManager, the sign-up validation chain, the
 * duplicate check that guards the append, and the login lookup.
 *
 * Form fields arrive as the raw input values; the source trims each one
 * before use. Creation times are a `nat` clock passed in.
 */
module Auth {
  import opened Optional
  import opened Text

  datatype User = User(
    id: string,
    username: string,
    email: string,
    password: string,
    createdAt: nat,
    lastLogin: nat)

  const MinPasswordLength: nat := 6

  /** Why a sign-up or login is refused; each is shown as a notification. */
  datatype AuthError = BlankField | ShortPassword | InvalidEmail | AlreadyTaken | WrongCredentials

  /** The notification text of each refusal. */
  function Notice(e: AuthError): string
  {
    match e
    case BlankField => "Please fill in all fields"
    case ShortPassword => "Password must be at least 6 characters"
    case InvalidEmail => "Please enter a valid email address"
    case AlreadyTaken => "Username or email already exists"
    case WrongCredentials => "Invalid username or password"
  }

  const SignupWelcome: string := "Account created successfully! Welcome to MannieTech AI!"
  const LoginWelcome: string := "Login successful! Welcome back!"

  /** Each refusal is announced with its own text. */
  lemma NoticesAreDistinct(e1: AuthError, e2: AuthError)
    ensures Notice(e1) == Notice(e2) ==> e1 == e2
  {
  }

  // ---------------------------------------------------------------------
  // isValidEmail: /^[^\s@]+@[^\s@]+\.[^\s@]+$/

  /** A character of the class `[^\s@]`. */
  predicate PlainChar(c: char)
  {
    !IsWhitespace(c) && c != '@'
  }

  /** A match of `[^\s@]+`. */
  predicate PlainRun(s: string)
  {
    s != [] && forall i :: 0 <= i < |s| ==> PlainChar(s[i])
  }

  /**
   * The regular expression, read as a split: a plain run, `@`, a plain run,
   * `.`, a plain run, covering the whole string.
   */
  predicate IsValidEmail(email: string)
  {
    exists at | 0 < at < |email| ::
      exists dot | at + 1 < dot < |email| - 1 ::
        && email[at] == '@' && email[dot] == '.'
        && PlainRun(email[..at]) && PlainRun(email[at + 1..dot]) && PlainRun(email[dot + 1..])
  }

  /** `k` is the only position of `@` in `s`. */
  ghost predicate OnlyAtSign(s: string, k: nat)
  {
    k < |s| && s[k] == '@' && forall j :: 0 <= j < |s| && j != k ==> s[j] != '@'
  }

  /** `d` has a `.` that is neither its first nor its last character. */
  ghost predicate InnerDot(d: string)
  {
    exists p :: 0 < p < |d| - 1 && d[p] == '.'
  }

  /**
   * The shape the pattern accepts, stated on the whole address: no white
   * space, exactly one `@`, a non-empty part before it, and a part after it
   * holding an inner `.`.
   */
  ghost predicate EmailShape(s: string)
  {
    && (forall i :: 0 <= i < |s| ==> !IsWhitespace(s[i]))
    && exists k :: 0 < k && OnlyAtSign(s, k) && InnerDot(s[k + 1..])
  }

  lemma ShapeFromSplit(s: string, at: nat, dot: nat)
    requires 0 < at && at + 1 < dot < |s| - 1
    requires s[at] == '@' && s[dot] == '.'
    requires PlainRun(s[..at]) && PlainRun(s[at + 1..dot]) && PlainRun(s[dot + 1..])
    ensures EmailShape(s)
  {
    forall i | 0 <= i < |s| ensures !IsWhitespace(s[i]) && (i != at ==> s[i] != '@') {
      if i < at {
        assert s[..at][i] == s[i];
      } else if at < i < dot {
        assert s[at + 1..dot][i - at - 1] == s[i];
      } else if dot < i {
        assert s[dot + 1..][i - dot - 1] == s[i];
      }
    }
    assert OnlyAtSign(s, at);
    var d := s[at + 1..];
    assert d[dot - at - 1] == '.';
    assert InnerDot(d);
  }

  lemma SplitFromShape(s: string, k: nat, p: nat)
    requires forall i :: 0 <= i < |s| ==> !IsWhitespace(s[i])
    requires 0 < k && OnlyAtSign(s, k)
    requires 0 < p < |s[k + 1..]| - 1 && s[k + 1..][p] == '.'
    ensures IsValidEmail(s)
  {
    var dot := k + 1 + p;
    assert s[dot] == '.';
    forall i | 0 <= i < |s[..k]| ensures PlainChar(s[..k][i]) {
      assert s[..k][i] == s[i];
    }
    var domain, top := s[k + 1..dot], s[dot + 1..];
    forall i | 0 <= i < |domain| ensures PlainChar(domain[i]) {
      assert domain[i] == s[k + 1 + i];
    }
    forall i | 0 <= i < |top| ensures PlainChar(top[i]) {
      assert top[i] == s[dot + 1 + i];
    }
    assert PlainRun(s[..k]) && PlainRun(s[k + 1..dot]) && PlainRun(s[dot + 1..]);
  }

  /** The pattern holds exactly when the address has the shape above. */
  lemma EmailPatternIsShape(s: string)
    ensures IsValidEmail(s) <==> EmailShape(s)
  {
    if IsValidEmail(s) {
      var at, dot :| 0 < at < |s| && at + 1 < dot < |s| - 1 && s[at] == '@' && s[dot] == '.'
                     && PlainRun(s[..at]) && PlainRun(s[at + 1..dot]) && PlainRun(s[dot + 1..]);
      ShapeFromSplit(s, at, dot);
    }
    if EmailShape(s) {
      var k :| 0 < k && OnlyAtSign(s, k) && InnerDot(s[k + 1..]);
      var p :| 0 < p < |s[k + 1..]| - 1 && s[k + 1..][p] == '.';
      SplitFromShape(s, k, p);
    }
  }

  /** Sample addresses: one accepted, three refused. */
  lemma EmailSamples()
    ensures IsValidEmail("a@b.c")
    ensures !IsValidEmail("a@b") && !IsValidEmail("a@.c") && !IsValidEmail("a b@c.d")
  {
    SplitFromShape("a@b.c", 1, 1);
    EmailPatternIsShape("a@b");
    EmailPatternIsShape("a@.c");
    EmailPatternIsShape("a b@c.d");
    assert IsWhitespace("a b@c.d"[1]);
  }

  // ---------------------------------------------------------------------
  // Lookups over the registry

  /** userExists: `some(user => user.username === username || user.email === email)`, from position `from`. */
  function UserExists(users: seq<User>, username: string, email: string, from: nat := 0): (r: bool)
    requires from <= |users|
    ensures r <==> exists i :: from <= i < |users| && (users[i].username == username || users[i].email == email)
    decreases |users| - from
  {
    && from < |users|
    && (|| users[from].username == username
        || users[from].email == email
        || UserExists(users, username, email, from + 1))
  }

  /** The `find` predicate of authenticateUser: the identifier is the username or the email, and the password is equal. */
  predicate Accepts(user: User, login: string, password: string)
  {
    (user.username == login || user.email == login) && user.password == password
  }

  /** The position of the first user from `from` on that `Accepts`, or `|users|` when there is none. */
  function FirstAccepting(users: seq<User>, login: string, password: string, from: nat): (k: nat)
    requires from <= |users|
    ensures from <= k <= |users|
    ensures k < |users| ==> Accepts(users[k], login, password)
    ensures forall j :: from <= j < k ==> !Accepts(users[j], login, password)
    decreases |users| - from
  {
    if from == |users| || Accepts(users[from], login, password) then from
    else FirstAccepting(users, login, password, from + 1)
  }

  /** authenticateUser: the first user in list order that the credentials match, or none. */
  function AuthenticateUser(users: seq<User>, login: string, password: string): (r: Option<User>)
    ensures r.None? <==> forall i :: 0 <= i < |users| ==> !Accepts(users[i], login, password)
    ensures r.Some? ==> exists i :: 0 <= i < |users| && users[i] == r.value && Accepts(r.value, login, password)
                                     && forall j :: 0 <= j < i ==> !Accepts(users[j], login, password)
  {
    var k := FirstAccepting(users, login, password, 0);
    if k < |users| then Some(users[k]) else None
  }

  // ---------------------------------------------------------------------
  // Sign-up

  /** createUser: the record appended on sign-up, with id `"user_" + now`. */
  function CreateUser(username: string, email: string, password: string, now: nat): User
  {
    User("user_" + Decimal(now), username, email, password, now, now)
  }

  /**
   * The validation chain of handleSignup on trimmed fields: a blank field
   * first, then a short password, then a malformed email.
   */
  function ValidateSignup(username: string, email: string, password: string): (r: Option<AuthError>)
    ensures r == Some(BlankField) <==> username == "" || email == "" || password == ""
    ensures r == Some(ShortPassword) <==>
              username != "" && email != "" && password != "" && |password| < MinPasswordLength
    ensures r == Some(InvalidEmail) <==>
              username != "" && email != "" && |password| >= MinPasswordLength && !IsValidEmail(email)
    ensures r == None <==>
              username != "" && email != "" && |password| >= MinPasswordLength && IsValidEmail(email)
  {
    if username == "" || email == "" || password == "" then Some(BlankField)
    else if |password| < MinPasswordLength then Some(ShortPassword)
    else if !IsValidEmail(email) then Some(InvalidEmail)
    else None
  }

  /** The raw values of the sign-up form and the time of submission. */
  datatype SignupForm = SignupForm(username: string, email: string, password: string, at: nat)

  /**
   * The answer handleSignup gives to a form: the first failed check on the
   * trimmed fields, then the duplicate check, and otherwise the new user.
   */
  function SignupOutcome(users: seq<User>, form: SignupForm): (r: Result<User, AuthError>)
    ensures r.Success? <==>
              ValidateSignup(Trim(form.username), Trim(form.email), Trim(form.password)) == None
              && !UserExists(users, Trim(form.username), Trim(form.email))
    ensures r.Success? ==> r.value == CreateUser(Trim(form.username), Trim(form.email), Trim(form.password), form.at)
    ensures r == Failure(AlreadyTaken) <==>
              ValidateSignup(Trim(form.username), Trim(form.email), Trim(form.password)) == None
              && UserExists(users, Trim(form.username), Trim(form.email))
    ensures r.Failure? && r.error != AlreadyTaken ==>
              ValidateSignup(Trim(form.username), Trim(form.email), Trim(form.password)) == Some(r.error)
  {
    var username, email, password := Trim(form.username), Trim(form.email), Trim(form.password);
    match ValidateSignup(username, email, password)
    case Some(e) => Failure(e)
    case None =>
      if UserExists(users, username, email) then Failure(AlreadyTaken)
      else Success(CreateUser(username, email, password, form.at))
  }

  /** The registry after one sign-up attempt: the new user appended only when the form passes and the user is new. */
  function UsersAfterSignup(users: seq<User>, form: SignupForm): seq<User>
  {
    match SignupOutcome(users, form)
    case Success(created) => users + [created]
    case Failure(_) => users
  }

  /** The registry after a series of sign-up attempts. */
  function UsersAfterSignups(users: seq<User>, forms: seq<SignupForm>): seq<User>
    decreases |forms|
  {
    if forms == [] then users else UsersAfterSignups(UsersAfterSignup(users, forms[0]), forms[1..])
  }

  /** No two users share a username and no two share an email. */
  ghost predicate DistinctIdentities(users: seq<User>)
  {
    forall i, j :: 0 <= i < j < |users| ==>
      users[i].username != users[j].username && users[i].email != users[j].email
  }

  /** One sign-up attempt keeps usernames and emails distinct. */
  lemma SignupKeepsIdentitiesDistinct(users: seq<User>, form: SignupForm)
    requires DistinctIdentities(users)
    ensures DistinctIdentities(UsersAfterSignup(users, form))
  {
    var username, email, password := Trim(form.username), Trim(form.email), Trim(form.password);
    if ValidateSignup(username, email, password).None? && !UserExists(users, username, email) {
      var created := CreateUser(username, email, password, form.at);
      var after := users + [created];
      forall i, j | 0 <= i < j < |after|
        ensures after[i].username != after[j].username && after[i].email != after[j].email
      {
        assert after[i] == users[i];
        if j == |users| {
          assert after[j] == created;
        } else {
          assert after[j] == users[j];
        }
      }
    }
  }

  /** Any series of sign-up attempts keeps usernames and emails distinct. */
  lemma {:induction false} SignupsKeepIdentitiesDistinct(users: seq<User>, forms: seq<SignupForm>)
    requires DistinctIdentities(users)
    ensures DistinctIdentities(UsersAfterSignups(users, forms))
    decreases |forms|
  {
    if forms != [] {
      SignupKeepsIdentitiesDistinct(users, forms[0]);
      SignupsKeepIdentitiesDistinct(UsersAfterSignup(users, forms[0]), forms[1..]);
    }
  }

  /**
   * After a sign-up appends a user, logging in with its username or its
   * email and its password finds a user; when no earlier user accepts the
   * same credentials, it finds exactly the new one.
   */
  lemma SignedUpUserCanLogIn(users: seq<User>, username: string, email: string, password: string, now: nat)
    ensures var after := users + [CreateUser(username, email, password, now)];
      && AuthenticateUser(after, username, password).Some?
      && AuthenticateUser(after, email, password).Some?
      && ((forall i :: 0 <= i < |users| ==> !Accepts(users[i], username, password)) ==>
            AuthenticateUser(after, username, password) == Some(CreateUser(username, email, password, now)))
  {
    var after := users + [CreateUser(username, email, password, now)];
    assert Accepts(after[|users|], username, password) && Accepts(after[|users|], email, password);
  }

  /**
   * The duplicate check compares usernames with usernames and emails with
   * emails only, so a username may equal an earlier user's email; a login
   * with that identifier then finds the earlier user when the passwords
   * agree.
   */
  lemma UsernameMayShadowEarlierEmail()
    ensures var earlier := User("user_1", "alice", "a@b.co", "secret1", 1, 1);
      && !UserExists([earlier], "a@b.co", "x@y.zz")
      && ValidateSignup("a@b.co", "x@y.zz", "secret1") == None
      && AuthenticateUser([earlier] + [CreateUser("a@b.co", "x@y.zz", "secret1", 2)], "a@b.co", "secret1") == Some(earlier)
  {
    SplitFromShape("x@y.zz", 1, 1);
  }

  // ---------------------------------------------------------------------
  // The registry object

  class AuthManager {
    var users: seq<User>
    var currentUser: Option<User>

    /** The registry and the logged-in user read back from storage. */
    constructor (storedUsers: seq<User>, storedCurrent: Option<User>)
      ensures users == storedUsers && currentUser == storedCurrent
    {
      users := storedUsers;
      currentUser := storedCurrent;
    }

    /**
     * handleSignup: trim the fields, refuse the first failed check (blank,
     * short password, malformed email, existing username or email) without
     * changing anything; otherwise append the new user and make it current.
     * `notice` is the text of the notification shown.
     */
    method HandleSignup(usernameInput: string, emailInput: string, passwordInput: string, now: nat)
      returns (outcome: Result<User, AuthError>, notice: string)
      modifies this
      ensures notice == if outcome.Success? then SignupWelcome else Notice(outcome.error)
      ensures outcome == SignupOutcome(old(users), SignupForm(usernameInput, emailInput, passwordInput, now))
      ensures users == UsersAfterSignup(old(users), SignupForm(usernameInput, emailInput, passwordInput, now))
      ensures outcome.Success? ==> users == old(users) + [outcome.value] && currentUser == Some(outcome.value)
      ensures outcome.Failure? ==> users == old(users) && currentUser == old(currentUser)
      ensures DistinctIdentities(old(users)) ==> DistinctIdentities(users)
    {
      ghost var form := SignupForm(usernameInput, emailInput, passwordInput, now);
      var username, email, password := Trim(usernameInput), Trim(emailInput), Trim(passwordInput);
      var refusal := ValidateSignup(username, email, password);
      if refusal.Some? {
        return Failure(refusal.value), Notice(refusal.value);
      }
      if UserExists(users, username, email) {
        return Failure(AlreadyTaken), Notice(AlreadyTaken);
      }
      var newUser := CreateUser(username, email, password, now);
      if DistinctIdentities(users) {
        SignupKeepsIdentitiesDistinct(users, form);
      }
      users := users + [newUser];
      currentUser := Some(newUser);
      outcome := Success(newUser);
      notice := SignupWelcome;
    }

    /**
     * handleLogin: trim the fields, refuse a blank one before any lookup,
     * and make the user found by authenticateUser current; the registry is
     * never changed. `notice` is the text of the notification shown.
     */
    method HandleLogin(usernameInput: string, passwordInput: string) returns (outcome: Result<User, AuthError>, notice: string)
      modifies this`currentUser
      ensures notice == if outcome.Success? then LoginWelcome else Notice(outcome.error)
      ensures users == old(users)
      ensures Trim(usernameInput) == "" || Trim(passwordInput) == "" ==>
                outcome == Failure(BlankField) && currentUser == old(currentUser)
      ensures Trim(usernameInput) != "" && Trim(passwordInput) != "" ==>
                match AuthenticateUser(users, Trim(usernameInput), Trim(passwordInput))
                case Some(user) => outcome == Success(user) && currentUser == Some(user)
                case None => outcome == Failure(WrongCredentials) && currentUser == old(currentUser)
    {
      var username, password := Trim(usernameInput), Trim(passwordInput);
      if username == "" || password == "" {
        return Failure(BlankField), Notice(BlankField);
      }
      var user := AuthenticateUser(users, username, password);
      if user.Some? {
        currentUser := user;
        outcome := Success(user.value);
        notice := LoginWelcome;
      } else {
        outcome := Failure(WrongCredentials);
        notice := Notice(WrongCredentials);
      }
    }
  }
}
