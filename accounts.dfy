/**
 * The `/signup`, `/login` and `/logout` handlers of app.py over the user table
 * and the session. The password hash is an ideal digest: it records the salt
 * and the secret, and checking it compares the secret.
 */
module Accounts {
  import opened Wrappers
  import opened Text

  /** `generate_password_hash(password)`: the salt stands for the library's random salt. */
  datatype PasswordHash = PasswordHash(salt: nat, secret: string)

  function GeneratePasswordHash(password: string, salt: nat): PasswordHash {
    PasswordHash(salt, password)
  }

  /** `check_password_hash(hash, password)`. */
  function CheckPasswordHash(hash: PasswordHash, password: string): bool {
    hash.secret == password
  }

  /** A hash checks against the password it was generated from, and against no other. */
  lemma CheckMatchesGenerate(password: string, salt: nat, attempt: string)
    ensures CheckPasswordHash(GeneratePasswordHash(password, salt), attempt) <==> attempt == password
  {
  }

  /** A row of the `users` table. */
  datatype User = User(id: nat, username: string, passwordHash: PasswordHash)

  /** What the session holds after a login: `user_id` and `username`. */
  datatype Session = Session(userId: nat, username: string)

  datatype SignupOutcome = FieldsRequired | UsernameTaken | SignedUp
  datatype LoginOutcome = InvalidCredentials | LoggedIn(userId: nat)

  /** A username as signup stores it: non-empty, without surrounding whitespace. */
  predicate IsStrippedName(name: string) {
    name != "" && !IsSpace(name[0]) && !IsSpace(name[|name| - 1])
  }

  /**
   * The value the `username` column is compared by: the name itself under a
   * case-sensitive collation, its lower-case form under a case-insensitive one
   * (MySQL's default). `filter_by(username=...)` finds the row with the same key.
   */
  function Key(name: string, ignoreCase: bool): string {
    if ignoreCase then Lower(name) else name
  }

  /**
   * The table's invariant: each row is stored under the key of its own
   * username, which signup has stripped; ids are below the next id and
   * pairwise distinct.
   */
  ghost predicate TableValid(users: map<string, User>, nextId: nat, ignoreCase: bool) {
    && 1 <= nextId
    && (forall k :: k in users ==>
          Key(users[k].username, ignoreCase) == k && IsStrippedName(users[k].username) && 1 <= users[k].id < nextId)
    && (forall a, b :: a in users && b in users && a != b ==> users[a].id != users[b].id)
  }

  /** A session names an existing user by that user's id and stored username. */
  ghost predicate SessionValid(users: map<string, User>, session: Option<Session>, ignoreCase: bool) {
    session.Some? ==>
      var k := Key(session.value.username, ignoreCase);
      k in users && users[k].id == session.value.userId && users[k].username == session.value.username
  }

  /** Adding a user with a new key under the next id keeps the table's invariant. */
  lemma InsertKeepsTable(users: map<string, User>, nextId: nat, ignoreCase: bool, user: User)
    requires TableValid(users, nextId, ignoreCase)
    requires Key(user.username, ignoreCase) !in users && IsStrippedName(user.username) && user.id == nextId
    ensures TableValid(users[Key(user.username, ignoreCase) := user], nextId + 1, ignoreCase)
  {
    var k := Key(user.username, ignoreCase);
    var grown := users[k := user];
    forall j | j in grown
      ensures Key(grown[j].username, ignoreCase) == j && IsStrippedName(grown[j].username) && 1 <= grown[j].id < nextId + 1
    {
      if j != k { assert grown[j] == users[j]; }
    }
    forall a, b | a in grown && b in grown && a != b ensures grown[a].id != grown[b].id {
      if a != k && b != k { assert grown[a] == users[a] && grown[b] == users[b]; }
    }
  }

  /** Adding a user with a new key keeps the session valid and adds exactly one row. */
  lemma InsertKeepsValid(users: map<string, User>, nextId: nat, session: Option<Session>, ignoreCase: bool, user: User)
    requires TableValid(users, nextId, ignoreCase) && SessionValid(users, session, ignoreCase)
    requires Key(user.username, ignoreCase) !in users && IsStrippedName(user.username) && user.id == nextId
    ensures TableValid(users[Key(user.username, ignoreCase) := user], nextId + 1, ignoreCase)
    ensures SessionValid(users[Key(user.username, ignoreCase) := user], session, ignoreCase)
    ensures |users[Key(user.username, ignoreCase) := user]| == |users| + 1
  {
    InsertKeepsTable(users, nextId, ignoreCase, user);
    var k := Key(user.username, ignoreCase);
    var grown := users[k := user];
    assert grown.Keys == users.Keys + {k};
    if session.Some? {
      var s := Key(session.value.username, ignoreCase);
      assert s in users && s != k;
      assert grown[s] == users[s];
    }
  }

  class UserRegistry {
    /** Whether the `username` column's collation ignores case. */
    const ignoreCase: bool
    /** The `users` table, keyed by the collation key of its unique username column. */
    var users: map<string, User>
    /** The next value of the auto-increment id column. */
    var nextId: nat
    var session: Option<Session>

    ghost predicate Valid()
      reads this
    {
      TableValid(users, nextId, ignoreCase) && SessionValid(users, session, ignoreCase)
    }

    constructor (ignoreCase: bool)
      ensures Valid()
      ensures this.ignoreCase == ignoreCase && users == map[] && nextId == 1 && session == None
    {
      this.ignoreCase := ignoreCase;
      users := map[];
      nextId := 1;
      session := None;
    }

    /**
     * Both fields are stripped; either one empty is refused, a username whose
     * key is already in the table is refused, and otherwise exactly one row is
     * added under a fresh id. The session is not touched.
     */
    method Signup(username: string, password: string, salt: nat) returns (outcome: SignupOutcome)
      requires Valid()
      modifies this`users, this`nextId
      ensures Valid()
      ensures var name, secret := Strip(username), Strip(password);
        outcome == (if name == "" || secret == "" then FieldsRequired
                    else if Key(name, ignoreCase) in old(users) then UsernameTaken
                    else SignedUp)
      ensures outcome == SignedUp ==>
        && users == old(users)[Key(Strip(username), ignoreCase) :=
             User(old(nextId), Strip(username), GeneratePasswordHash(Strip(password), salt))]
        && |users| == |old(users)| + 1
        && nextId == old(nextId) + 1
      ensures outcome != SignedUp ==> users == old(users) && nextId == old(nextId)
    {
      var name := Strip(username);
      var secret := Strip(password);
      if name == "" || secret == "" {
        return FieldsRequired;
      }
      var key := Key(name, ignoreCase);
      if key in users {
        return UsernameTaken;
      }
      var user := User(nextId, name, GeneratePasswordHash(secret, salt));
      InsertKeepsValid(users, nextId, session, ignoreCase, user);
      users := users[key := user];
      nextId := nextId + 1;
      outcome := SignedUp;
    }

    /**
     * Both fields are stripped; the login succeeds exactly when the username's
     * key finds a row whose stored hash checks against the password, and then
     * the session holds that row's id and stored username. A failed login
     * leaves the session as it was.
     */
    method Login(username: string, password: string) returns (outcome: LoginOutcome)
      requires Valid()
      modifies this`session
      ensures Valid()
      ensures var key, secret := Key(Strip(username), ignoreCase), Strip(password);
        if key in users && CheckPasswordHash(users[key].passwordHash, secret) then
          outcome == LoggedIn(users[key].id) && session == Some(Session(users[key].id, users[key].username))
        else
          outcome == InvalidCredentials && session == old(session)
    {
      var key := Key(Strip(username), ignoreCase);
      var secret := Strip(password);
      if key !in users || !CheckPasswordHash(users[key].passwordHash, secret) {
        return InvalidCredentials;
      }
      var user := users[key];
      session := Some(Session(user.id, user.username));
      outcome := LoggedIn(user.id);
    }

    /** `session.clear()`. */
    method Logout()
      requires Valid()
      modifies this`session
      ensures Valid() && session == None
    {
      session := None;
    }
  }

  /** A signup that succeeds is followed by a successful login with the same credentials. */
  method SignupThenLogin(registry: UserRegistry, username: string, password: string, salt: nat)
      returns (signedUp: SignupOutcome, loggedIn: LoginOutcome)
    requires registry.Valid()
    modifies registry
    ensures registry.Valid()
    ensures signedUp == SignedUp ==>
      loggedIn.LoggedIn? && registry.session.Some? && registry.session.value.username == Strip(username)
  {
    signedUp := registry.Signup(username, password, salt);
    loggedIn := registry.Login(username, password);
  }

  /**
   * Under a case-insensitive collation, a user who signed up can log in under
   * any case variant of the name, and the session then holds the name as it
   * was signed up; signing up the variant afterwards is refused as taken.
   */
  method CaseVariantLogin(registry: UserRegistry, name: string, variant: string, password: string, salt: nat)
      returns (signedUp: SignupOutcome, loggedIn: LoginOutcome, again: SignupOutcome)
    requires registry.Valid() && registry.ignoreCase
    requires Lower(Strip(variant)) == Lower(Strip(name))
    modifies registry
    ensures registry.Valid()
    ensures signedUp == SignedUp ==>
      && loggedIn.LoggedIn?
      && registry.session == Some(Session(loggedIn.userId, Strip(name)))
      && again == UsernameTaken
  {
    signedUp := registry.Signup(name, password, salt);
    loggedIn := registry.Login(variant, password);
    again := registry.Signup(variant, password, salt);
  }
}
