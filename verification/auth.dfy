/**
 * Registration, credential checking and the session gate. Password hashing
 * and verification are bcrypt calls in the system; here they are functions
 * supplied by the caller, about which only what a property needs is assumed.
 */
module Auth {
  import opened Wrappers
  import opened Schema
  import opened Storage

  const EMAIL_TAKEN: string := "Email já está em uso"
  const BAD_CREDENTIALS: string := "Email ou senha incorretos"
  const LOCAL_PROVIDER: string := "local"

  /** The part of the server session the handlers read. */
  datatype Session = Session(userId: Option<Id>)

  /**
   * `isAuthenticated`: a request goes on to its handler with the session's
   * user, or is answered 401 when the session holds none.
   */
  function RequireUser(session: Session): (r: Result<Id, int>)
    ensures r.Err? <==> session.userId.None?
    ensures r.Err? ==> r.error == 401
    ensures r.Ok? ==> Some(r.value) == session.userId
  {
    match session.userId
    case None => Err(401)
    case Some(id) => Ok(id)
  }

  /** The row `registerUser` stores for a new account. */
  function NewAccount(id: Id, email: string, password: string, displayName: string, hash: string -> string): User {
    User(id, email, Some(hash(password)), None, None, Some(displayName), None, true, LOCAL_PROVIDER)
  }

  /**
   * `registerUser`: rejects a taken email without touching the store;
   * otherwise stores the hash of the password (never the password itself),
   * marks the account local and already onboarded.
   */
  method RegisterUser(store: Store, email: string, password: string, displayName: string, hash: string -> string)
    returns (r: Result<User, string>)
    requires store.Valid()
    modifies store
    ensures store.Valid()
    ensures store.entries == old(store.entries) && store.stats == old(store.stats)
    ensures store.achievements == old(store.achievements)
    ensures FindUserByEmail(old(store.users), email).Some? ==>
      r == Err(EMAIL_TAKEN) && store.users == old(store.users)
    ensures FindUserByEmail(old(store.users), email).None? ==>
      && r == Ok(NewAccount(old(store.nextId), email, password, displayName, hash))
      && store.users == old(store.users) + [r.value]
  {
    var existing := store.GetUserByEmail(email);
    if existing.Some? {
      return Err(EMAIL_TAKEN);
    }
    var passwordHash := hash(password);
    var created := store.CreateUser(email, Some(passwordHash), Some(displayName), LOCAL_PROVIDER, true);
    r := Ok(created.value);
  }

  /** A stored hash is usable only when present and non-empty (JavaScript truthiness). */
  predicate HasPassword(u: User) {
    u.passwordHash.Some? && u.passwordHash.value != ""
  }

  /**
   * `authenticateUser`: the user stored under the email, when it has a
   * password hash that `verify` accepts. Every failure carries the same
   * message, so a caller cannot tell an unknown email from a wrong password.
   */
  function AuthenticateUser(users: seq<User>, email: string, password: string, verify: (string, string) -> bool)
    : (r: Result<User, string>)
    ensures r.Err? ==> r.error == BAD_CREDENTIALS
    ensures r.Ok? ==> r.value in users && r.value.email == email
    ensures r.Ok? ==> HasPassword(r.value) && verify(password, r.value.passwordHash.value)
    ensures (forall u :: u in users ==> u.email != email) ==> r.Err?
  {
    match FindUserByEmail(users, email)
    case None => Err(BAD_CREDENTIALS)
    case Some(i) =>
      var u := users[i];
      if !HasPassword(u) then Err(BAD_CREDENTIALS)
      else if !verify(password, u.passwordHash.value) then Err(BAD_CREDENTIALS)
      else Ok(u)
  }

  /**
   * With unique emails, login succeeds exactly for the user stored under
   * the email, when its hash is usable and accepts the password.
   */
  lemma AuthenticateExactly(users: seq<User>, email: string, password: string, verify: (string, string) -> bool)
    requires UniqueUsers(users)
    ensures AuthenticateUser(users, email, password, verify).Ok? <==>
      exists u :: u in users && u.email == email && HasPassword(u) && verify(password, u.passwordHash.value)
  {
    if r :| r in users && r.email == email && HasPassword(r) && verify(password, r.passwordHash.value) {
      var i := FindUserByEmail(users, email).value;
      var j :| 0 <= j < |users| && users[j] == r;
      assert users[i].email == users[j].email;
      assert i == j;
    }
  }

  /**
   * Registering and then logging in with the same email and password
   * succeeds, provided `verify` accepts a password against its own hash.
   */
  lemma {:induction false} LoginAfterRegister(users: seq<User>, id: Id, email: string, password: string,
                                              displayName: string, hash: string -> string,
                                              verify: (string, string) -> bool)
    requires forall u :: u in users ==> u.email != email
    requires verify(password, hash(password)) && hash(password) != ""
    ensures var account := NewAccount(id, email, password, displayName, hash);
      AuthenticateUser(users + [account], email, password, verify) == Ok(account)
  {
    var account := NewAccount(id, email, password, displayName, hash);
    var all := users + [account];
    assert all[|users|] == account;
  }
}
