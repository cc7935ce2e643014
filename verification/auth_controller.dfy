/**
 * The account handlers of backend/src/controllers/authController.js:
 * `register` and `googleLogin` insert a user and its patient row, `login`
 * checks a password against the stored hash. Each returns a token signed
 * over the user's id.
 */
module AuthController {
  import opened Wrappers
  import opened Store
  import Query
  import AuthMiddleware

  const UserExists := "User already exists"
  const ServerError := "Server error"
  const InvalidCredentials := "Invalid credentials"
  const UserCreated := "User created successfully"
  const LoginSuccessful := "Login successful"
  const GoogleLoginSuccessful := "Google login successful"

  /** The `user: { id, name, email }` part of the register reply. */
  datatype Account = Account(id: nat, name: string, email: string)

  datatype AuthBody =
    | Error(error: string)
    | Registered(message: string, token: string, account: Account)
    | SignedIn(message: string, token: string, user: UserView)

  /** `WHERE email = ?`. */
  function ByEmail(email: string): User -> bool {
    (u: User) => u.email == email
  }

  /** `WHERE google_id = ? OR email = ?`. */
  function ByGoogleOrEmail(googleId: string, email: string): User -> bool {
    (u: User) => u.googleId == Some(googleId) || u.email == email
  }

  predicate EmailTaken(users: seq<User>, email: string) {
    exists i :: 0 <= i < |users| && users[i].email == email
  }

  // ---------------------------------------------------------------------------
  // register

  /** `register`: store call 0 looks for the e-mail, 1 inserts the user with
      the hashed password, 2 inserts the patient row; the calls are not in a
      transaction, so a failure of call 2 leaves the user row behind. */
  method Register(db: Database, c: Crypto, fault: Fault, name: string, email: string, password: string)
    returns (reply: Reply<AuthBody>)
    requires db.Valid()
    modifies db`users, db`nextUserId, db`patients, db`nextPatientId
    ensures db.Valid()
    ensures reply.status == 201 || reply.status == 400 || reply.status == 500
    ensures Fails(fault, 0) ==> reply == Reply(500, Error(ServerError))
    ensures !Fails(fault, 0) && EmailTaken(old(db.users), email) ==> reply == Reply(400, Error(UserExists))
    ensures Fails(fault, 0) || EmailTaken(old(db.users), email) || Fails(fault, 1) ==>
              db.users == old(db.users) && db.patients == old(db.patients)
    ensures !Fails(fault, 0) && !EmailTaken(old(db.users), email) && Fails(fault, 1) ==>
              reply == Reply(500, Error(ServerError))
    ensures !Fails(fault, 0) && !EmailTaken(old(db.users), email) && !Fails(fault, 1) ==>
              db.users == old(db.users)
                + [User(old(db.nextUserId), name, email, Some(c.hash(password)), db.defaultRole, None)]
    ensures !Fails(fault, 0) && !EmailTaken(old(db.users), email) && !Fails(fault, 1) && Fails(fault, 2) ==>
              db.patients == old(db.patients) && reply == Reply(500, Error(ServerError))
    ensures reply.status == 201 ==>
              db.patients == old(db.patients) + [PatientRow(old(db.nextPatientId), old(db.nextUserId))]
              && reply == Reply(201, Registered(UserCreated, c.sign(old(db.nextUserId)),
                                                Account(old(db.nextUserId), name, email)))
    ensures reply.status == 201 <==>
              !Fails(fault, 0) && !EmailTaken(old(db.users), email) && !Fails(fault, 1) && !Fails(fault, 2)
  {
    if Fails(fault, 0) {
      return Reply(500, Error(ServerError));
    }
    var existing := Query.FirstIndex(db.users, ByEmail(email));
    if existing.Some? {
      return Reply(400, Error(UserExists));
    }
    var hashedPassword := c.hash(password);
    if Fails(fault, 1) {
      return Reply(500, Error(ServerError));
    }
    var insertId := db.InsertUser(name, email, Some(hashedPassword), db.defaultRole, None);
    if Fails(fault, 2) {
      return Reply(500, Error(ServerError));
    }
    var _ := db.InsertPatient(insertId);
    var token := c.sign(insertId);
    reply := Reply(201, Registered(UserCreated, token, Account(insertId, name, email)));
  }

  // ---------------------------------------------------------------------------
  // login

  /** `login`: store call 0 selects the users with the e-mail; the first one's
      hash is compared with the password. A NULL hash (an account made by
      Google login) makes the comparison throw. */
  function Login(users: seq<User>, c: Crypto, fault: Fault, email: string, password: string): (reply: Reply<AuthBody>)
    ensures reply.status == 200 || reply.status == 401 || reply.status == 500
    ensures Fails(fault, 0) ==> reply == Reply(500, Error(ServerError))
    ensures !EmailTaken(users, email) && !Fails(fault, 0) ==> reply == Reply(401, Error(InvalidCredentials))
    ensures reply.status == 401 ==> reply == Reply(401, Error(InvalidCredentials))
    ensures reply.status == 200 ==>
              exists k :: 0 <= k < |users| && users[k].email == email
                && users[k].password.Some? && c.compare(password, users[k].password.value)
                && reply == Reply(200, SignedIn(LoginSuccessful, c.sign(users[k].id), View(users[k])))
  {
    if Fails(fault, 0) then Reply(500, Error(ServerError))
    else match Query.FirstIndex(users, ByEmail(email))
      case None => Reply(401, Error(InvalidCredentials))
      case Some(k) =>
        match users[k].password
        case None => Reply(500, Error(ServerError))
        case Some(hash) =>
          if !c.compare(password, hash) then Reply(401, Error(InvalidCredentials))
          else Reply(200, SignedIn(LoginSuccessful, c.sign(users[k].id), View(users[k])))
  }

  /** An unknown e-mail and a wrong password for the first account with that
      e-mail get the same reply. */
  lemma LoginFailuresLookAlike(users: seq<User>, c: Crypto, email: string, password: string, k: nat)
    requires k < |users| && users[k].email == email && users[k].password.Some?
    requires forall j :: 0 <= j < k ==> users[j].email != email
    requires !c.compare(password, users[k].password.value)
    ensures Login(users, c, Healthy, email, password) == Login([], c, Healthy, email, password)
  {
    var first := Query.FirstIndex(users, ByEmail(email));
    assert ByEmail(email)(users[k]);
    assert first == Some(k);
  }

  /** For the first account with the e-mail, whatever rows follow it and
      whatever other accounts share the e-mail, the login succeeds exactly
      when the password matches that account's hash, with its token and view. */
  lemma LoginFirstAccount(users: seq<User>, c: Crypto, fault: Fault, email: string, password: string,
                          k: nat, h: string)
    requires !Fails(fault, 0)
    requires k < |users| && users[k].email == email && users[k].password == Some(h)
    requires forall j :: 0 <= j < k ==> users[j].email != email
    ensures Login(users, c, fault, email, password).status == 200 <==> c.compare(password, h)
    ensures c.compare(password, h) ==>
              Login(users, c, fault, email, password)
              == Reply(200, SignedIn(LoginSuccessful, c.sign(users[k].id), View(users[k])))
    ensures !c.compare(password, h) ==> Login(users, c, fault, email, password) == Reply(401, Error(InvalidCredentials))
  {
    assert ByEmail(email)(users[k]);
    assert Query.FirstIndex(users, ByEmail(email)) == Some(k);
  }

  /** The account `register` creates logs in with the same password, and the
      login token names the new id. */
  lemma RegisterThenLogin(users: seq<User>, c: Crypto, id: nat, name: string, email: string,
                          password: string, role: Role)
    requires Sound(c) && !EmailTaken(users, email)
    ensures Login(users + [User(id, name, email, Some(c.hash(password)), role, None)], c, Healthy, email, password)
            == Reply(200, SignedIn(LoginSuccessful, c.sign(id), UserView(id, name, email, role)))
  {
    var after := users + [User(id, name, email, Some(c.hash(password)), role, None)];
    var first := Query.FirstIndex(after, ByEmail(email));
    assert ByEmail(email)(after[|users|]);
    assert forall j :: 0 <= j < |users| ==> !ByEmail(email)(after[j]);
    assert first == Some(|users|);
  }

  /** The token `register` returns opens the gate for the new user. */
  lemma RegisterTokenAuthenticates(users: seq<User>, c: Crypto, id: nat, name: string, email: string,
                                   hash: Option<string>, role: Role, scheme: string)
    requires Sound(c) && KeyedBelow(users, UserKey, id) && ' ' !in scheme
    ensures AuthMiddleware.Decide(Some(scheme + " " + c.sign(id)), c,
                                  users + [User(id, name, email, hash, role, None)], Healthy)
            == AuthMiddleware.Pass(UserView(id, name, email, role))
  {
    var u := User(id, name, email, hash, role, None);
    KeyedAppend(users, UserKey, id, u);
    AuthMiddleware.IssuedTokenPasses(c, users + [u], id + 1, |users|, scheme);
  }

  // ---------------------------------------------------------------------------
  // googleLogin

  /** `googleLogin`: store call 0 selects the users with the Google id or the
      e-mail; with none, call 1 inserts a patient user without a password and
      call 2 its patient row. */
  method GoogleLogin(db: Database, c: Crypto, fault: Fault, name: string, email: string, googleId: string)
    returns (reply: Reply<AuthBody>)
    requires db.Valid()
    modifies db`users, db`nextUserId, db`patients, db`nextPatientId
    ensures db.Valid()
    ensures reply.status == 200 || reply.status == 500
    ensures Fails(fault, 0) ==>
              reply == Reply(500, Error(ServerError)) && db.users == old(db.users) && db.patients == old(db.patients)
    ensures !Fails(fault, 0) ==>
              match Query.FirstIndex(old(db.users), ByGoogleOrEmail(googleId, email))
              case Some(k) =>
                db.users == old(db.users) && db.patients == old(db.patients)
                && reply == Reply(200, SignedIn(GoogleLoginSuccessful, c.sign(old(db.users)[k].id),
                                                View(old(db.users)[k])))
              case None =>
                (Fails(fault, 1) ==> reply == Reply(500, Error(ServerError))
                                     && db.users == old(db.users) && db.patients == old(db.patients))
                && (!Fails(fault, 1) ==>
                      db.users == old(db.users)
                        + [User(old(db.nextUserId), name, email, None, Patient, Some(googleId))])
                && (!Fails(fault, 1) && Fails(fault, 2) ==>
                      reply == Reply(500, Error(ServerError)) && db.patients == old(db.patients))
                && (!Fails(fault, 1) && !Fails(fault, 2) ==>
                      db.patients == old(db.patients) + [PatientRow(old(db.nextPatientId), old(db.nextUserId))]
                      && reply == Reply(200, SignedIn(GoogleLoginSuccessful, c.sign(old(db.nextUserId)),
                                                      UserView(old(db.nextUserId), name, email, Patient))))
  {
    if Fails(fault, 0) {
      return Reply(500, Error(ServerError));
    }
    var rows := Query.FirstIndex(db.users, ByGoogleOrEmail(googleId, email));
    var user: UserView;
    if rows.None? {
      if Fails(fault, 1) {
        return Reply(500, Error(ServerError));
      }
      var insertId := db.InsertUser(name, email, None, Patient, Some(googleId));
      if Fails(fault, 2) {
        return Reply(500, Error(ServerError));
      }
      var _ := db.InsertPatient(insertId);
      user := UserView(insertId, name, email, Patient);
    } else {
      user := View(db.users[rows.value]);
    }
    var token := c.sign(user.id);
    reply := Reply(200, SignedIn(GoogleLoginSuccessful, token, user));
  }

  /** Once `googleLogin` has created an account, the same Google id and
      e-mail find that account, so a second call inserts nothing. */
  lemma GoogleLoginFindsCreatedAccount(users: seq<User>, id: nat, name: string, email: string, googleId: string)
    requires Query.FirstIndex(users, ByGoogleOrEmail(googleId, email)).None?
    ensures Query.FirstIndex(users + [User(id, name, email, None, Patient, Some(googleId))],
                             ByGoogleOrEmail(googleId, email)) == Some(|users|)
  {
    var after := users + [User(id, name, email, None, Patient, Some(googleId))];
    assert ByGoogleOrEmail(googleId, email)(after[|users|]);
    assert forall j :: 0 <= j < |users| ==> after[j] == users[j];
  }
}
