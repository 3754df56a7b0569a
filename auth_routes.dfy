/** The handlers of app/routes/auth_routes.py: signup and email verification
    change the user table; login only reads it. */
module AuthRoutes {
  import opened Wrappers
  import opened Http
  import opened Models

  /** Signup: a request with an email and a password adds a client user,
      unless that email is already registered.  `passwordHash` is the bcrypt
      hash of the password and `token` the fresh UUID the constructor draws. */
  method Signup(db: Database, email: Option<string>, password: Option<string>, passwordHash: string, token: string)
    returns (status: Status)
    requires db.Valid()
    requires forall j :: 0 <= j < |db.users| ==> db.users[j].verificationToken != Some(token)
    modifies db
    ensures db.Valid()
    ensures db.files == old(db.files) && db.uploads == old(db.uploads)
    ensures status in {BadRequest, Conflict, Created}
    ensures status == BadRequest <==> !Given(email) || !Given(password)
    ensures status == Conflict <==>
      Given(email) && Given(password) && exists j :: 0 <= j < |old(db.users)| && old(db.users)[j].email == email.value
    ensures status != Created ==> db.users == old(db.users)
    ensures status == Created ==>
      db.users == old(db.users) + [NewUser(|old(db.users)| + 1, email.value, passwordHash, "client", token)]
  {
    if !Given(email) || !Given(password) {
      return BadRequest;
    }
    var existing := UserByEmail(db.users, email.value);
    if existing.Some? {
      return Conflict;
    }
    var user := NewUser(|db.users| + 1, email.value, passwordHash, UserRole.Client.Value(), token);
    AddUserWellFormed(db.users, db.files, db.uploads, user);
    db.users := db.users + [user];
    status := Created;
  }

  /** Email verification: the user holding `token` is marked verified and
      the token is cleared, so it cannot be used again. */
  method VerifyEmail(db: Database, token: string) returns (status: Status)
    requires db.Valid()
    modifies db
    ensures db.Valid()
    ensures db.files == old(db.files) && db.uploads == old(db.uploads)
    ensures status in {Ok, NotFound}
    ensures status == NotFound <==>
      forall j :: 0 <= j < |old(db.users)| ==> old(db.users)[j].verificationToken != Some(token)
    ensures status == NotFound ==> db.users == old(db.users)
    ensures status == Ok ==>
      exists k :: 0 <= k < |old(db.users)| &&
        old(db.users)[k].verificationToken == Some(token) &&
        db.users == old(db.users)[k := Verified(old(db.users)[k])]
    ensures forall j :: 0 <= j < |db.users| ==> db.users[j].verificationToken != Some(token)
  {
    var k := UserByVerificationToken(db.users, token);
    if k.None? {
      return NotFound;
    }
    var user := db.users[k.value];
    MarkVerifiedWellFormed(db.users, db.files, db.uploads, k.value);
    db.users := db.users[k.value := Verified(user)];
    status := Ok;
  }

  /** A successful login yields the identity the access token carries and the
      user's stored role. */
  datatype LoginResponse =
    | LoginRefused(status: Status)
    | LoginGranted(userId: nat, email: string, role: string)

  /** Login, a read-only decision over the user table.  `checkPassword(hash,
      password)` is bcrypt's comparison of a password with a stored hash. */
  function Login(users: seq<User>, email: Option<string>, password: Option<string>,
                 checkPassword: (string, string) -> bool): (r: LoginResponse)
    ensures r == LoginRefused(BadRequest) <==> !Given(email) || !Given(password)
    ensures r.LoginRefused? ==> r.status in {BadRequest, Unauthorized, Forbidden}
    ensures r.LoginGranted? ==>
      exists i :: 0 <= i < |users| &&
        users[i].email == email.value &&
        checkPassword(users[i].passwordHash, password.value) &&
        (users[i].isVerified || users[i].role != "client") &&
        r == LoginGranted(users[i].id, users[i].email, users[i].role)
  {
    if !Given(email) || !Given(password) then LoginRefused(BadRequest)
    else
      match UserByEmail(users, email.value)
      case None => LoginRefused(Unauthorized)
      case Some(k) =>
        var user := users[k];
        if !checkPassword(user.passwordHash, password.value) then LoginRefused(Unauthorized)
        else if !user.isVerified && user.role == UserRole.Client.Value() then LoginRefused(Forbidden)
        else LoginGranted(user.id, user.email, user.role)
  }

  // ---------------------------------------------------------------------
  // Properties of login

  /** An email nobody registered is refused as bad credentials. */
  lemma LoginUnknownEmail(users: seq<User>, email: string, password: string, checkPassword: (string, string) -> bool)
    requires email != "" && password != ""
    requires forall j :: 0 <= j < |users| ==> users[j].email != email
    ensures Login(users, Some(email), Some(password), checkPassword) == LoginRefused(Unauthorized)
  {
  }

  /** The password is checked before the verification state: a wrong password
      is refused as bad credentials whether or not the user is verified. */
  lemma LoginChecksPasswordFirst(users: seq<User>, i: nat, password: string, checkPassword: (string, string) -> bool)
    requires UniqueEmails(users) && i < |users|
    requires users[i].email != "" && password != ""
    requires !checkPassword(users[i].passwordHash, password)
    ensures Login(users, Some(users[i].email), Some(password), checkPassword) == LoginRefused(Unauthorized)
  {
    UserByEmailUnique(users, i);
  }

  /** A client that has not verified its email is refused with 403. */
  lemma LoginUnverifiedClientForbidden(users: seq<User>, i: nat, password: string, checkPassword: (string, string) -> bool)
    requires UniqueEmails(users) && i < |users|
    requires users[i].email != "" && password != ""
    requires checkPassword(users[i].passwordHash, password)
    requires users[i].role == "client" && !users[i].isVerified
    ensures Login(users, Some(users[i].email), Some(password), checkPassword) == LoginRefused(Forbidden)
  {
    UserByEmailUnique(users, i);
  }

  /** An operations user with the right password logs in, verified or not. */
  lemma LoginOpsNeedsNoVerification(users: seq<User>, i: nat, password: string, checkPassword: (string, string) -> bool)
    requires UniqueEmails(users) && i < |users|
    requires users[i].email != "" && password != ""
    requires checkPassword(users[i].passwordHash, password)
    requires users[i].role == "operations"
    ensures Login(users, Some(users[i].email), Some(password), checkPassword) ==
      LoginGranted(users[i].id, users[i].email, "operations")
  {
    UserByEmailUnique(users, i);
  }

  /** A verified user with the right password logs in with its stored role. */
  lemma LoginVerifiedGranted(users: seq<User>, i: nat, password: string, checkPassword: (string, string) -> bool)
    requires UniqueEmails(users) && i < |users|
    requires users[i].email != "" && password != ""
    requires checkPassword(users[i].passwordHash, password)
    requires users[i].isVerified
    ensures Login(users, Some(users[i].email), Some(password), checkPassword) ==
      LoginGranted(users[i].id, users[i].email, users[i].role)
  {
    UserByEmailUnique(users, i);
  }

  /** The constructor marks every new user verified, so a client that has just
      signed up logs in at once, without verifying its email. */
  lemma SignupNeedsNoVerification(users: seq<User>, email: string, password: string, passwordHash: string,
                                  token: string, checkPassword: (string, string) -> bool)
    requires email != "" && password != ""
    requires forall j :: 0 <= j < |users| ==> users[j].email != email
    requires checkPassword(passwordHash, password)
    ensures Login(users + [NewUser(|users| + 1, email, passwordHash, "client", token)], Some(email), Some(password), checkPassword) ==
      LoginGranted(|users| + 1, email, "client")
  {
    var after := users + [NewUser(|users| + 1, email, passwordHash, "client", token)];
    assert after[|users|].email == email;
    assert forall j :: 0 <= j < |users| ==> after[j].email != email;
  }

  /** A client added with the column default, unverified: with the right
      password, login is refused with 403 until the email is verified. */
  lemma UnverifiedSignupForbidden(users: seq<User>, email: string, password: string, passwordHash: string,
                                  token: string, checkPassword: (string, string) -> bool)
    requires email != "" && password != ""
    requires forall j :: 0 <= j < |users| ==> users[j].email != email
    requires checkPassword(passwordHash, password)
    ensures Login(users + [UnverifiedUser(|users| + 1, email, passwordHash, "client", token)],
                  Some(email), Some(password), checkPassword) == LoginRefused(Forbidden)
  {
    var after := users + [UnverifiedUser(|users| + 1, email, passwordHash, "client", token)];
    assert after[|users|].email == email;
    assert forall j :: 0 <= j < |users| ==> after[j].email != email;
  }

  /** For the unverified client, the issued token picks out its row, so
      `VerifyEmail` with that token updates exactly that row; after the
      update the same login is granted. */
  lemma UnverifiedSignupVerifiedGranted(users: seq<User>, email: string, password: string, passwordHash: string,
                                        token: string, checkPassword: (string, string) -> bool)
    requires email != "" && password != ""
    requires forall j :: 0 <= j < |users| ==> users[j].email != email
    requires forall j :: 0 <= j < |users| ==> users[j].verificationToken != Some(token)
    requires checkPassword(passwordHash, password)
    ensures var after := users + [UnverifiedUser(|users| + 1, email, passwordHash, "client", token)];
      (forall k :: 0 <= k < |after| && after[k].verificationToken == Some(token) ==> k == |users|) &&
      Login(after[|users| := Verified(after[|users|])], Some(email), Some(password), checkPassword) ==
        LoginGranted(|users| + 1, email, "client")
  {
    var after := users + [UnverifiedUser(|users| + 1, email, passwordHash, "client", token)];
    assert forall j :: 0 <= j < |users| ==> after[j] == users[j];
    var verified := after[|users| := Verified(after[|users|])];
    assert verified[|users|].email == email;
    assert forall j :: 0 <= j < |users| ==> verified[j].email != email;
  }
}
