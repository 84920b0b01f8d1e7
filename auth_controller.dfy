/**
 * The authentication handlers: register, login, getMe, forgotPassword and
 * resetPassword. Each takes the request data it reads, the collaborators it
 * calls (token signing, SHA-256, the user model's password comparison, the
 * clock, the reset-token generator and the mailer's outcome) as parameters,
 * and reads or updates the account store in place.
 */
module AuthController {
  import opened Wrappers
  import opened Accounts
  import opened Http

  /** The body of POST /register once its validation chain has run. */
  datatype RegisterInput = RegisterInput(
    username: string, email: string, password: string,
    firstName: Option<string>, lastName: Option<string>)

  /** The body of POST /login once its validation chain has run. */
  datatype LoginInput = LoginInput(email: string, password: string)

  /** The body of PUT /resetpassword/:resettoken once its validation chain has run. */
  datatype ResetInput = ResetInput(password: string)

  /** How long a reset token stays usable: ten minutes, in milliseconds. */
  const ResetWindow: int := 10 * 60 * 1000

  const UserExists := "User already exists with this email or username"
  const Registered := "User registered successfully"
  const InvalidCredentials := "Invalid credentials"
  const LoginSucceeded := "Login successful"
  const UserNotFound := "User not found"
  const NoUserWithEmail := "User not found with this email"
  const EmailSent := "Email sent successfully"
  const EmailNotSent := "Email could not be sent"
  const InvalidOrExpiredToken := "Invalid or expired token"
  const ResetSucceeded := "Password reset successful"

  /** The document `User.create` makes from a registration body. */
  function NewAccount(id: Id, input: RegisterInput, now: int): (a: Account)
    ensures a.id == id && a.username == input.username && a.email == input.email
    ensures a.firstName == input.firstName && a.lastName == input.lastName
    ensures a.resetPasswordToken.None? && a.resetPasswordExpire.None?
  {
    Account(id, input.username, input.email, input.password, input.firstName, input.lastName,
            None, None, false, None, None, now)
  }

  /** The account a completed reset leaves: new password, no pending reset. */
  function Completed(a: Account, password: string): (b: Account)
    ensures b.password == password
    ensures b.resetPasswordToken.None? && b.resetPasswordExpire.None?
    ensures b.(password := a.password, resetPasswordToken := a.resetPasswordToken,
               resetPasswordExpire := a.resetPasswordExpire) == a
  {
    a.(password := password, resetPasswordToken := None, resetPasswordExpire := None)
  }

  /**
   * POST /register. A validation error gives 400 with the errors; an account
   * with the same email or the same username (exact comparison) gives 400;
   * otherwise one new account is stored and 201 carries a token for its id.
   */
  method Register(store: AccountStore, input: Checked<RegisterInput>, now: int, sign: Id -> string)
    returns (reply: Reply)
    requires store.Valid()
    modifies store
    ensures store.Valid()
    ensures input.Rejected? ==>
      reply == ValidationFailure && store.accounts == old(store.accounts) && store.nextId == old(store.nextId)
    ensures input.Accepted? && Taken(old(store.accounts), input.value.email, input.value.username) ==>
      reply == Failure(400, UserExists)
      && store.accounts == old(store.accounts) && store.nextId == old(store.nextId)
    ensures input.Accepted? && !Taken(old(store.accounts), input.value.email, input.value.username) ==>
      var id := old(store.nextId);
      && id !in old(store.accounts)
      && store.accounts == old(store.accounts)[id := NewAccount(id, input.value, now)]
      && reply == Success(201, Some(Registered), Some(sign(id)), Some(SummaryOf(store.accounts[id])))
  {
    if input.Rejected? {
      return ValidationFailure;
    }
    var body := input.value;
    var userExists := Taken(store.accounts, body.email, body.username);
    if userExists {
      return Failure(400, UserExists);
    }
    var id := store.nextId;
    var user := NewAccount(id, body, now);
    store.accounts := store.accounts[id := user];
    store.nextId := id + 1;
    reply := Success(201, Some(Registered), Some(sign(id)), Some(SummaryOf(user)));
  }

  /**
   * POST /login. An unknown email and a wrong password give the same 401;
   * a match gives 200 with a token for that account. Nothing is written.
   */
  method Login(store: AccountStore, input: Checked<LoginInput>, sign: Id -> string,
               comparePassword: (string, string) -> bool)
    returns (reply: Reply)
    requires store.Valid()
    ensures input.Rejected? ==> reply == ValidationFailure
    ensures input.Accepted? ==>
      (reply.Success? <==> exists k :: k in store.accounts && store.accounts[k].email == input.value.email
                                      && comparePassword(input.value.password, store.accounts[k].password))
    ensures input.Accepted? && !reply.Success? ==> reply == Failure(401, InvalidCredentials)
    ensures reply.Success? ==>
      forall k :: k in store.accounts && store.accounts[k].email == input.value.email ==>
        reply == Success(200, Some(LoginSucceeded), Some(sign(k)), Some(SummaryOf(store.accounts[k])))
  {
    if input.Rejected? {
      return ValidationFailure;
    }
    var body := input.value;
    if !HasEmail(store.accounts, body.email) {
      return Failure(401, InvalidCredentials);
    }
    var id :| id in store.accounts && store.accounts[id].email == body.email;
    var user := store.accounts[id];
    var isMatch := comparePassword(body.password, user.password);
    if !isMatch {
      return Failure(401, InvalidCredentials);
    }
    reply := Success(200, Some(LoginSucceeded), Some(sign(id)), Some(SummaryOf(user)));
  }

  /** GET /me: the requester's account without its secrets, or 404 once it is gone. */
  method GetMe(store: AccountStore, requester: Id) returns (reply: Reply)
    ensures requester !in store.accounts ==> reply == Failure(404, UserNotFound)
    ensures requester in store.accounts ==>
      reply == Success(200, None, None, Some(DetailOf(store.accounts[requester])))
  {
    if requester !in store.accounts {
      return Failure(404, UserNotFound);
    }
    var user := store.accounts[requester];
    reply := Success(200, None, None, Some(DetailOf(user)));
  }

  /**
   * POST /forgotpassword. The validation result is never consulted. An email
   * no account has gives 404. Otherwise the account gets the SHA-256 digest of
   * `resetToken` and an expiry ten minutes after `now`; when the mail cannot
   * be delivered both fields are cleared again and 500 is sent.
   */
  method ForgotPassword(store: AccountStore, email: string, resetToken: string, now: int,
                        sha256: string -> string, delivered: bool)
    returns (reply: Reply)
    requires store.Valid()
    modifies store
    ensures store.Valid() && store.nextId == old(store.nextId)
    ensures !HasEmail(old(store.accounts), email) ==>
      reply == Failure(404, NoUserWithEmail) && store.accounts == old(store.accounts)
    ensures forall k :: k in old(store.accounts) && old(store.accounts)[k].email == email ==>
      var before := old(store.accounts)[k];
      if delivered then
        && reply == Success(200, Some(EmailSent), None, None)
        && store.accounts == old(store.accounts)[k := before.(resetPasswordToken := Some(sha256(resetToken)),
                                                             resetPasswordExpire := Some(now + ResetWindow))]
      else
        && reply == Failure(500, EmailNotSent)
        && store.accounts == old(store.accounts)[k := before.(resetPasswordToken := None,
                                                             resetPasswordExpire := None)]
  {
    if !HasEmail(store.accounts, email) {
      return Failure(404, NoUserWithEmail);
    }
    var id :| id in store.accounts && store.accounts[id].email == email;
    var user := store.accounts[id];
    user := user.(resetPasswordToken := Some(sha256(resetToken)));
    user := user.(resetPasswordExpire := Some(now + ResetWindow));
    ghost var before := store.accounts;
    SaveKeepsInvariants(before, id, user);
    store.accounts := store.accounts[id := user];
    assert forall k :: k in before && before[k].email == email ==> k == id;
    if delivered {
      reply := Success(200, Some(EmailSent), None, None);
    } else {
      user := user.(resetPasswordToken := None);
      user := user.(resetPasswordExpire := None);
      SaveKeepsInvariants(before, id, user);
      store.accounts := store.accounts[id := user];
      assert store.accounts == before[id := user];
      reply := Failure(500, EmailNotSent);
    }
  }

  /**
   * PUT /resetpassword/:resettoken. Looks for an account whose stored digest
   * is the SHA-256 of the URL token and whose expiry is after `now`; none
   * gives 400. Otherwise that account gets the new password, loses both reset
   * fields, and 200 carries a token for it.
   */
  method ResetPassword(store: AccountStore, resetToken: string, input: Checked<ResetInput>, now: int,
                       sha256: string -> string, sign: Id -> string)
    returns (reply: Reply)
    requires store.Valid()
    modifies store
    ensures store.Valid() && store.nextId == old(store.nextId)
    ensures input.Rejected? ==> reply == ValidationFailure && store.accounts == old(store.accounts)
    ensures input.Accepted? && !(exists k :: k in old(store.accounts)
                                  && ResetMatches(old(store.accounts)[k], sha256(resetToken), now)) ==>
      reply == Failure(400, InvalidOrExpiredToken) && store.accounts == old(store.accounts)
    ensures input.Accepted? && reply.Success? ==>
      exists k :: k in old(store.accounts) && ResetMatches(old(store.accounts)[k], sha256(resetToken), now)
        && store.accounts == old(store.accounts)[k := Completed(old(store.accounts)[k], input.value.password)]
        && reply == Success(200, Some(ResetSucceeded), Some(sign(k)), Some(BriefOf(store.accounts[k])))
    ensures input.Accepted? ==>
      (reply.Success? <==> exists k :: k in old(store.accounts)
                                      && ResetMatches(old(store.accounts)[k], sha256(resetToken), now))
  {
    if input.Rejected? {
      return ValidationFailure;
    }
    var digest := sha256(resetToken);
    if !(exists k :: k in store.accounts && ResetMatches(store.accounts[k], digest, now)) {
      return Failure(400, InvalidOrExpiredToken);
    }
    var id :| id in store.accounts && ResetMatches(store.accounts[id], digest, now);
    var user := store.accounts[id];
    user := user.(password := input.value.password);
    user := user.(resetPasswordToken := None);
    user := user.(resetPasswordExpire := None);
    SaveKeepsInvariants(store.accounts, id, user);
    store.accounts := store.accounts[id := user];
    reply := Success(200, Some(ResetSucceeded), Some(sign(id)), Some(BriefOf(user)));
  }

  /** The accounts whose pending reset matches `digest` at time `now`. */
  function Matching(m: map<Id, Account>, digest: string, now: int): set<Id> {
    set k | k in m && ResetMatches(m[k], digest, now)
  }

  /**
   * A reset token is single use: once the reset of account `k` completes, `k`
   * no longer matches any digest at any time, and every other account matches
   * exactly as before.
   */
  lemma CompletingRemovesOnlyThatAccount(m: map<Id, Account>, k: Id, password: string,
                                         digest: string, later: int)
    requires k in m
    ensures Matching(m[k := Completed(m[k], password)], digest, later) == Matching(m, digest, later) - {k}
  {
  }

  /**
   * A reset requested at `requested` can be completed at `now` exactly when
   * `now` is less than ten minutes later; at the expiry instant it is too late.
   */
  lemma ResetWindowIsExclusive(a: Account, digest: string, requested: int, now: int)
    ensures ResetMatches(a.(resetPasswordToken := Some(digest),
                            resetPasswordExpire := Some(requested + ResetWindow)), digest, now)
            <==> now < requested + 600000
  {
  }

  /**
   * The reset flow end to end: a reset requested at `requested` and delivered
   * can be completed at `now` exactly when `now` is inside the ten-minute
   * window, and replaying the same token afterwards is refused, provided no
   * other account holds the same digest.
   */
  method ResetTokenIsSingleUse(store: AccountStore, email: string, resetToken: string,
                               requested: int, now: int, later: int, password: string,
                               sha256: string -> string, sign: Id -> string)
    returns (first: Reply, replay: Reply)
    requires store.Valid() && HasEmail(store.accounts, email) && now <= later
    requires forall k :: k in store.accounts && store.accounts[k].email != email ==>
               store.accounts[k].resetPasswordToken != Some(sha256(resetToken))
    modifies store
    ensures store.Valid()
    ensures first.Status() == 200 <==> now < requested + ResetWindow
    ensures replay == Failure(400, InvalidOrExpiredToken)
  {
    var digest := sha256(resetToken);
    ghost var id :| id in store.accounts && store.accounts[id].email == email;
    var _ := ForgotPassword(store, email, resetToken, requested, sha256, true);
    assert store.accounts[id].resetPasswordExpire == Some(requested + ResetWindow);
    assert forall k :: k in store.accounts && k != id ==> !ResetMatches(store.accounts[k], digest, now);
    ghost var pending := store.accounts;
    assert pending[id].resetPasswordToken == Some(digest);
    assert (exists k :: k in pending && ResetMatches(pending[k], digest, now))
           <==> ResetMatches(pending[id], digest, now);
    first := ResetPassword(store, resetToken, Accepted(ResetInput(password)), now, sha256, sign);
    if first.Success? {
      ghost var k :| k in pending && ResetMatches(pending[k], digest, now)
                     && store.accounts == pending[k := Completed(pending[k], password)];
      assert k == id;
    } else {
      assert store.accounts == pending;
    }
    assert forall k :: k in store.accounts ==> !ResetMatches(store.accounts[k], digest, later);
    replay := ResetPassword(store, resetToken, Accepted(ResetInput(password)), later, sha256, sign);
  }
}
