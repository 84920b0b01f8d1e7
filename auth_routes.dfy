/**
 * The authentication router: the validation chains of register, login,
 * forgotpassword and resetpassword, what they let through to the handlers,
 * and the route table, in which only GET /me goes through the session gate.
 */
module AuthRoutes {
  import opened Wrappers
  import Text
  import opened Http
  import opened Validation
  import opened Router
  import AuthController
  import opened Accounts
  import opened AuthMiddleware

  const UsernameChain := FieldChain(Username, false, [Trim, IsLength(3, AtMost(30)), MatchesWordChars])
  const EmailChain := FieldChain(Email, false, [IsEmail])
  const NewPasswordChain := FieldChain(Password, false, [IsLength(6, Unbounded)])
  const LoginPasswordChain := FieldChain(Password, false, [NotEmpty])

  const RegisterValidation: seq<FieldChain> := [
    UsernameChain, EmailChain, NewPasswordChain,
    OptionalTrimmedChain(FirstName, 50), OptionalTrimmedChain(LastName, 50)
  ]
  const LoginValidation: seq<FieldChain> := [EmailChain, LoginPasswordChain]
  const ForgotPasswordValidation: seq<FieldChain> := [EmailChain]
  const ResetPasswordValidation: seq<FieldChain> := [NewPasswordChain]

  /** The username rule on the raw value: 3 to 30 word characters once trimmed. */
  predicate UsernameValid(raw: string) {
    var u := Text.Trim(raw);
    3 <= |u| <= 30 && forall i :: 0 <= i < |u| ==> Text.IsWordChar(u[i])
  }

  /** A chain of one validator that does not sanitize reports that validator's verdict. */
  lemma CheckOnlyChain(field: Field, step: Step, body: Body, v: Validators)
    requires !step.Trim?
    ensures RunChain(FieldChain(field, false, [step]), body, v) == Outcome(Passes(step, Read(body, field), v), body)
  {
    OneStep(step, Read(body, field), v);
    if field in body {
      assert body[field := body[field]] == body;
    }
  }

  lemma UsernameChainMeaning(body: Body, v: Validators)
    ensures RunChain(UsernameChain, body, v)
            == Outcome(UsernameValid(Read(body, Username)), TrimmedIfPresent(body, Username))
  {
    var u := Text.Trim(Read(body, Username));
    ThreeSteps(Trim, IsLength(3, AtMost(30)), MatchesWordChars, Read(body, Username), v);
    if forall i :: 0 <= i < |u| ==> Text.IsWordChar(u[i]) {
      assert forall i :: 0 <= i < |u| ==> !Text.IsVariationSelector(u[i]);
      assert Text.CountedLength(u) == |u|;
    }
  }

  /** The rules of POST /register, stated on the raw body. */
  predicate RegisterRulesHold(body: Body, v: Validators) {
    && UsernameValid(Read(body, Username))
    && v.isEmail(Read(body, Email))
    && Text.CountedLength(Read(body, Password)) >= 6
    && OptionalTrimmedAtMost(body, FirstName, 50)
    && OptionalTrimmedAtMost(body, LastName, 50)
  }

  /** The body after the register chains: username and names trimmed where present. */
  function RegisterSanitized(body: Body): Body {
    TrimmedIfPresent(TrimmedIfPresent(TrimmedIfPresent(body, Username), FirstName), LastName)
  }

  lemma RegisterChainsResult(body: Body, v: Validators)
    ensures RunAll(RegisterValidation, body, v) == Outcome(RegisterRulesHold(body, v), RegisterSanitized(body))
  {
    var chains := RegisterValidation;
    var b1 := TrimmedIfPresent(body, Username);
    var b4 := TrimmedIfPresent(b1, FirstName);
    var b5 := TrimmedIfPresent(b4, LastName);
    assert Read(b1, Email) == Read(body, Email) && Read(b1, Password) == Read(body, Password);
    assert OptionalTrimmedAtMost(b1, FirstName, 50) == OptionalTrimmedAtMost(body, FirstName, 50);
    assert OptionalTrimmedAtMost(b4, LastName, 50) == OptionalTrimmedAtMost(body, LastName, 50);
    assert RunAll(chains[1..][1..][1..], b1, v)
           == Outcome(OptionalTrimmedAtMost(b1, FirstName, 50) && OptionalTrimmedAtMost(b4, LastName, 50), b5) by {
      OptionalTrimmedChainMeaning(FirstName, 50, b1, v);
      OptionalTrimmedChainMeaning(LastName, 50, b4, v);
      assert chains[1..][1..][1..][1..][1..] == [];
      assert RunAll(chains[1..][1..][1..][1..], b4, v) == Outcome(OptionalTrimmedAtMost(b4, LastName, 50), b5);
    }
    assert RunAll(chains[1..], b1, v)
           == Outcome(v.isEmail(Read(b1, Email)) && Text.CountedLength(Read(b1, Password)) >= 6
               && OptionalTrimmedAtMost(b1, FirstName, 50) && OptionalTrimmedAtMost(b4, LastName, 50), b5) by {
      CheckOnlyChain(Email, IsEmail, b1, v);
      CheckOnlyChain(Password, IsLength(6, Unbounded), b1, v);
    }
    UsernameChainMeaning(body, v);
  }

  /** POST /register's chains followed by `validationResult`. */
  function CheckRegister(body: Body, v: Validators): Checked<AuthController.RegisterInput> {
    var checked := RunAll(RegisterValidation, body, v);
    var b := checked.body;
    if checked.ok then
      Accepted(AuthController.RegisterInput(Read(b, Username), Read(b, Email), Read(b, Password),
                                            Lookup(b, FirstName), Lookup(b, LastName)))
    else Rejected
  }

  /**
   * Registration gets through exactly when the trimmed username has 3 to 30
   * word characters, the email passes `isEmail`, the password has at least 6
   * characters and each name, when present, has at most 50 once trimmed, where
   * `isLength` leaves the variation selectors U+FE0E and U+FE0F uncounted. The
   * handler then receives the trimmed username and names and the email and
   * password as sent.
   */
  lemma RegisterValidationMeaning(body: Body, v: Validators)
    ensures CheckRegister(body, v).Accepted? <==> RegisterRulesHold(body, v)
    ensures CheckRegister(body, v).Accepted? ==>
      var input := CheckRegister(body, v).value;
      && input.username == Text.Trim(Read(body, Username))
      && 3 <= |input.username| <= 30
      && (forall i :: 0 <= i < |input.username| ==> Text.IsWordChar(input.username[i]))
      && input.email == Read(body, Email)
      && input.password == Read(body, Password) && Text.CountedLength(input.password) >= 6
      && input.firstName == TrimmedField(body, FirstName)
      && input.lastName == TrimmedField(body, LastName)
      && (input.firstName.Some? ==> Text.CountedLength(input.firstName.value) <= 50 && Text.IsTrimmed(input.firstName.value))
      && (input.lastName.Some? ==> Text.CountedLength(input.lastName.value) <= 50 && Text.IsTrimmed(input.lastName.value))
  {
    RegisterChainsResult(body, v);
    RegisterSanitizedFields(body);
    var b := RegisterSanitized(body);
    assert CheckRegister(body, v).Accepted? ==>
      CheckRegister(body, v).value == AuthController.RegisterInput(
        Read(b, Username), Read(b, Email), Read(b, Password), Lookup(b, FirstName), Lookup(b, LastName));
  }

  /** What the register chains write back, field by field. */
  lemma RegisterSanitizedFields(body: Body)
    ensures var b := RegisterSanitized(body);
      && Read(b, Username) == Text.Trim(Read(body, Username))
      && Read(b, Email) == Read(body, Email)
      && Read(b, Password) == Read(body, Password)
      && Lookup(b, FirstName) == TrimmedField(body, FirstName)
      && Lookup(b, LastName) == TrimmedField(body, LastName)
  {
    var b1 := TrimmedIfPresent(body, Username);
    var b4 := TrimmedIfPresent(b1, FirstName);
    UsernameSanitized(body);
    NamesSanitized(b1);
    TrimmedIfPresentFrame(body, Username);
    TrimmedIfPresentFrame(b1, FirstName);
    TrimmedIfPresentFrame(b4, LastName);
  }

  lemma UsernameSanitized(body: Body)
    ensures Read(TrimmedIfPresent(body, Username), Username) == Text.Trim(Read(body, Username))
  {
    if Username !in body {
      assert Text.Trim("") == "";
    }
  }

  lemma NamesSanitized(b1: Body)
    ensures var b := TrimmedIfPresent(TrimmedIfPresent(b1, FirstName), LastName);
      Lookup(b, FirstName) == TrimmedField(b1, FirstName) && Lookup(b, LastName) == TrimmedField(b1, LastName)
  {
    TrimmedIfPresentFrame(b1, FirstName);
    TrimmedIfPresentFrame(TrimmedIfPresent(b1, FirstName), LastName);
  }

  /** POST /login's chains followed by `validationResult`. */
  function CheckLogin(body: Body, v: Validators): Checked<AuthController.LoginInput> {
    var checked := RunAll(LoginValidation, body, v);
    if checked.ok then Accepted(AuthController.LoginInput(Read(checked.body, Email), Read(checked.body, Password)))
    else Rejected
  }

  /**
   * Login gets through exactly when the email passes `isEmail` and the
   * password is not empty; neither is sanitized.
   */
  lemma LoginValidationMeaning(body: Body, v: Validators)
    ensures CheckLogin(body, v).Accepted? <==> v.isEmail(Read(body, Email)) && Read(body, Password) != ""
    ensures CheckLogin(body, v).Accepted? ==>
      CheckLogin(body, v).value == AuthController.LoginInput(Read(body, Email), Read(body, Password))
  {
    CheckOnlyChain(Email, IsEmail, body, v);
    CheckOnlyChain(Password, NotEmpty, body, v);
    var chains := LoginValidation;
    assert chains[0] == EmailChain && chains[1..] == [LoginPasswordChain] && chains[1..][1..] == [];
    assert RunAll(chains[1..], body, v) == Outcome(Read(body, Password) != "", body);
    assert RunAll(chains, body, v) == Outcome(v.isEmail(Read(body, Email)) && Read(body, Password) != "", body);
  }

  /** PUT /resetpassword/:resettoken's chain followed by `validationResult`. */
  function CheckReset(body: Body, v: Validators): Checked<AuthController.ResetInput> {
    var checked := RunAll(ResetPasswordValidation, body, v);
    if checked.ok then Accepted(AuthController.ResetInput(Read(checked.body, Password))) else Rejected
  }

  /**
   * A new password gets through exactly when it has at least 6 characters,
   * the variation selectors U+FE0E and U+FE0F not counted.
   */
  lemma ResetValidationMeaning(body: Body, v: Validators)
    ensures CheckReset(body, v).Accepted? <==> Text.CountedLength(Read(body, Password)) >= 6
    ensures CheckReset(body, v).Accepted? ==> CheckReset(body, v).value.password == Read(body, Password)
  {
    CheckOnlyChain(Password, IsLength(6, Unbounded), body, v);
    var chains := ResetPasswordValidation;
    assert chains[0] == NewPasswordChain && chains[1..] == [];
    assert RunAll(chains, body, v) == Outcome(Text.CountedLength(Read(body, Password)) >= 6, body);
  }

  /**
   * Five letters and an emoji-style selector are six code points but only
   * five counted characters, so that password is refused; with six letters
   * it gets through.
   */
  lemma ResetSelectorIsNotCounted(v: Validators)
    ensures CheckReset(map[Password := "abcde\U{FE0F}"], v).Rejected?
    ensures CheckReset(map[Password := "abcdef\U{FE0F}"], v).Accepted?
  {
    ResetValidationMeaning(map[Password := "abcde\U{FE0F}"], v);
    ResetValidationMeaning(map[Password := "abcdef\U{FE0F}"], v);
    Text.CountedLengthAppend("abcde", "\U{FE0F}");
    Text.CountedLengthAppend("abcdef", "\U{FE0F}");
    assert Text.CountedLength("abcde") == 5;
    assert Text.CountedLength("abcdef") == 6;
  }

  /**
   * POST /forgotpassword runs its email chain, but the handler never asks for
   * the verdict: it reads the body's email exactly as it was sent, whatever
   * the chain decided.
   */
  lemma ForgotPasswordValidationIsIgnored(body: Body, v: Validators)
    ensures RunAll(ForgotPasswordValidation, body, v).body == body
    ensures RunAll(ForgotPasswordValidation, body, v).ok == v.isEmail(Read(body, Email))
  {
    CheckOnlyChain(Email, IsEmail, body, v);
    assert ForgotPasswordValidation[1..] == [];
  }

  /** The handlers of the authentication router. */
  datatype Handler = Register | Login | GetMe | ForgotPassword | ResetPassword

  /** What a route runs: the session gate or not, its validation chains, then its handler. */
  datatype Stack = Stack(protected: bool, validation: seq<FieldChain>, handler: Handler)

  /** The routes in registration order, below the router's mount point. */
  const AuthTable: seq<Route<Stack>> := [
    Route(Post, [Literal("register")], Stack(false, RegisterValidation, Register)),
    Route(Post, [Literal("login")], Stack(false, LoginValidation, Login)),
    Route(Get, [Literal("me")], Stack(true, [], GetMe)),
    Route(Post, [Literal("forgotpassword")], Stack(false, ForgotPasswordValidation, ForgotPassword)),
    Route(Put, [Literal("resetpassword"), Param], Stack(false, ResetPasswordValidation, ResetPassword))
  ]

  /** The stack a request reaches, if any route matches it. */
  function ResolveAuth(verb: Verb, path: seq<string>): Option<Stack> {
    match FirstMatch(AuthTable, verb, path)
    case None => None
    case Some(k) => Some(AuthTable[k].endpoint)
  }

  /** A one-segment path spelling `word`, up to the case of ASCII letters. */
  predicate Names(path: seq<string>, word: string) {
    |path| == 1 && Text.EqualsIgnoringAsciiCase(word, path[0])
  }

  /**
   * Which request reaches which handler. Only GET /me passes through the
   * session gate; the three POST routes are told apart by their one segment,
   * and PUT /resetpassword/:resettoken needs a non-empty token segment.
   */
  lemma AuthRouting(verb: Verb, path: seq<string>)
    ensures var r := ResolveAuth(verb, path);
      && (r.Some? && r.value.protected <==> verb == Get && Names(path, "me"))
      && (r == Some(AuthTable[0].endpoint) <==> verb == Post && Names(path, "register"))
      && (r == Some(AuthTable[1].endpoint) <==> verb == Post && Names(path, "login"))
      && (r == Some(AuthTable[2].endpoint) <==> verb == Get && Names(path, "me"))
      && (r == Some(AuthTable[3].endpoint) <==> verb == Post && Names(path, "forgotpassword"))
      && (r == Some(AuthTable[4].endpoint) <==> verb == Put && |path| == 2 && path[1] != ""
                                                  && Text.EqualsIgnoringAsciiCase("resetpassword", path[0]))
  {
    var t := AuthTable;
    forall k | 0 <= k < |t|
      ensures Matches(t[k], verb, path) <==>
        && verb == t[k].verb && |path| == |t[k].pattern|
        && (forall i :: 0 <= i < |path| ==> SegmentMatches(t[k].pattern[i], path[i]))
    {
    }
    if |path| == 2 {
      assert Matches(t[4], verb, path) <==>
        verb == Put && Text.EqualsIgnoringAsciiCase("resetpassword", path[0]) && path[1] != "" by {
        assert t[4].pattern == [Literal("resetpassword"), Param];
      }
    }
    if |path| == 1 {
      assert Matches(t[0], verb, path) <==> verb == Post && Names(path, "register");
      assert Matches(t[1], verb, path) <==> verb == Post && Names(path, "login");
      assert Matches(t[2], verb, path) <==> verb == Get && Names(path, "me");
      assert Matches(t[3], verb, path) <==> verb == Post && Names(path, "forgotpassword");
    }
  }

  /**
   * GET /me as the router runs it: the session gate, and `getMe` only for a
   * request the gate let through, with the account the token names.
   */
  method ServeMe(req: Request, store: AccountStore, verify: string -> Option<Id>) returns (reply: Reply)
    requires store.Valid()
    modifies req
    ensures var token := BearerToken(req.authorization);
            !IsTruthy(token) || verify(token.value).None? ==> reply == Failure(401, NotAuthorized)
    ensures var token := BearerToken(req.authorization);
            IsTruthy(token) && verify(token.value).Some? && verify(token.value).value !in store.accounts ==>
              reply == Failure(401, AuthMiddleware.UserNotFound)
    ensures var token := BearerToken(req.authorization);
            IsTruthy(token) && verify(token.value).Some? && verify(token.value).value in store.accounts ==>
              reply == Success(200, None, None, Some(DetailOf(store.accounts[verify(token.value).value])))
  {
    var rejection := Protect(req, store, verify);
    if rejection.Some? {
      return rejection.value;
    }
    reply := AuthController.GetMe(store, req.user.value.id);
  }
}
