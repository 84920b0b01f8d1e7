/**
 * The session gate `protect`: it cuts a token out of the Authorization
 * header, has it verified, loads the account named by the token's subject,
 * stores it on the request and then lets the request through exactly once.
 */
module AuthMiddleware {
  import opened Wrappers
  import Text
  import opened Accounts
  import opened Http

  const NotAuthorized := "Not authorized to access this route"
  const UserNotFound := "User not found"

  /** The account as the gate loads it: every field but the password. */
  datatype SessionUser = SessionUser(
    id: Id, username: string, email: string,
    firstName: Option<string>, lastName: Option<string>, bio: Option<string>, avatar: Option<string>,
    isEmailVerified: bool, resetPasswordToken: Option<string>, resetPasswordExpire: Option<int>,
    createdAt: int)

  /**
   * `select('-password')`: the loaded user loses the password and nothing
   * else, so putting the password back gives the stored account.
   */
  function WithoutPassword(a: Account): (s: SessionUser)
    ensures WithPassword(s, a.password) == a
  {
    SessionUser(a.id, a.username, a.email, a.firstName, a.lastName, a.bio, a.avatar,
                a.isEmailVerified, a.resetPasswordToken, a.resetPasswordExpire, a.createdAt)
  }

  /** The account a session user and a password make up. */
  function WithPassword(s: SessionUser, password: string): Account {
    Account(s.id, s.username, s.email, password, s.firstName, s.lastName, s.bio, s.avatar,
            s.isEmailVerified, s.resetPasswordToken, s.resetPasswordExpire, s.createdAt)
  }

  /**
   * The token the gate reads from the header: when the header is present and
   * starts with the characters `Bearer`, the second piece of splitting it at
   * every space (None when there is no second piece); otherwise None.
   */
  function BearerToken(header: Option<string>): (token: Option<string>)
    ensures token.Some? ==> header.Some? && "Bearer" <= header.value && ' ' in header.value
    ensures token.Some? ==> ' ' !in token.value
  {
    if header.Some? && "Bearer" <= header.value then
      var pieces := Text.SplitOnSpace(header.value);
      if |pieces| >= 2 then
        assert ' ' in header.value by {
          assert header.value == pieces[0] + " " + Text.JoinWithSpace(pieces[1..]);
          assert header.value[|pieces[0]|] == ' ';
        }
        Some(pieces[1])
      else None
    else None
  }

  /** A token JavaScript treats as true: present and non-empty. */
  predicate IsTruthy(token: Option<string>) {
    token.Some? && token.value != ""
  }

  /**
   * Whatever stands between `Bearer` and the first space, the token is the run
   * of characters after that space up to the next space or the end.
   */
  lemma BearerTokenIsSecondPiece(scheme: string, token: string, rest: string)
    requires "Bearer" <= scheme && ' ' !in scheme && ' ' !in token
    requires rest == [] || rest[0] == ' '
    ensures BearerToken(Some(scheme + " " + token + rest)) == Some(token)
  {
    var h := scheme + " " + token + rest;
    assert "Bearer" <= h by {
      assert h[..6] == scheme[..6];
    }
    if rest == [] {
      assert h == Text.JoinWithSpace([scheme, token]);
      Text.SplitJoin([scheme, token]);
    } else {
      var tail := rest[1..];
      var more := Text.SplitOnSpace(tail);
      assert rest == " " + Text.JoinWithSpace(more);
      var pieces := [scheme, token] + more;
      assert pieces[2..] == more;
      assert Text.JoinWithSpace(pieces[1..]) == token + " " + Text.JoinWithSpace(more) by {
        assert pieces[1..][1..] == more;
      }
      assert h == Text.JoinWithSpace(pieces);
      Text.SplitJoin(pieces);
    }
  }

  /** A header with no space yields no token, `Bearer` alone included. */
  lemma NoSpaceNoToken(header: string)
    requires ' ' !in header
    ensures BearerToken(Some(header)).None?
  {
  }

  /** The fixed cases: `Bearer` alone, `Bearer ` and `BearerX t`. */
  lemma BearerEdgeCases()
    ensures !IsTruthy(BearerToken(Some("Bearer")))
    ensures BearerToken(Some("Bearer ")) == Some("") && !IsTruthy(BearerToken(Some("Bearer ")))
    ensures BearerToken(Some("BearerX t")) == Some("t")
    ensures BearerToken(Some("bearer t")).None?
  {
    NoSpaceNoToken("Bearer");
    TrailingSpaceGivesEmptyToken();
    SchemeSuffixIsKept();
    LowerCaseSchemeIsRefused();
  }

  lemma TrailingSpaceGivesEmptyToken()
    ensures BearerToken(Some("Bearer ")) == Some("")
  {
    BearerTokenIsSecondPiece("Bearer", "", "");
    assert "Bearer" + " " + "" + "" == "Bearer ";
  }

  lemma SchemeSuffixIsKept()
    ensures BearerToken(Some("BearerX t")) == Some("t")
  {
    BearerTokenIsSecondPiece("BearerX", "t", "");
    assert "BearerX" + " " + "t" + "" == "BearerX t";
  }

  lemma LowerCaseSchemeIsRefused()
    ensures BearerToken(Some("bearer t")).None?
  {
    assert "bearer t"[0] != "Bearer"[0];
  }

  /** The request as the gate sees it and leaves it. */
  class Request {
    const authorization: Option<string>
    /** `req.user`. */
    var user: Option<SessionUser>
    /** How many times `next()` has been called. */
    var nextCalls: nat
    /** `req.user` as it stood at the last call of `next()`. */
    var userAtNext: Option<SessionUser>

    constructor (authorization: Option<string>)
      ensures this.authorization == authorization
      ensures user == None && nextCalls == 0 && userAtNext == None
    {
      this.authorization := authorization;
      user := None;
      nextCalls := 0;
      userAtNext := None;
    }

    /** Hands the request to the next handler. */
    method Next()
      modifies this
      ensures nextCalls == old(nextCalls) + 1 && userAtNext == user && user == old(user)
    {
      nextCalls := nextCalls + 1;
      userAtNext := user;
    }
  }

  /**
   * `protect`. `verify` is the token check with the server's secret: the
   * subject id, or None when the token does not verify. None is returned when
   * the request was let through; otherwise the 401 sent.
   */
  method Protect(req: Request, store: AccountStore, verify: string -> Option<Id>)
    returns (rejection: Option<Reply>)
    modifies req
    ensures var token := BearerToken(req.authorization);
            !IsTruthy(token) || verify(token.value).None? ==>
              && rejection == Some(Failure(401, NotAuthorized))
              && req.user == old(req.user) && req.nextCalls == old(req.nextCalls)
              && req.userAtNext == old(req.userAtNext)
    ensures var token := BearerToken(req.authorization);
            IsTruthy(token) && verify(token.value).Some? && verify(token.value).value !in store.accounts ==>
              && rejection == Some(Failure(401, UserNotFound))
              && req.user == None && req.nextCalls == old(req.nextCalls)
              && req.userAtNext == old(req.userAtNext)
    ensures var token := BearerToken(req.authorization);
            IsTruthy(token) && verify(token.value).Some? && verify(token.value).value in store.accounts ==>
              && rejection == None
              && req.user == Some(WithoutPassword(store.accounts[verify(token.value).value]))
              && req.nextCalls == old(req.nextCalls) + 1
              && req.userAtNext == req.user
  {
    var token := BearerToken(req.authorization);
    if !IsTruthy(token) {
      return Some(Failure(401, NotAuthorized));
    }
    var decoded := verify(token.value);
    if decoded.None? {
      return Some(Failure(401, NotAuthorized));
    }
    var id := decoded.value;
    req.user := if id in store.accounts then Some(WithoutPassword(store.accounts[id])) else None;
    if req.user.None? {
      return Some(Failure(401, UserNotFound));
    }
    req.Next();
    rejection := None;
  }
}
