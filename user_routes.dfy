/**
 * The users router: the update validation, the route table (GET /me is
 * registered before GET /:id, so it wins), and the router-wide session gate
 * that every request of this router passes before any handler runs.
 */
module UserRoutes {
  import opened Wrappers
  import Text
  import opened Http
  import opened Validation
  import opened Router
  import opened Accounts
  import opened AuthMiddleware
  import UserController

  const AvatarChain := FieldChain(Avatar, true, [IsURL])

  const UpdateValidation: seq<FieldChain> := [
    OptionalTrimmedChain(FirstName, 50), OptionalTrimmedChain(LastName, 50),
    OptionalTrimmedChain(Bio, 500), AvatarChain
  ]

  /** The rules of PUT /:id, stated on the raw body. */
  predicate UpdateRulesHold(body: Body, v: Validators) {
    && OptionalTrimmedAtMost(body, FirstName, 50)
    && OptionalTrimmedAtMost(body, LastName, 50)
    && OptionalTrimmedAtMost(body, Bio, 500)
    && (Avatar in body ==> v.isURL(body[Avatar]))
  }

  /** The body after the update chains: the names and the bio trimmed where present. */
  function UpdateSanitized(body: Body): Body {
    TrimmedIfPresent(TrimmedIfPresent(TrimmedIfPresent(body, FirstName), LastName), Bio)
  }

  /** The avatar chain only checks, and only a present avatar. */
  lemma AvatarChainMeaning(body: Body, v: Validators)
    ensures RunChain(AvatarChain, body, v) == Outcome(Avatar in body ==> v.isURL(body[Avatar]), body)
  {
    if Avatar in body {
      OneStep(IsURL, body[Avatar], v);
      assert body[Avatar := body[Avatar]] == body;
    }
  }

  /** The last two update chains: the bio's, then the avatar's. */
  lemma BioAndAvatarResult(b2: Body, v: Validators)
    ensures RunAll(UpdateValidation[2..], b2, v)
            == Outcome(OptionalTrimmedAtMost(b2, Bio, 500) && (Avatar in b2 ==> v.isURL(b2[Avatar])),
                       TrimmedIfPresent(b2, Bio))
  {
    var chains := UpdateValidation[2..];
    var b3 := TrimmedIfPresent(b2, Bio);
    assert chains[0] == OptionalTrimmedChain(Bio, 500);
    assert chains[1..] == [AvatarChain] && chains[1..][1..] == [];
    OptionalTrimmedChainMeaning(Bio, 500, b2, v);
    AvatarChainMeaning(b3, v);
    TrimmedIfPresentFrame(b2, Bio);
    assert RunAll(chains[1..], b3, v) == Outcome(Avatar in b2 ==> v.isURL(b2[Avatar]), b3);
  }

  lemma UpdateChainsResult(body: Body, v: Validators)
    ensures RunAll(UpdateValidation, body, v) == Outcome(UpdateRulesHold(body, v), UpdateSanitized(body))
  {
    var chains := UpdateValidation;
    var b1 := TrimmedIfPresent(body, FirstName);
    var b2 := TrimmedIfPresent(b1, LastName);
    TrimmedIfPresentFrame(body, FirstName);
    TrimmedIfPresentFrame(b1, LastName);
    assert chains[1..][1..] == UpdateValidation[2..];
    BioAndAvatarResult(b2, v);
    assert OptionalTrimmedAtMost(b2, Bio, 500) == OptionalTrimmedAtMost(body, Bio, 500);
    assert (Avatar in b2 ==> v.isURL(b2[Avatar])) == (Avatar in body ==> v.isURL(body[Avatar]));
    assert OptionalTrimmedAtMost(b1, LastName, 50) == OptionalTrimmedAtMost(body, LastName, 50);
    OptionalTrimmedChainMeaning(LastName, 50, b1, v);
    OptionalTrimmedChainMeaning(FirstName, 50, body, v);
  }

  /** PUT /:id's chains followed by `validationResult`. */
  function CheckUpdate(body: Body, v: Validators): Checked<UserController.ProfilePatch> {
    var checked := RunAll(UpdateValidation, body, v);
    var b := checked.body;
    if checked.ok then
      Accepted(UserController.ProfilePatch(Lookup(b, FirstName), Lookup(b, LastName), Lookup(b, Bio), Lookup(b, Avatar)))
    else Rejected
  }

  /** What the update chains write back, field by field. */
  lemma UpdateSanitizedFields(body: Body)
    ensures var b := UpdateSanitized(body);
      && Lookup(b, FirstName) == TrimmedField(body, FirstName)
      && Lookup(b, LastName) == TrimmedField(body, LastName)
      && Lookup(b, Bio) == TrimmedField(body, Bio)
      && Lookup(b, Avatar) == Lookup(body, Avatar)
  {
    var b1 := TrimmedIfPresent(body, FirstName);
    var b2 := TrimmedIfPresent(b1, LastName);
    forall g | g != Bio
      ensures Lookup(UpdateSanitized(body), g) == Lookup(b2, g)
    {
      LookupAfterTrim(b2, Bio, g);
    }
    LookupAfterTrim(b2, Bio, Bio);
    LookupAfterTrim(b1, LastName, Bio);
    LookupAfterTrim(body, FirstName, Bio);
    LookupAfterTrim(b1, LastName, LastName);
    LookupAfterTrim(body, FirstName, LastName);
    LookupAfterTrim(b1, LastName, FirstName);
    LookupAfterTrim(body, FirstName, FirstName);
    LookupAfterTrim(b1, LastName, Avatar);
    LookupAfterTrim(body, FirstName, Avatar);
  }

  /**
   * An update gets through exactly when each name, when present, has at most
   * 50 characters once trimmed, the bio at most 500, and the avatar, when
   * present, passes `isURL`. The handler then receives the trimmed names and
   * bio, the avatar as sent, and None for every field the body lacks.
   */
  lemma UpdateValidationMeaning(body: Body, v: Validators)
    ensures CheckUpdate(body, v).Accepted? <==> UpdateRulesHold(body, v)
    ensures CheckUpdate(body, v).Accepted? ==>
      CheckUpdate(body, v).value == UserController.ProfilePatch(
        TrimmedField(body, FirstName), TrimmedField(body, LastName), TrimmedField(body, Bio), Lookup(body, Avatar))
  {
    UpdateChainsResult(body, v);
    UpdateSanitizedFields(body);
  }

  /** The handlers of the users router. */
  datatype Handler = GetAllUsers | GetCurrentUser | GetUserById | UpdateUser | DeleteUser

  /** What a route runs after the gate: its validation chains, then its handler. */
  datatype Stack = Stack(validation: seq<FieldChain>, handler: Handler)

  /** The routes in registration order, below the router's mount point. */
  const UserTable: seq<Route<Stack>> := [
    Route(Get, [], Stack([], GetAllUsers)),
    Route(Get, [Literal("me")], Stack([], GetCurrentUser)),
    Route(Get, [Param], Stack([], GetUserById)),
    Route(Put, [Param], Stack(UpdateValidation, UpdateUser)),
    Route(Delete, [Param], Stack([], DeleteUser))
  ]

  /**
   * Which request reaches which handler. A one-segment GET that spells `me`
   * in any letter case is the requester's own profile and never an id lookup;
   * every other non-empty segment is taken as an id.
   */
  lemma UserRouting(verb: Verb, path: seq<string>)
    ensures var r := FirstMatch(UserTable, verb, path);
      && (r == Some(0) <==> verb == Get && path == [])
      && (r == Some(1) <==> verb == Get && |path| == 1 && Text.EqualsIgnoringAsciiCase("me", path[0]))
      && (r == Some(2) <==> verb == Get && |path| == 1 && path[0] != ""
                            && !Text.EqualsIgnoringAsciiCase("me", path[0]))
      && (r == Some(3) <==> verb == Put && |path| == 1 && path[0] != "")
      && (r == Some(4) <==> verb == Delete && |path| == 1 && path[0] != "")
  {
    var t := UserTable;
    if |path| == 1 {
      assert Matches(t[1], verb, path) <==> verb == Get && Text.EqualsIgnoringAsciiCase("me", path[0]);
      assert Matches(t[2], verb, path) <==> verb == Get && path[0] != "";
      assert Matches(t[3], verb, path) <==> verb == Put && path[0] != "";
      assert Matches(t[4], verb, path) <==> verb == Delete && path[0] != "";
      if Text.EqualsIgnoringAsciiCase("me", path[0]) {
        assert path[0] != "";
      }
    }
  }

  /** Whether the gate lets a request through: its token verifies to an existing account. */
  predicate Admitted(authorization: Option<string>, accounts: map<Id, Account>, verify: string -> Option<Id>) {
    var token := BearerToken(authorization);
    IsTruthy(token) && verify(token.value).Some? && verify(token.value).value in accounts
  }

  /** The account the gate admits the request as. */
  function Requester(authorization: Option<string>, accounts: map<Id, Account>, verify: string -> Option<Id>): Id
    requires Admitted(authorization, accounts, verify)
  {
    verify(BearerToken(authorization).value).value
  }

  /** `after` differs from `before` at most in the account `k`: updated, or removed. */
  predicate OnlyTouches(before: map<Id, Account>, after: map<Id, Account>, k: Id) {
    && after.Keys <= before.Keys
    && forall j :: j in before && j != k ==> j in after && after[j] == before[j]
  }

  /**
   * The users router once the gate has admitted `requester`: the first
   * matching route's validation and handler. The query values, the
   * database's newest-first order and the body are the request's other
   * inputs; `parseId` is the database's reading of an id segment (None for a
   * malformed one, which the handler's catch turns into 500). `updateUser`
   * looks at the validation result before it looks the id up, so a refused
   * body gets 400 whatever the id. None is returned when no route matches and
   * the request falls through.
   */
  method Dispatch(store: AccountStore, requester: Id, verb: Verb, path: seq<string>,
                  pageQuery: Option<int>, limitQuery: Option<int>, ordered: seq<Id>,
                  body: Body, v: Validators, parseId: string -> Option<Id>)
    returns (reply: Option<Reply>)
    requires store.Valid() && UserController.NewestFirst(ordered, store.accounts)
    modifies store
    ensures store.Valid() && store.nextId == old(store.nextId)
    ensures reply.None? <==> FirstMatch(UserTable, verb, path).None?
    ensures verb == Get ==> store.accounts == old(store.accounts)
    ensures OnlyTouches(old(store.accounts), store.accounts, requester)
    // GET /: the listing, or 500 for a negative skip.
    ensures FirstMatch(UserTable, verb, path) == Some(0) ==>
      var page := UserController.OrDefault(pageQuery, 1);
      var limit := UserController.OrDefault(limitQuery, 10);
      var skip := UserController.Skip(page, limit);
      && reply.Some?
      && (skip < 0 ==> reply.value == Failure(500, ServerError))
      && (skip >= 0 ==>
            && reply.value.Listing?
            && reply.value.users == UserController.Details(store.accounts,
                                      UserController.Window(ordered, skip, UserController.Abs(limit))))
    // GET /me: the requester's own detail view, or 404.
    ensures FirstMatch(UserTable, verb, path) == Some(1) ==>
      reply == Some(if requester in old(store.accounts)
                    then Success(200, None, None, Some(DetailOf(old(store.accounts)[requester])))
                    else Failure(404, UserController.UserNotFound))
    // GET /:id: 500 for a malformed id, then the detail view or 404.
    ensures FirstMatch(UserTable, verb, path) == Some(2) && |path| == 1 ==>
      reply == Some(match parseId(path[0])
                    case None => Failure(500, ServerError)
                    case Some(t) =>
                      if t in old(store.accounts)
                      then Success(200, None, None, Some(DetailOf(old(store.accounts)[t])))
                      else Failure(404, UserController.UserNotFound))
    // PUT /:id: 400 for a refused body whatever the id, then 500 for a malformed id.
    ensures FirstMatch(UserTable, verb, path) == Some(3) && CheckUpdate(body, v).Rejected? ==>
      reply == Some(ValidationFailure) && store.accounts == old(store.accounts)
    ensures FirstMatch(UserTable, verb, path) == Some(3) && CheckUpdate(body, v).Accepted?
            && |path| == 1 && parseId(path[0]).None? ==>
      reply == Some(Failure(500, ServerError)) && store.accounts == old(store.accounts)
    ensures FirstMatch(UserTable, verb, path) == Some(3) && CheckUpdate(body, v).Accepted?
            && |path| == 1 && parseId(path[0]).Some? ==>
      var t := parseId(path[0]).value;
      var owner := t in old(store.accounts) && t == requester;
      && reply == Some(if t !in old(store.accounts) then Failure(404, UserController.UserNotFound)
                       else if t != requester then Failure(403, UserController.NotOwnerUpdate)
                       else Success(200, Some(UserController.Updated), None,
                                    Some(SummaryOf(UserController.Patched(old(store.accounts)[t], CheckUpdate(body, v).value)))))
      && store.accounts == if owner
                           then old(store.accounts)[t := UserController.Patched(old(store.accounts)[t], CheckUpdate(body, v).value)]
                           else old(store.accounts)
    // DELETE /:id: 500 for a malformed id, then 404, 403, or the owner's account removed.
    ensures FirstMatch(UserTable, verb, path) == Some(4) && |path| == 1 ==>
      match parseId(path[0])
      case None => reply == Some(Failure(500, ServerError)) && store.accounts == old(store.accounts)
      case Some(t) =>
        && reply == Some(if t !in old(store.accounts) then Failure(404, UserController.UserNotFound)
                         else if t != requester then Failure(403, UserController.NotOwnerDelete)
                         else Success(200, Some(UserController.Deleted), None, None))
        && store.accounts == if t in old(store.accounts) && t == requester
                             then old(store.accounts) - {t}
                             else old(store.accounts)
  {
    var route := FirstMatch(UserTable, verb, path);
    if route.None? {
      return None;
    }
    match UserTable[route.value].endpoint.handler {
      case GetAllUsers =>
        var r := UserController.GetAllUsers(store, pageQuery, limitQuery, ordered);
        reply := Some(r);
      case GetCurrentUser =>
        var r := UserController.GetCurrentUser(store, requester);
        reply := Some(r);
      case GetUserById =>
        var id := parseId(path[0]);
        if id.None? {
          return Some(Failure(500, ServerError));
        }
        var r := UserController.GetUserById(store, id.value);
        reply := Some(r);
      case UpdateUser =>
        var input := CheckUpdate(body, v);
        if input.Rejected? {
          return Some(ValidationFailure);
        }
        var id := parseId(path[0]);
        if id.None? {
          return Some(Failure(500, ServerError));
        }
        var r := UserController.UpdateUser(store, requester, id.value, input);
        reply := Some(r);
      case DeleteUser =>
        var id := parseId(path[0]);
        if id.None? {
          return Some(Failure(500, ServerError));
        }
        var r := UserController.DeleteUser(store, requester, id.value);
        reply := Some(r);
    }
  }

  /**
   * A request to the users router: the gate first, for every route. A
   * request the gate refuses gets its 401 and changes nothing; an admitted
   * one can change or remove no account but its own.
   */
  method ServeUsers(req: Request, store: AccountStore, verify: string -> Option<Id>,
                    verb: Verb, path: seq<string>,
                    pageQuery: Option<int>, limitQuery: Option<int>, ordered: seq<Id>,
                    body: Body, v: Validators, parseId: string -> Option<Id>)
    returns (reply: Option<Reply>)
    requires store.Valid() && UserController.NewestFirst(ordered, store.accounts)
    modifies req, store
    ensures store.Valid() && store.nextId == old(store.nextId)
    ensures !Admitted(req.authorization, old(store.accounts), verify) ==>
      reply.Some? && reply.value.Status() == 401 && store.accounts == old(store.accounts)
    ensures Admitted(req.authorization, old(store.accounts), verify) ==>
      && (reply.None? <==> FirstMatch(UserTable, verb, path).None?)
      && OnlyTouches(old(store.accounts), store.accounts, Requester(req.authorization, old(store.accounts), verify))
    ensures verb == Get ==> store.accounts == old(store.accounts)
  {
    var rejection := Protect(req, store, verify);
    if rejection.Some? {
      return rejection;
    }
    reply := Dispatch(store, req.user.value.id, verb, path, pageQuery, limitQuery, ordered, body, v, parseId);
  }
}
