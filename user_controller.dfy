/**
 * The user handlers: the paginated listing, the two single-account reads, and
 * the owner-only update and delete. Every route here sits behind the session
 * gate, so each handler receives the id the gate resolved as `requester`.
 */
module UserController {
  import opened Wrappers
  import opened Accounts
  import opened Http

  /** The body of PUT /:id once its validation chain has run; absent fields are left alone. */
  datatype ProfilePatch = ProfilePatch(
    firstName: Option<string>, lastName: Option<string>, bio: Option<string>, avatar: Option<string>)

  const UserNotFound := "User not found"
  const NotOwnerUpdate := "Not authorized to update this user"
  const NotOwnerDelete := "Not authorized to delete this user"
  const Updated := "User updated successfully"
  const Deleted := "User deleted successfully"

  // ---------------------------------------------------------------------------
  // Pagination arithmetic

  /**
   * `parseInt(q) || fallback`, where `parsed` is what `parseInt` gave (None
   * for NaN): NaN and 0 fall back, every other integer, negative ones
   * included, is kept.
   */
  function OrDefault(parsed: Option<int>, fallback: int): (r: int)
    ensures parsed.Some? && parsed.value != 0 ==> r == parsed.value
    ensures parsed.None? || parsed.value == 0 ==> r == fallback
  {
    if parsed.None? || parsed.value == 0 then fallback else parsed.value
  }

  /** Neither the page nor the limit can be 0, so the page count is always defined. */
  lemma PageAndLimitAreNonZero(pageQuery: Option<int>, limitQuery: Option<int>)
    ensures OrDefault(pageQuery, 1) != 0 && OrDefault(limitQuery, 10) != 0
  {
  }

  /** How many documents the listing skips: `(page - 1) * limit`. */
  function Skip(page: int, limit: int): int {
    (page - 1) * limit
  }

  /**
   * The skip is negative, which the database refuses, exactly when the page
   * is below 1 with a positive limit or above 1 with a negative one; the
   * first page skips nothing.
   */
  lemma SkipIsNegativeExactlyWhen(page: int, limit: int)
    ensures Skip(page, limit) < 0 <==> (page < 1 && limit > 0) || (page > 1 && limit < 0)
    ensures page == 1 ==> Skip(page, limit) == 0
  {
    var p := page - 1;
    if p < 0 && limit > 0 {
      PositiveProduct(-p, limit);
      assert p * limit == -((-p) * limit);
    } else if p > 0 && limit < 0 {
      PositiveProduct(p, -limit);
      assert p * limit == -(p * (-limit));
    } else if p < 0 && limit < 0 {
      PositiveProduct(-p, -limit);
      assert p * limit == (-p) * (-limit);
    } else if p > 0 && limit > 0 {
      PositiveProduct(p, limit);
    }
  }

  lemma PositiveProduct(a: int, b: int)
    requires a > 0 && b > 0
    ensures a * b > 0
  {
  }

  function Abs(x: int): nat {
    if x < 0 then -x else x
  }

  /**
   * `Math.ceil(total / limit)`: the least integer not below the quotient,
   * stated without division for each sign of the limit.
   */
  function Pages(total: nat, limit: int): (pages: int)
    requires limit != 0
    ensures limit > 0 ==> (pages - 1) * limit < total <= pages * limit
    ensures limit < 0 ==> pages * limit <= total < (pages - 1) * limit
  {
    if limit > 0 then
      var q := (total + limit - 1) / limit;
      var r := (total + limit - 1) % limit;
      assert total + limit - 1 == q * limit + r;
      assert q * limit == total + limit - 1 - r;
      assert (q - 1) * limit == q * limit - limit;
      q
    else
      var d := -limit;
      var q := total / d;
      var r := total % d;
      assert total == q * d + r;
      assert -q * limit == q * d;
      assert (-q - 1) * limit == q * d + d;
      -q
  }

  /**
   * With a positive limit, page `page` (counted from 1) holds at least one
   * document exactly when it is not past the page count.
   */
  lemma {:induction false} PagesCoverListing(total: nat, limit: int, page: int)
    requires limit > 0 && page >= 1
    ensures Skip(page, limit) < total <==> page <= Pages(total, limit)
  {
    var pages := Pages(total, limit);
    if page <= pages {
      ScaleKeepsOrder(page - 1, pages - 1, limit);
    } else {
      ScaleKeepsOrder(pages, page - 1, limit);
    }
  }

  /**
   * With a positive limit, the page the listing returns for page `page`
   * (counted from 1) is non-empty exactly when `page` is not past the page
   * count.
   */
  lemma {:induction false} PageIsNonEmptyExactlyWhen<T>(ordered: seq<T>, limit: int, page: int)
    requires limit > 0 && page >= 1
    ensures Skip(page, limit) >= 0
    ensures Window(ordered, Skip(page, limit), limit) != [] <==> page <= Pages(|ordered|, limit)
  {
    SkipIsNegativeExactlyWhen(page, limit);
    PagesCoverListing(|ordered|, limit, page);
  }

  lemma ScaleKeepsOrder(a: int, b: int, c: int)
    requires a <= b && c > 0
    ensures a * c <= b * c
  {
    if a < b {
      PositiveProduct(b - a, c);
      assert b * c - a * c == (b - a) * c;
    }
  }

  /** The documents that `skip(skip).limit(count)` keeps of `ordered`. */
  function Window<T>(ordered: seq<T>, skip: nat, count: nat): (w: seq<T>)
    ensures |w| <= count
    ensures skip + count <= |ordered| ==> |w| == count
    ensures skip >= |ordered| ==> w == []
    ensures skip < |ordered| ==> |w| == if skip + count <= |ordered| then count else |ordered| - skip
    ensures forall i :: 0 <= i < |w| ==> skip + i < |ordered| && w[i] == ordered[skip + i]
  {
    if skip >= |ordered| then []
    else if skip + count <= |ordered| then ordered[skip..skip + count]
    else ordered[skip..]
  }

  /**
   * `ordered` is the query's sort: every account once, newest `createdAt` first.
   */
  ghost predicate NewestFirst(ordered: seq<Id>, m: map<Id, Account>) {
    && (forall i :: 0 <= i < |ordered| ==> ordered[i] in m)
    && (forall k :: k in m ==> k in ordered)
    && (forall i, j :: 0 <= i < j < |ordered| ==> ordered[i] != ordered[j])
    && (forall i, j :: 0 <= i < j < |ordered| ==> m[ordered[i]].createdAt >= m[ordered[j]].createdAt)
  }

  /** The listed documents, with the password and reset fields deselected. */
  function Details(m: map<Id, Account>, ids: seq<Id>): (users: seq<PublicUser>)
    requires forall i :: 0 <= i < |ids| ==> ids[i] in m
    ensures |users| == |ids|
    ensures forall i :: 0 <= i < |ids| ==> users[i] == DetailOf(m[ids[i]])
  {
    seq(|ids|, i requires 0 <= i < |ids| => DetailOf(m[ids[i]]))
  }

  /** Any window of the newest-first order lists its accounts newest first. */
  lemma WindowIsNewestFirst(m: map<Id, Account>, ordered: seq<Id>, skip: nat, count: nat)
    requires NewestFirst(ordered, m)
    ensures var users := Details(m, Window(ordered, skip, count));
            forall i, j :: 0 <= i < j < |users| ==> users[i].createdAt >= users[j].createdAt
  {
    var ids := Window(ordered, skip, count);
    var users := Details(m, ids);
    forall i, j | 0 <= i < j < |users|
      ensures users[i].createdAt >= users[j].createdAt
    {
      assert ids[i] == ordered[skip + i] && ids[j] == ordered[skip + j];
    }
  }

  // ---------------------------------------------------------------------------
  // Handlers

  /**
   * GET /. `ordered` is the database's sort of the collection by `createdAt`,
   * newest first. A negative skip is refused by the database (500); a
   * negative limit returns at most its absolute value of documents.
   */
  method GetAllUsers(store: AccountStore, pageQuery: Option<int>, limitQuery: Option<int>, ordered: seq<Id>)
    returns (reply: Reply)
    requires NewestFirst(ordered, store.accounts)
    ensures var page := OrDefault(pageQuery, 1);
            var limit := OrDefault(limitQuery, 10);
            Skip(page, limit) < 0 ==> reply == Failure(500, ServerError)
    ensures var page := OrDefault(pageQuery, 1);
            var limit := OrDefault(limitQuery, 10);
            Skip(page, limit) >= 0 ==>
              && reply.Listing?
              && reply.page == page
              && reply.total == |store.accounts|
              && limit != 0 && reply.pages == Pages(|store.accounts|, limit)
              && reply.count == |reply.users| <= Abs(limit)
              && reply.users == Details(store.accounts, Window(ordered, Skip(page, limit), Abs(limit)))
    ensures reply.Listing? ==>
      forall i, j :: 0 <= i < j < |reply.users| ==> reply.users[i].createdAt >= reply.users[j].createdAt
  {
    var page := OrDefault(pageQuery, 1);
    var limit := OrDefault(limitQuery, 10);
    var skip := Skip(page, limit);
    if skip < 0 {
      return Failure(500, ServerError);
    }
    var ids := Window(ordered, skip, Abs(limit));
    var users := Details(store.accounts, ids);
    var total := |store.accounts|;
    reply := Listing(|users|, total, page, Pages(total, limit), users);
    WindowIsNewestFirst(store.accounts, ordered, skip, Abs(limit));
  }

  /** GET /:id: the account without its secrets, or 404. */
  method GetUserById(store: AccountStore, id: Id) returns (reply: Reply)
    ensures id !in store.accounts ==> reply == Failure(404, UserNotFound)
    ensures id in store.accounts ==> reply == Success(200, None, None, Some(DetailOf(store.accounts[id])))
  {
    if id !in store.accounts {
      return Failure(404, UserNotFound);
    }
    reply := Success(200, None, None, Some(DetailOf(store.accounts[id])));
  }

  /** GET /me: the requester's own account without its secrets, or 404. */
  method GetCurrentUser(store: AccountStore, requester: Id) returns (reply: Reply)
    ensures requester !in store.accounts ==> reply == Failure(404, UserNotFound)
    ensures requester in store.accounts ==>
      reply == Success(200, None, None, Some(DetailOf(store.accounts[requester])))
  {
    if requester !in store.accounts {
      return Failure(404, UserNotFound);
    }
    var user := store.accounts[requester];
    reply := Success(200, None, None, Some(DetailOf(user)));
  }

  /**
   * The account after a partial update: each of the four profile fields
   * present in the patch takes its value, every absent one and every other
   * field keeps its own.
   */
  function Patched(a: Account, p: ProfilePatch): (b: Account)
    ensures b.id == a.id && b.username == a.username && b.email == a.email && b.password == a.password
    ensures b.isEmailVerified == a.isEmailVerified && b.createdAt == a.createdAt
    ensures b.resetPasswordToken == a.resetPasswordToken && b.resetPasswordExpire == a.resetPasswordExpire
    ensures p.firstName.Some? ==> b.firstName == p.firstName
    ensures p.firstName.None? ==> b.firstName == a.firstName
    ensures p.lastName.Some? ==> b.lastName == p.lastName
    ensures p.lastName.None? ==> b.lastName == a.lastName
    ensures p.bio.Some? ==> b.bio == p.bio
    ensures p.bio.None? ==> b.bio == a.bio
    ensures p.avatar.Some? ==> b.avatar == p.avatar
    ensures p.avatar.None? ==> b.avatar == a.avatar
  {
    a.(firstName := if p.firstName.Some? then p.firstName else a.firstName,
       lastName := if p.lastName.Some? then p.lastName else a.lastName,
       bio := if p.bio.Some? then p.bio else a.bio,
       avatar := if p.avatar.Some? then p.avatar else a.avatar)
  }

  /** Applying the same patch twice changes nothing more. */
  lemma PatchIsIdempotent(a: Account, p: ProfilePatch)
    ensures Patched(Patched(a, p), p) == Patched(a, p)
  {
  }

  /** An empty patch leaves the account as it is. */
  lemma EmptyPatchChangesNothing(a: Account)
    ensures Patched(a, ProfilePatch(None, None, None, None)) == a
  {
  }

  /**
   * PUT /:id. A validation error gives 400; a missing target gives 404 before
   * ownership is looked at; a requester other than the target gives 403; the
   * owner's patch is applied to that account alone.
   */
  method UpdateUser(store: AccountStore, requester: Id, target: Id, input: Checked<ProfilePatch>)
    returns (reply: Reply)
    requires store.Valid()
    modifies store
    ensures store.Valid() && store.nextId == old(store.nextId)
    ensures input.Rejected? ==> reply == ValidationFailure && store.accounts == old(store.accounts)
    ensures input.Accepted? && target !in old(store.accounts) ==>
      reply == Failure(404, UserNotFound) && store.accounts == old(store.accounts)
    ensures input.Accepted? && target in old(store.accounts) && requester != target ==>
      reply == Failure(403, NotOwnerUpdate) && store.accounts == old(store.accounts)
    ensures input.Accepted? && target in old(store.accounts) && requester == target ==>
      && store.accounts == old(store.accounts)[target := Patched(old(store.accounts)[target], input.value)]
      && reply == Success(200, Some(Updated), None, Some(SummaryOf(store.accounts[target])))
  {
    if input.Rejected? {
      return ValidationFailure;
    }
    var patch := input.value;
    if target !in store.accounts {
      return Failure(404, UserNotFound);
    }
    var user := store.accounts[target];
    if user.id != requester {
      return Failure(403, NotOwnerUpdate);
    }
    if patch.firstName.Some? { user := user.(firstName := patch.firstName); }
    if patch.lastName.Some? { user := user.(lastName := patch.lastName); }
    if patch.bio.Some? { user := user.(bio := patch.bio); }
    if patch.avatar.Some? { user := user.(avatar := patch.avatar); }
    assert user == Patched(store.accounts[target], patch);
    SaveKeepsInvariants(store.accounts, target, user);
    store.accounts := store.accounts[target := user];
    reply := Success(200, Some(Updated), None, Some(SummaryOf(user)));
  }

  /**
   * DELETE /:id. A missing target gives 404, a requester other than the target
   * 403; the owner's account is removed and no other.
   */
  method DeleteUser(store: AccountStore, requester: Id, target: Id) returns (reply: Reply)
    requires store.Valid()
    modifies store
    ensures store.Valid() && store.nextId == old(store.nextId)
    ensures target !in old(store.accounts) ==>
      reply == Failure(404, UserNotFound) && store.accounts == old(store.accounts)
    ensures target in old(store.accounts) && requester != target ==>
      reply == Failure(403, NotOwnerDelete) && store.accounts == old(store.accounts)
    ensures target in old(store.accounts) && requester == target ==>
      store.accounts == old(store.accounts) - {target} && reply == Success(200, Some(Deleted), None, None)
  {
    if target !in store.accounts {
      return Failure(404, UserNotFound);
    }
    var user := store.accounts[target];
    if user.id != requester {
      return Failure(403, NotOwnerDelete);
    }
    store.accounts := store.accounts - {target};
    reply := Success(200, Some(Deleted), None, None);
  }
}
