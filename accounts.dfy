/**
 * The user record the controllers load, change and save, the projections of
 * it that responses carry, and the in-memory account store that stands for
 * the `users` collection.
 */
module Accounts {
  import opened Wrappers

  /** A document id; the store hands them out in creation order. */
  type Id = nat

  /**
   * One user document. `password` is the value a controller assigns; the
   * hashing done when the document is saved belongs to the user schema, which
   * is not part of this model. Times are milliseconds since the epoch.
   */
  datatype Account = Account(
    id: Id,
    username: string,
    email: string,
    password: string,
    firstName: Option<string>,
    lastName: Option<string>,
    bio: Option<string>,
    avatar: Option<string>,
    isEmailVerified: bool,
    resetPasswordToken: Option<string>,
    resetPasswordExpire: Option<int>,
    createdAt: int)

  /**
   * What a response may show of an account. None of the three shapes has a
   * place for the password or the reset fields.
   */
  datatype PublicUser =
    | Summary(id: Id, username: string, email: string, firstName: Option<string>,
              lastName: Option<string>, avatar: Option<string>, bio: Option<string>)
    | Detail(id: Id, username: string, email: string, firstName: Option<string>,
             lastName: Option<string>, avatar: Option<string>, bio: Option<string>,
             isEmailVerified: bool, createdAt: int)
    | Brief(id: Id, username: string, email: string)

  /** The `user` object built by register, login and updateUser. */
  function SummaryOf(a: Account): PublicUser {
    Summary(a.id, a.username, a.email, a.firstName, a.lastName, a.avatar, a.bio)
  }

  /**
   * The document read with the password and both reset fields deselected
   * (getMe, getUserById, getCurrentUser, the listing).
   */
  function DetailOf(a: Account): PublicUser {
    Detail(a.id, a.username, a.email, a.firstName, a.lastName, a.avatar, a.bio,
           a.isEmailVerified, a.createdAt)
  }

  /** The `user` object returned by resetPassword. */
  function BriefOf(a: Account): PublicUser {
    Brief(a.id, a.username, a.email)
  }

  /** The two reset fields are both set or both unset. */
  predicate ResetPairAgrees(a: Account) {
    a.resetPasswordToken.Some? <==> a.resetPasswordExpire.Some?
  }

  /**
   * The reset query's filter: the stored digest equals `digest` and the expiry
   * lies strictly after `now`.
   */
  predicate ResetMatches(a: Account, digest: string, now: int) {
    a.resetPasswordToken == Some(digest)
    && a.resetPasswordExpire.Some? && a.resetPasswordExpire.value > now
  }

  /** Every account is stored under its own id. */
  ghost predicate KeysAreIds(m: map<Id, Account>) {
    forall k :: k in m ==> m[k].id == k
  }

  /** No two accounts share an email, and no two share a username. */
  ghost predicate UniqueLogins(m: map<Id, Account>) {
    forall i, j :: i in m && j in m && i != j ==>
      m[i].email != m[j].email && m[i].username != m[j].username
  }

  ghost predicate ResetPairsAgree(m: map<Id, Account>) {
    forall k :: k in m ==> ResetPairAgrees(m[k])
  }

  /** Some account has this email or this username (register's `$or` query). */
  predicate Taken(m: map<Id, Account>, email: string, username: string) {
    exists k :: k in m && (m[k].email == email || m[k].username == username)
  }

  /** Some account has exactly this email (the `findOne({ email })` query). */
  predicate HasEmail(m: map<Id, Account>, email: string) {
    exists k :: k in m && m[k].email == email
  }

  /**
   * Given unique logins, register's `$or` check refuses exactly the accounts
   * whose insertion would break uniqueness: a fresh account keeps emails and
   * usernames unique if and only if nothing has its email or its username.
   */
  lemma TakenIsExactlyACollision(m: map<Id, Account>, k: Id, a: Account)
    requires UniqueLogins(m) && k !in m
    ensures UniqueLogins(m[k := a]) <==> !Taken(m, a.email, a.username)
  {
    var m' := m[k := a];
    if Taken(m, a.email, a.username) {
      var j :| j in m && (m[j].email == a.email || m[j].username == a.username);
      assert j in m' && k in m' && j != k && m'[j] == m[j] && m'[k] == a;
    } else {
      forall i, j | i in m' && j in m' && i != j
        ensures m'[i].email != m'[j].email && m'[i].username != m'[j].username
      {
        if i != k && j != k {
          assert m'[i] == m[i] && m'[j] == m[j];
        }
      }
    }
  }

  /** With unique logins, the `findOne({ email })` lookup has at most one candidate. */
  lemma EmailFindsAtMostOne(m: map<Id, Account>, email: string, i: Id, j: Id)
    requires UniqueLogins(m)
    requires i in m && j in m && m[i].email == email && m[j].email == email
    ensures i == j
  {
  }

  /** A pending reset that no longer matches at some time matches at no later time. */
  lemma ExpiryIsFinal(a: Account, digest: string, earlier: int, later: int)
    requires earlier <= later && !ResetMatches(a, digest, earlier)
    ensures !ResetMatches(a, digest, later)
  {
  }

  /**
   * Saving a changed document keeps the store's invariants when its id, email
   * and username are unchanged and its reset fields still agree.
   */
  lemma SaveKeepsInvariants(m: map<Id, Account>, k: Id, b: Account)
    requires k in m && KeysAreIds(m) && UniqueLogins(m) && ResetPairsAgree(m)
    requires b.id == m[k].id && b.email == m[k].email && b.username == m[k].username
    requires ResetPairAgrees(b)
    ensures KeysAreIds(m[k := b]) && UniqueLogins(m[k := b]) && ResetPairsAgree(m[k := b])
  {
    var m' := m[k := b];
    forall i, j | i in m' && j in m' && i != j
      ensures m'[i].email != m'[j].email && m'[i].username != m'[j].username
    {
      assert m'[i].email == m[i].email && m'[i].username == m[i].username;
      assert m'[j].email == m[j].email && m'[j].username == m[j].username;
    }
  }

  /** The users collection. */
  class AccountStore {
    var accounts: map<Id, Account>
    /** The id the next created account receives. */
    var nextId: Id

    ghost predicate Valid()
      reads this
    {
      && KeysAreIds(accounts)
      && UniqueLogins(accounts)
      && ResetPairsAgree(accounts)
      && forall k :: k in accounts ==> k < nextId
    }

    constructor ()
      ensures Valid() && accounts == map[] && nextId == 0
    {
      accounts := map[];
      nextId := 0;
    }
  }
}
