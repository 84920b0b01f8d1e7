# Credential and user API of the social-media platform server, modelled in Dafny

The Express server of the platform exposes two routers.

- **Authentication router** (`/api/auth`):
  - `POST /register` creates an account and issues a session token.
  - `POST /login` checks credentials and issues a token.
  - `GET /me` returns the session's account and sits behind the session gate.
  - `POST /forgotpassword` stores the SHA-256 digest of a fresh reset token with a ten-minute expiry and mails the token.
  - `PUT /resetpassword/:resettoken` sets a new password when the digest of the URL token matches an unexpired pending reset.
- **Users router** (`/api/users`):
  - Every route sits behind the session gate.
  - `GET /` is a paginated listing, newest account first.
  - `GET /me` is the requester's own profile.
  - `GET /:id` is one profile.
  - `PUT /:id` and `DELETE /:id` are owner-only.

This project models the following, as Dafny datatypes, functions, classes and methods:

- the handlers of both routers;
- the session gate `protect`;
- the request-validation chains that guard the handlers;
- the route tables, matched in registration order.

The `users` collection is a map from ids to account records inside an `AccountStore` object. Handlers that write to it are methods with `modifies store`. The store's invariant says four things:

- every account is stored under its own id;
- every id in use is below the next id the store hands out;
- no two accounts share an email or a username;
- an account's two reset fields are both set or both unset.

Every writing handler keeps this invariant.

The following are parameters of the operations that use them:

- the signing of session tokens (`sign`) and their verification (`verify`);
- the password comparison;
- SHA-256;
- the random reset token;
- the clock (`now`, in milliseconds);
- whether the reset mail was delivered;
- the library validators `isEmail` and `isURL`;
- the database's reading of an id segment (`parseId`);
- the database's newest-first ordering of the collection (`ordered`).

Modules, one per file:

| module | file |
|---|---|
| `Wrappers` (Option) | `wrappers.dfy` |
| `Http` (reply shapes) | `http.dfy` |
| `Text` (JavaScript `trim`, `split(' ')`, ASCII case folding) | `text.dfy` |
| `Accounts` (the record, its public projections, the store) | `accounts.dfy` |
| `AuthController` | `auth_controller.dfy` |
| `UserController` | `user_controller.dfy` |
| `AuthMiddleware` (`protect`) | `auth_middleware.dfy` |
| `Validation` (express-validator chains) | `validation.dfy` |
| `Router` (Express first-match dispatch) | `router.dfy` |
| `AuthRoutes` | `auth_routes.dfy` |
| `UserRoutes` | `user_routes.dfy` |

Three behaviours of the code that the model keeps as written:

- `forgotPassword` answers an unknown email with 404 "User not found with this email", so its reply shows whether an email is registered.
- `register`'s uniqueness check and `login`'s and `forgotPassword`'s email lookups compare emails and usernames exactly, as the queries are written. Any normalisation the user schema applies is not part of this model.
- `forgotPassword` runs its email validation chain but never consults the result. An invalid email is looked up like any other.

Lengths are counted as the `isLength` validator counts them: one per character, except that the variation selectors U+FE0E and U+FE0F count for nothing (`Text.CountedLength`). Strings here are sequences of Unicode scalar values, so the surrogate pairs that validator also folds into one character are already single characters, and unpaired surrogates cannot occur.

## Model

| member | source | states |
|---|---|---|
| Text.Trim | express-server/src/routes/authRoutes.ts:19-20 | The result of `trim()` neither starts nor ends with white space. |
| Text.TrimMeaning | express-server/src/routes/authRoutes.ts:19-20 | `trim()` removes exactly the white space at both ends. The result is a contiguous part of the input starting where the leading white space ends, and everything before and after it is white space. |
| Text.TrimIsUnique | express-server/src/routes/authRoutes.ts:20 | Trimming white space, then a trimmed core, then white space gives back exactly that core. |
| Text.TrimIdempotent | express-server/src/routes/authRoutes.ts:20 | Trimming an already trimmed value changes nothing. |
| Text.CountedLength | express-server/src/routes/authRoutes.ts:27 | The length `isLength` measures is at most the number of characters, and equals it exactly when no character is a variation selector. |
| Text.CountedLengthAppend | express-server/src/routes/authRoutes.ts:27 | The counted length of a concatenation is the sum of the counted lengths. |
| Text.SplitOnSpace | express-server/src/middleware/auth.ts:22 | `split(' ')` yields at least one piece and no piece contains a space. Joining the pieces with single spaces gives the header back. |
| Text.SplitJoin | express-server/src/middleware/auth.ts:22 | Splitting a space-join of space-free pieces gives those pieces back. |
| Accounts.TakenIsExactlyACollision | express-server/src/controllers/authController.ts:26-37 | With unique logins, the `$or` query (`Taken`) finds an account exactly when inserting the new account would give two accounts the same email or the same username. |
| Accounts.EmailFindsAtMostOne | express-server/src/controllers/authController.ts:187 | With unique logins, the email query (`HasEmail`) can match at most one account. |
| Accounts.ExpiryIsFinal | express-server/src/controllers/authController.ts:273-276 | The reset query (`ResetMatches`: same digest, expiry strictly after now) that fails at some time fails at every later time. |
| Accounts.SaveKeepsInvariants | express-server/src/controllers/userController.ts:152-157 | Saving a document whose id, email and username are unchanged, and whose reset fields agree, keeps every store invariant. |
| AuthController.NewAccount | express-server/src/controllers/authController.ts:40-46 | A created document carries the body's username, email and names and no pending reset. |
| AuthController.Register | express-server/src/controllers/authController.ts:13-72 | Validation errors give 400. An existing account with the same email or the same username gives 400 "User already exists…" and writes nothing. Otherwise exactly one account is added under a fresh id, and 201 carries a token for that id and the new account's public summary. |
| AuthController.Login | express-server/src/controllers/authController.ts:77-136 | Login succeeds exactly when an account has that email and the password compares equal. An unknown email and a wrong password give the same 401 "Invalid credentials". A success carries a token for that account. |
| AuthController.GetMe | express-server/src/controllers/authController.ts:141-175 | Returns the requester's account with the password and reset fields left out, or 404 when it no longer exists. |
| AuthController.ForgotPassword | express-server/src/controllers/authController.ts:180-248 | An unknown email gives 404 and writes nothing. Otherwise that account alone gets the digest of the reset token and an expiry ten minutes after `now`, and the reply is 200. If the mail fails, both fields are cleared again and the reply is 500. |
| AuthController.Completed | express-server/src/controllers/authController.ts:286-289 | A completed reset sets the new password, clears both reset fields, and changes nothing else. |
| AuthController.ResetPassword | express-server/src/controllers/authController.ts:253-312 | The reset succeeds exactly when some account's stored digest equals the digest of the URL token and its expiry is strictly after `now`. Then that account alone gets the new password and loses both reset fields, and 200 carries a token for it. Otherwise the reply is 400 "Invalid or expired token" and nothing is written. |
| AuthController.CompletingRemovesOnlyThatAccount | express-server/src/controllers/authController.ts:268-289 | After a completed reset the account matches no digest at any time. Every other account matches exactly as before. |
| AuthController.ResetWindowIsExclusive | express-server/src/controllers/authController.ts:207 | A reset requested at time t can be completed exactly at the instants strictly before t + 600000 ms. |
| AuthController.ResetTokenIsSingleUse | express-server/src/controllers/authController.ts:198-289 | Request, delivery and completion together: the first use succeeds exactly inside the ten-minute window, and a replay of the same token at any later time gets 400. |
| UserController.OrDefault | express-server/src/controllers/userController.ts:14-15 | `parseInt(q) \|\| d` keeps every non-zero integer, negative ones included, and falls back to `d` for NaN and 0. |
| UserController.PageAndLimitAreNonZero | express-server/src/controllers/userController.ts:14-16 | Neither the page nor the limit can be 0. |
| UserController.Pages | express-server/src/controllers/userController.ts:31 | `Math.ceil(total / limit)` is the least integer at or above the quotient, for either sign of the limit. |
| UserController.SkipIsNegativeExactlyWhen | express-server/src/controllers/userController.ts:16 | `(page - 1) * limit` is negative exactly when the page is below 1 with a positive limit or above 1 with a negative limit, and is 0 on the first page. |
| UserController.PagesCoverListing | express-server/src/controllers/userController.ts:16-31 | With a positive limit and a page p from 1, the skip is below the total exactly when p is at most the page count. |
| UserController.PageIsNonEmptyExactlyWhen | express-server/src/controllers/userController.ts:16-31 | With a positive limit and a page p from 1, the page the listing returns holds at least one document exactly when p is at most the page count. |
| UserController.Window | express-server/src/controllers/userController.ts:18-22 | `skip(s).limit(n)` keeps at most n documents. It keeps exactly n when enough remain, every remaining document when fewer than n remain, none past the end, and each is the document at position s + i of the sorted collection. |
| UserController.WindowIsNewestFirst | express-server/src/controllers/userController.ts:18-22 | Whatever the skip and the limit, the accounts of a page are listed newest `createdAt` first. |
| UserController.Details | express-server/src/controllers/userController.ts:18-19 | Each listed document is the account with the password and reset fields deselected, in the order of the ids. |
| UserController.GetAllUsers | express-server/src/controllers/userController.ts:9-42 | A negative skip gives 500. Otherwise the reply reports the page, the total, the page count and at most \|limit\| users. The users are exactly the window of the newest-first order, listed newest first. |
| UserController.GetUserById | express-server/src/controllers/userController.ts:47-76 | Returns the account's detail view, or 404. |
| UserController.GetCurrentUser | express-server/src/controllers/userController.ts:81-110 | Returns the requester's own detail view, or 404. |
| UserController.Patched | express-server/src/controllers/userController.ts:152-155 | Each of the four profile fields present in the patch takes its value. Absent fields and every other field keep theirs. |
| UserController.PatchIsIdempotent | express-server/src/controllers/userController.ts:152-155 | Applying the same patch twice is the same as applying it once. |
| UserController.EmptyPatchChangesNothing | express-server/src/controllers/userController.ts:152-155 | An empty patch leaves the account unchanged. |
| UserController.UpdateUser | express-server/src/controllers/userController.ts:115-180 | Checks run in order: validation errors give 400, a missing target 404, a requester other than the owner 403. Only then is the patch applied, to the target alone, with 200 and the summary. |
| UserController.DeleteUser | express-server/src/controllers/userController.ts:185-222 | A missing target gives 404 and a non-owner 403. The owner's request removes that one account. |
| AuthMiddleware.BearerToken | express-server/src/middleware/auth.ts:18-23 | A token is read only from a header that starts with `Bearer` and contains a space. The token itself contains no space. |
| AuthMiddleware.BearerTokenIsSecondPiece | express-server/src/middleware/auth.ts:18-23 | For a header `Bearer…` + space + token + (nothing, or a space and more), the token is exactly the second space-separated piece. |
| AuthMiddleware.NoSpaceNoToken | express-server/src/middleware/auth.ts:18-31 | A header without a space yields no token. |
| AuthMiddleware.BearerEdgeCases | express-server/src/middleware/auth.ts:18-31 | `Bearer` and `Bearer ` give no usable token, `BearerX t` gives `t`, and lower-case `bearer t` gives none. |
| AuthMiddleware.WithoutPassword | express-server/src/middleware/auth.ts:41 | The user the gate loads is the stored account with the password removed and every other field kept: putting the password back gives the account. |
| AuthMiddleware.Request.Next | express-server/src/middleware/auth.ts:51 | Passing the request on counts one call and records the `req.user` the next handler sees. |
| AuthMiddleware.Protect | express-server/src/middleware/auth.ts:9-66 | A missing or empty token, or one that does not verify, gives 401 "Not authorized…" and no `next()`. A verified token whose account is gone gives 401 "User not found". Otherwise `req.user` is that account without its password and `next()` runs exactly once. |
| Validation.OptionalTrimmedChainMeaning | express-server/src/routes/authRoutes.ts:29-38 | An optional trimmed chain with a maximum passes an absent field. A present field passes exactly when its trimmed value's counted length, variation selectors left out, is at most the maximum, and the trimmed value is written back. |
| Router.FirstMatch | express-server/src/routes/authRoutes.ts:57-61 | The route chosen matches the request and no route registered before it does. No route is chosen only when none matches. |
| AuthRoutes.CheckOnlyChain | express-server/src/routes/authRoutes.ts:25-28 | A chain of one non-sanitizing validator reports that validator's verdict on the field and leaves the body unchanged. |
| AuthRoutes.UsernameChainMeaning | express-server/src/routes/authRoutes.ts:19-24 | The username passes exactly when it has 3 to 30 word characters once trimmed. The trimmed value is written back. |
| AuthRoutes.RegisterChainsResult | express-server/src/routes/authRoutes.ts:18-39 | The five register chains (`RegisterValidation`) pass exactly when every rule holds of the raw body, lengths counted without variation selectors. They leave the username and names trimmed. |
| AuthRoutes.RegisterValidationMeaning | express-server/src/routes/authRoutes.ts:18-39 | `CheckRegister` lets registration through exactly when the username trimmed has 3 to 30 word characters, the email passes `isEmail`, the password has a counted length of at least 6, and each name present has a trimmed counted length of at most 50, variation selectors left out of every count. The handler then receives the trimmed username and names, and the email and password as sent. |
| AuthRoutes.LoginValidationMeaning | express-server/src/routes/authRoutes.ts:41-44 | `CheckLogin` (the `LoginValidation` chains) lets login through exactly when the email passes `isEmail` and the password is not empty. Nothing is sanitized. |
| AuthRoutes.ResetValidationMeaning | express-server/src/routes/authRoutes.ts:50-54 | `CheckReset` (the `ResetPasswordValidation` chain) lets a new password through exactly when it has at least 6 characters other than variation selectors, and passes it on as sent. |
| AuthRoutes.ResetSelectorIsNotCounted | express-server/src/routes/authRoutes.ts:50-53 | `abcde` followed by U+FE0F is refused as too short, while `abcdef` followed by U+FE0F gets through. |
| AuthRoutes.ForgotPasswordValidationIsIgnored | express-server/src/routes/authRoutes.ts:46-48 | The forgot-password chain (`ForgotPasswordValidation`) judges the email but leaves the body unchanged, so the handler reads the email as sent. |
| AuthRoutes.AuthRouting | express-server/src/routes/authRoutes.ts:57-61 | Over the route table `AuthTable`, each request reaches the handler listed below with that route's validation chains. Only the `GET /me` stack is protected. |
| AuthRoutes.ServeMe | express-server/src/routes/authRoutes.ts:59 | `protect` then `getMe`: the gate's 401s, or the detail view of the account the token names. |
| UserRoutes.AvatarChainMeaning | express-server/src/routes/userRoutes.ts:34 | The avatar passes when absent or when it passes `isURL`. It is not trimmed. |
| UserRoutes.UpdateChainsResult | express-server/src/routes/userRoutes.ts:18-35 | The update chains (`UpdateValidation`) pass exactly when every rule holds of the raw body, lengths counted without variation selectors. They leave the names and the bio trimmed. |
| UserRoutes.UpdateValidationMeaning | express-server/src/routes/userRoutes.ts:18-35 | `CheckUpdate` lets an update through exactly when each name trimmed has at most 50 characters, the bio at most 500 (variation selectors not counted), and the avatar passes `isURL`. Each rule applies only when its field is present. The handler then receives the trimmed names and bio, the avatar as sent, and None for absent fields. |
| UserRoutes.UserRouting | express-server/src/routes/userRoutes.ts:41-45 | Over the route table `UserTable`, each request reaches the handler listed below. `GET /me`, in any letter case, always reaches `getCurrentUser` and never the id lookup. |
| UserRoutes.Dispatch | express-server/src/routes/userRoutes.ts:41-45 | After the gate admits a requester, each matched route gives its handler's reply: the listing or 500; the requester's detail view or 404 for `GET /me`; 500 for a malformed id, then the detail view or 404 for `GET /:id`; for `PUT /:id`, 400 for a refused body whatever the id, then 500 for a malformed id, then 404, 403 or the patched account; for `DELETE /:id`, 500, 404, 403 or the owner's account removed. A GET changes nothing, and any request changes or removes at most the requester's own account. |
| UserRoutes.ServeUsers | express-server/src/routes/userRoutes.ts:38-45 | The gate runs before every route. A refused request gets 401 and changes nothing. An admitted one can change or remove no account but the one its token names. |

Routing details for `AuthRoutes.AuthRouting`:

- `POST` to a single segment spelling `register`, `login` or `forgotpassword`, in any letter case, reaches that handler.
- `GET` to a single segment spelling `me` reaches `getMe`.
- `PUT` to `resetpassword` followed by a non-empty token segment reaches `resetPassword`.

Routing details for `UserRoutes.UserRouting`:

- `GET` to the empty path reaches the listing.
- Every other non-empty single segment is an id for `GET`, `PUT` and `DELETE`.

## Left out

- Password hashing with bcrypt on save and `comparePassword`. The user schema is not part of this model; `comparePassword` is a parameter and passwords are stored as the controller assigns them.
- Session-token signing and verification, including the fallback secret `your-secret-key` when `JWT_SECRET` is unset. They are the parameters `sign` and `verify`, so token expiry and forgery are outside the model.
- The bodies of `generateResetToken` and SHA-256. The reset token is an input and the digest is a parameter, so digest collisions are the caller's assumption in `ResetTokenIsSingleUse`.
- Email delivery and the mail's text. Delivery is the boolean `delivered`, and the reset URL and message are not modelled.
- The catch-all 500 branches of every handler, whose message is the thrown error's text. They come from database and library failures, which the model does not produce. Two such failures are modelled: a malformed id segment, for which `parseId` returns None and the reply is 500 (for `PUT /:id` only once the body has passed validation, because `updateUser` checks the validation result before it looks the id up), and a negative skip in `UserController.GetAllUsers`, which the database refuses, again with 500.
- The outer 500 branch of `protect` (auth.ts lines 59-65). It can only come from a failure outside the token and database calls.
- `AuthController.Register` ignores two store-level effects. Two concurrent registrations can both pass the existence check, and the database's unique index may refuse the second. Handlers run one at a time on the store here.
- `isEmail` and `isURL` are parameters. Their definitions, including how they judge the empty string that a missing field reads as, are not modelled.
- The `withMessage` texts and the layout of the 400 error array. A validation failure is the single reply `ValidationFailure`.
- `AuthController.ForgotPassword` takes the email as a string. An absent field reads as the empty string, where the source queries with `undefined`.
- HEAD requests, trailing slashes, percent-decoding of path segments, and what Express sends when no route matches. Unmatched requests return None from `UserRoutes.Dispatch`.
- `UserController.GetAllUsers` takes MongoDB's behaviour for a negative limit (at most |limit| documents) and for a negative skip (an error, hence 500) as given. So are the sort of equal `createdAt` values and the fields of the listed documents beyond those the model keeps.
- UserController.GetAllUsers takes `page`, `limit` and the skip as unbounded integers. In the source they are double-precision numbers. Their loss of precision beyond 2^53, and a skip outside the 64-bit integer range the database accepts, are not modelled.
- Request bodies are maps from field names to strings. JSON `null`, numbers, booleans, arrays and objects in a body field are not modelled, nor how the validators and handlers would treat them.
- Ids are natural numbers handed out in creation order, standing in for ObjectIds. Their string form, and the comparison of `_id.toString()` values, is id equality.
- `AuthController.Login` and `AuthController.ForgotPassword` pick an account by email. Emails are unique in the store, so `findOne` has at most one match; `ResetPassword` picks any matching account when several share a digest.
- The Angular/Ionic client, `app.ts` wiring (CORS, mounting), `server.ts` and the mailer transport. None of them is part of this model.
