# Account, login and password-reset logic of a Node.js web template

This project models the decision logic of a server-rendered Express
template that offers signup, login and password reset over a user
collection, and proves properties of that model in Dafny.

Three parts of the repository are modelled:

- **The user controller** (`src/controllers/userController.ts`). The user
  collection is a sequence of account documents in insertion order, so a
  `findOne` query means "the first match". Each handler is a sequential
  method of the class `Controllers.UserController`. It runs its checks in
  the source's order and returns early on the first failure. The handlers
  are `PostLogin`, `PostSignup`, `PostForgot`, `GetReset` and `PostReset`.
  Each method is proved equal to a pure function in `Flows`. That function
  maps the state before the request to the state after it plus the outcome:
  a redirect target, the reset form or `next(err)`, together with the flash
  messages queued during the request. The lemmas in `FlowProperties` state
  the properties of those functions. They cover the order of the checks,
  the 10-minute token lifetime with its strict expiry, the single use of a
  token, "nothing else changes", and what several requests in a row achieve.
- **Authentication configuration** (`src/config/passport.ts`). This file is
  pure functions: the local strategy's verify callback, session
  (de)serialisation, `isAuthenticated`, and `isAuthorized` with its
  `split("/")` of the path.
- **Two application middlewares** (`src/app.ts:68-81`). These are modelled as
  methods of the class `App.Exchange`, which holds `req.session.returnTo`,
  `res.locals.user` and a count of `next()` calls. The path test is a pure
  function.

The controller's inputs from the outside world are explicit parameters:

- `now`: the clock reading, in integer milliseconds.
- The 16 random bytes of the reset token.
- `compare(stored, offered)`: stands for the user model's `comparePassword`
  and is left uninterpreted.
- A `Faults` record: says which collaborator calls report an error. These
  are the controller's and the strategy's queries, `comparePassword`,
  `save`, `req.logIn` and `sendMail`. An
  error ends the handler with `next(err)` and nothing is rolled back. For
  example, a reset token stays saved even when the reset mail fails.

Logging in sets the session's current user id, which is what
`serializeUser` keeps. Mail sending appends a notification to an outbox.

Some behaviour of the code that the model keeps as written:

- The signup handler stores the email exactly as submitted; it is not
  lowercased. The user model file is not part of this model, so no
  schema-level lowercasing is assumed. The strategy does look up the
  lowercased email. `FlowProperties.SignupThenLoginMixedCase` shows the
  effect: an account created with an upper-case letter in its email is
  then reported as not found at login, unless another record already holds
  the lowercased address (the strategy then compares against that record's
  password instead).
- A password reset does not change this: an account whose email has an
  upper-case letter stays unreachable by login after its password is reset,
  since the reset leaves the stored email as it was.
- `postReset` checks the password length and the confirmation before it
  looks up the token.
- The doc comment of `postReset` names `POST /reset/:token`. The route is
  bound as `POST /reset`, and the token comes from the form body, so it is
  an ordinary argument of `PostReset`.
- Passwords are stored as given. Hashing lives in the user model, which is
  not part of this model.

## Model

| member | source | states |
|---|---|---|
| Common.FirstIndex | src/controllers/userController.ts:90 | the first index whose element satisfies the query, and none iff no element does |
| Hex.Encode | src/controllers/userController.ts:131-132 | the hex token has two characters per byte (32 for 16 bytes), all lower-case hex digits |
| Hex.EncodeAt | src/controllers/userController.ts:132 | byte i is written at characters 2i and 2i+1, high nibble first |
| Hex.DecodeEncode | src/controllers/userController.ts:132 | decoding the hex token gives back exactly the random bytes |
| Hex.EncodeInjective | src/controllers/userController.ts:132 | different random bytes give different tokens |
| Accounts.FindByEmail | src/controllers/userController.ts:137 | `findOne({email})`: the first record whose email is exactly the given one; none iff no record has it |
| Accounts.FindByToken | src/controllers/userController.ts:186-187 | the first record holding the token with an expiry strictly after `now`; none iff no record accepts it |
| Accounts.FindById | src/config/passport.ts:19 | `findById`: a record with that id; none iff no record has it |
| Accounts.FindOwnEmail | src/controllers/userController.ts:90-95 | with emails kept unique by signup, looking up a record's email finds that record |
| Accounts.FindOwnId | src/config/passport.ts:18-22 | with distinct ids, looking up a record's id finds that record |
| Passport.Lower | src/config/passport.ts:29 | the lowercased email has the same length, maps each letter to lower case and has no upper-case letter left |
| Passport.LowerFixes | src/config/passport.ts:29 | lowercasing leaves an email unchanged iff it has no upper-case letter |
| Passport.LowerIdempotent | src/config/passport.ts:29 | lowercasing twice is lowercasing once |
| Passport.LocalVerify | src/config/passport.ts:28-42 | lookup by lowercased email; "Email <email as supplied> not found." iff no record has that email; success with exactly the first match iff compare accepts; "Invalid email or password." iff it refuses; errors only from the query or compare |
| Passport.DeserializeUser | src/config/passport.ts:18-22 | gives a stored user with the session's id, none iff no record has it |
| Passport.SessionRoundTrip | src/config/passport.ts:14-22 | serializeUser keeps the user's id, and deserialising that id gives back the same user |
| Passport.IsAuthenticated | src/config/passport.ts:48-53 | calls next iff the request is authenticated, otherwise redirects to "/" |
| Passport.Split | src/config/passport.ts:60 | `split("/")` gives at least one piece and no piece contains a slash |
| Passport.JoinSplit | src/config/passport.ts:60 | joining the pieces with "/" gives back the path |
| Passport.ProviderIsLastSegment | src/config/passport.ts:60 | the provider is the slash-free suffix after the last "/", or the whole path when it has none |
| Passport.Provider | src/config/passport.ts:60 | `split("/").slice(-1)[0]`: the last piece of the split, which contains no slash (its position in the path is ProviderIsLastSegment) |
| Passport.TrailingSlashProvider | src/config/passport.ts:60 | a path ending in "/" gives the empty provider |
| Passport.FindKind | src/config/passport.ts:63 | `_.find(tokens, {kind})`: a token of that kind; none iff no token has it |
| Passport.IsAuthorized | src/config/passport.ts:59-68 | calls next iff some token's kind equals the last path segment, otherwise redirects to "/auth/" + that segment |
| Flows.PostLogin | src/controllers/userController.ts:17-41 | login never changes the collection, the next id or the outbox; a blank email or password changes nothing at all |
| Flows.PostSignup | src/controllers/userController.ts:69-106 | the collection is unchanged or gains exactly the new record, and it gains it only for a long enough, confirmed password and an email no record has; no mail is sent |
| Flows.PostForgot | src/controllers/userController.ts:126-176 | no record is added or removed; each record either stays as it was or has that email and gets the hex token with expiry now + 600000; ids and the session are unchanged |
| Flows.GetReset | src/controllers/userController.ts:182-200 | returns only an outcome, so the state is untouched; the reset form is shown iff the session is anonymous, the query succeeds and some record accepts the token now |
| Flows.PostReset | src/controllers/userController.ts:206-262 | no record is added or removed; each record either stays as it was or accepted the token now and gets the new password with both reset fields cleared; a change happens only for a long enough, confirmed password |
| FlowProperties.PostLoginKeepsConsistent | src/controllers/userController.ts:30-40 | logging in keeps the table invariant and binds the session only to a stored user |
| FlowProperties.PostSignupKeepsConsistent | src/controllers/userController.ts:81-104 | signup keeps ids fresh and distinct, emails distinct, reset fields paired |
| FlowProperties.PostForgotKeepsConsistent | src/controllers/userController.ts:143-146 | issuing a token keeps the table invariant |
| FlowProperties.PostResetKeepsConsistent | src/controllers/userController.ts:228-236 | a reset keeps the table invariant and logs in a stored user |
| FlowProperties.LoginBlankEmail | src/controllers/userController.ts:20-23 | a missing or empty email flashes "Introduzca un nombre de usuario" and redirects to "/", whatever compare or the faults are |
| FlowProperties.LoginBlankPassword | src/controllers/userController.ts:25-28 | with an email present, a missing or empty password flashes "Introduzca una contraseña" and redirects to "/" |
| FlowProperties.LoginOnlyBindsSession | src/controllers/userController.ts:30-40 | login never changes the collection or the outbox; the session changes only to the strategy's user, with a redirect to "/" |
| FlowProperties.SignupTooShort | src/controllers/userController.ts:72-75 | a password shorter than 4 is refused first, even with a mismatching confirmation, and nothing changes |
| FlowProperties.SignupMismatch | src/controllers/userController.ts:76-79 | a long enough but unconfirmed password is refused and nothing changes |
| FlowProperties.SignupEmailTaken | src/controllers/userController.ts:90-95 | an email already present redirects to /account/signup with an error and saves nothing |
| FlowProperties.SignupCreatesAccount | src/controllers/userController.ts:81-104 | a fresh email appends exactly one record with the given fields and no reset fields, and logs it in |
| FlowProperties.ForgotUnknownEmail | src/controllers/userController.ts:137-142 | an unknown email flashes an error, redirects to /account/forgot and changes nothing |
| FlowProperties.ForgotIssuesToken | src/controllers/userController.ts:129-175 | the matching record gets the 32-digit hex token and expiry now + 600000; no other field or record changes; the mail is sent unless the transport fails, and the token stays either way |
| FlowProperties.IssuedTokenLifetime | src/controllers/userController.ts:186-187 | an issued token is accepted iff now is before issue + 600000, so it is refused at exactly its expiry instant |
| FlowProperties.GetResetAccepts | src/controllers/userController.ts:182-199 | the reset form is shown iff the session is anonymous, the query does not fail and some record holds the token with expiry after now; a logged-in session goes to "/"; with an anonymous session and no query fault, any other answer is the invalid-token flash with a redirect to /account/forgot |
| FlowProperties.ResetValidatesFirst | src/controllers/userController.ts:209-216 | length, then confirmation, are checked before any lookup; a failure redirects back and changes nothing |
| FlowProperties.ResetRejectsUnknownToken | src/controllers/userController.ts:220-227 | a token no record accepts now gives "Password reset token is invalid or has expired." and changes nothing |
| FlowProperties.ResetConsumesToken | src/controllers/userController.ts:220-261 | success replaces the password, clears both reset fields, leaves other records alone, logs the user in and sends the confirmation |
| FlowProperties.ResetSingleUse | src/controllers/userController.ts:220-231 | once a reset has saved, the same token is refused at any later time |
| FlowProperties.ForgotThenPresent | src/controllers/userController.ts:126-199 | after a fault-free reset request at t from an anonymous session, and provided no record already held the same token, the token shows the form iff it is presented before t + 600000 |
| FlowProperties.SecondRequestWins | src/controllers/userController.ts:143-146 | a second request for the same account, with different random bytes, overwrites that record's token, so that record no longer accepts the first token at any time (another record could still hold an equal token) |
| FlowProperties.ResetScenario | src/controllers/userController.ts:126-262 | for a consistent table and a token no record already held: token issued at t0, reset at t0 + 5 min succeeds and logs in, a second reset at t0 + 6 min is refused |
| FlowProperties.SignupThenLogin | src/config/passport.ts:28-42 | on a consistent table, signing up with a non-empty email that has no upper-case letter and then logging in with the same password logs in the new account, when `comparePassword` accepts the password the account was created with |
| FlowProperties.SignupThenLoginMixedCase | src/config/passport.ts:29-33 | an email with an upper-case letter is stored as given, so the login that follows reports it as not found, unless another record already holds the lowercased address |
| FlowProperties.ResetThenLogin | src/controllers/userController.ts:228-236 | for an account whose email is non-empty and has no upper-case letter, after a reset the new password logs in (when `comparePassword` accepts it); under plain comparison a different old password is refused |
| Controllers.UserController.PostLogin | src/controllers/userController.ts:17-41 | the handler's new state and outcome are those of the login flow, and the invariant holds |
| Controllers.UserController.PostSignup | src/controllers/userController.ts:69-106 | the handler's new state and outcome are those of the signup flow, and the invariant holds |
| Controllers.UserController.PostForgot | src/controllers/userController.ts:126-176 | the handler's new state and outcome are those of the reset-request flow, and the invariant holds |
| Controllers.UserController.GetReset | src/controllers/userController.ts:182-200 | changes nothing; shows the form iff the session is anonymous, the query does not fail and some record accepts the token now |
| Controllers.UserController.PostReset | src/controllers/userController.ts:206-262 | the handler's new state and outcome are those of the reset flow, and the invariant holds |
| App.HasPrefix | src/app.ts:75 | `/^\/auth/`: the path starts with the literal prefix |
| App.HasDot | src/app.ts:75 | `/\./`: the path contains a dot at some position |
| App.NextReturnTo | src/app.ts:72-81 | anonymous: returnTo becomes the path iff it is neither /login nor /signup, does not start with /auth and has no dot; logged in: iff the path is /account; otherwise unchanged |
| App.AuthorsNotRemembered | src/app.ts:75 | "/authors" counts as an /auth path and is not remembered |
| App.LoggedInRemembersOnlyAccount | src/app.ts:77-78 | a logged-in visit changes returnTo only for "/account" |
| App.Exchange.ExposeUser | src/app.ts:68-71 | res.locals.user is the request's user, returnTo is unchanged, next is called once |
| App.Exchange.RememberReturnTo | src/app.ts:72-81 | returnTo follows the path rule, locals are unchanged, next is called exactly once |

## Left out

- Database connection, session store, cookie settings, compression, body parsing, security headers and static files (`src/app.ts:26-66`, `83-86`): configuration only.
- Route tables (`src/app.ts:91-99`, `src/routes/routes.ts`) and the home controllers: they are declarative or only choose a view.
- `logout`, `getSignup` and `getForgot`: they only log out or choose a view to render.
- `crypto.randomBytes`: the 16 bytes are an input. Its error path is not modelled.
- `Date.now()`: `now` is an input.
- Mail transport: the mail text, sender and host in the link are not modelled. Only the recipient and the token (or the change confirmation) go into the outbox.
- `comparePassword` and password hashing: these are in the user model, which is not part of this model. `compare` is an uninterpreted parameter and the password is stored as given.
- Document ids: Mongo's opaque ids are modelled as a counter.
- Concurrent requests on the same token or email are not modelled.
- Form bodies: apart from the login checks for missing fields, fields are strings that are present. What happens when signup or reset receives an undefined field is not modelled.
- `res.redirect("back")` is kept as the literal target "back". The Referer lookup behind it is not modelled.
- Passport.DeserializeUser: an error from `findById` is not modelled; the `Faults` record covers only the controller's and the strategy's calls.
- Passport.IsAuthorized: it takes a user; the source's behaviour when `req.user` is undefined is not modelled.
- Passport.Lower: maps only the letters A-Z. JavaScript's `toLowerCase` also changes other Unicode letters.
- Flows.PostSignup: string length counts Unicode scalar values. JavaScript's `length` counts UTF-16 code units.
- Flows.PostReset: string length counts Unicode scalar values. JavaScript's `length` counts UTF-16 code units.
- FlowProperties.ResetSingleUse: proved only when no other record holds the same token. Two accounts could be issued equal tokens from equal random bytes, and then the second holder still accepts the token.
