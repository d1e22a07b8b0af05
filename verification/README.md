# GiftLink authentication, modelled in Dafny

GiftLink is a gift-marketplace web application: an Express backend over
MongoDB and a React frontend. This project models the two small state
machines in its authentication subsystem.

* **The `/api/auth` router** (`giftlink-backend/routes/authRoute.js`).
  The `/register`, `/login` and `/update` handlers are pure transitions of
  the `users` collection. Each call returns a `Step`: the HTTP status with
  its JSON body, and the collection after the call. The collection is a
  sequence of documents in insertion order. `findOne({ email })` is the
  first document with that email. Ids come from a counter in the store,
  standing in for the driver's ObjectId generation.
* **The client session store** (`giftlink-frontend/src/context/AuthContext.js`).
  `AuthProvider` keeps the state `(isLoggedIn, userName, userEmail)` and
  persists it to `sessionStorage`, modelled as a `map<string, string>`. The
  mount effect, `handleLogin` and `handleLogout` are pure functions of that
  pair.

The foreign libraries are parameters, bundled in `AuthRoute.Deps`:

* express-validator's `isEmail` is `isEmail: string -> bool`.
* `bcryptjs.hash(password, salt)` is `hash`.
* `bcryptjs.compare(password, digest)` is `compare`.

A JWT is represented by its payload: `Token(userId, expiresIn)`. The salt
and the clock (`new Date()`) are per-call arguments.

Files:

* `wrappers.dfy`: `Option`.
* `user_store.dfy`: the user document, the collection, `findOne`,
  `insertOne`, the replace done by `findOneAndUpdate`, and the store
  invariant `WellFormed`. The invariant says that emails are unique and
  ids are fresh.
* `auth_route.dfy`: the validation rules and the three handlers.
  `Run` serves a sequence of calls.
* `auth_route_properties.dfy`: lemmas relating calls to each other.
* `auth_context.dfy`, `auth_context_properties.dfy`: the session store and
  its round-trip, idempotence and frame lemmas.

## Model

| member | source | states |
|---|---|---|
| `UserStore.FindOne` | giftlink-backend/routes/authRoute.js:37-38 | The result is the position of the first document with exactly that email. None means no document has it. |
| `UserStore.Insert` | giftlink-backend/routes/authRoute.js:47-56 | Appends exactly one document with the given fields and no `updatedAt`. Every existing document is kept in place. The new id differs from every existing id, and id freshness is preserved. |
| `UserStore.Replace` | giftlink-backend/routes/authRoute.js:142-146 | Only the document at the matched position changes. The count and the id counter are unchanged, and unique emails and fresh ids are preserved. |
| `AuthRoute.Validate` | giftlink-backend/routes/authRoute.js:17-29 | A rule's error is reported if and only if that rule is among those run and fails. The list is no longer than the rule list. The list is empty if and only if every rule passes. |
| `AuthRoute.ValidateNoDuplicates` | giftlink-backend/routes/authRoute.js:17-29 | When no rule is listed twice, no error appears twice in the list: each failing rule is reported once. |
| `AuthRoute.ValidateReportsOnlyFailures` | giftlink-backend/routes/authRoute.js:17-29 | Every reported error is the error of a rule that was run and failed. |
| `AuthRoute.RegisterValidation` | giftlink-backend/routes/authRoute.js:17-22 | The four `/register` rules are: a valid email, a password of at least 6 characters, a non-empty first name and a non-empty last name. Validation is clean exactly when all four hold, and each rule's error is present exactly when that rule fails. |
| `AuthRoute.RegisterErrorsInOrder` | giftlink-backend/routes/authRoute.js:17-29 | The error list is every failing rule's error, in declaration order: email, password, first name, last name. It is not only the first failure. |
| `AuthRoute.Register` | giftlink-backend/routes/authRoute.js:24-74 | The status is 400 or 201. It is 400 exactly when validation fails or the email is taken, and then the store is unchanged. On 201 exactly one document is appended. Unique emails and fresh ids are preserved. |
| `AuthRoute.Login` | giftlink-backend/routes/authRoute.js:82-108 | The store is never modified. The status is 200 or 404. It is 200 exactly when the email is found and `compare` accepts the password against the stored digest. |
| `AuthRoute.Update` | giftlink-backend/routes/authRoute.js:116-155 | The status is 200, 400 or 404. It is 400 exactly when the `email` header is missing or empty. Any failure leaves the store unchanged. Success keeps the document count and id counter, and preserves unique emails and fresh ids. |
| `AuthRoute.Run` | giftlink-backend/routes/authRoute.js:37-56 | A sequence of calls served in order keeps no two documents sharing an email, keeps ids fresh, and never shrinks the collection. |
| `AuthRouteProperties.RegisterInvalidRejected` | giftlink-backend/routes/authRoute.js:27-30 | An invalid registration gets 400 with the non-empty list of failures. The store is unchanged. The response does not depend on the store, the salt or the clock, so validation comes before any store access. |
| `AuthRouteProperties.RegisterDuplicateRejected` | giftlink-backend/routes/authRoute.js:36-40 | A valid registration for a stored email gets 400 "Email is already taken" and inserts nothing. |
| `AuthRouteProperties.RegisterAccepted` | giftlink-backend/routes/authRoute.js:42-73 | A valid registration for an unused email appends one document with the request's email and names. Its password field is `hash(password, salt)`, not the plaintext. It has `createdAt` = now, no `updatedAt`, and a fresh id. The response is 201 with a one-hour token for that id and the request's email. |
| `AuthRouteProperties.RegisterTwiceRejected` | giftlink-backend/routes/authRoute.js:37-56 | After a successful registration, any valid registration of the same email is refused with "Email is already taken", and the store is unchanged. |
| `AuthRouteProperties.LoginOutcome` | giftlink-backend/routes/authRoute.js:88-108 | Login leaves the store unchanged. An unknown email gives 404 "User not found". A failed compare gives 404 "Wrong pasword". Otherwise the result is 200 with an expiry-less token for the stored id, the stored first name as `userName` and the stored email as `userEmail`. |
| `AuthRouteProperties.LoginAfterRegister` | giftlink-backend/routes/authRoute.js:59-104 | After registering, login with the same email succeeds exactly when `compare` accepts the password against the stored digest. On success the login token names the same id as the registration token, but with no expiry. |
| `AuthRouteProperties.UpdateMissingHeader` | giftlink-backend/routes/authRoute.js:125-129 | A missing or empty `email` header gives 400 "Email not found in the request headers" and leaves the store unchanged. The response is the same whatever the store or the body. |
| `AuthRouteProperties.UpdateUnknownEmail` | giftlink-backend/routes/authRoute.js:134-138 | A header naming no stored email gives 404 "User not found" and leaves the store unchanged. |
| `AuthRouteProperties.UpdateNarrow` | giftlink-backend/routes/authRoute.js:139-155 | On success only `firstName` (set to the body's `name`) and `updatedAt` (set to now) of the first matching document change. Every other field, and every other document, is unchanged. The response is 200 with an expiry-less token for that document's id. |
| `AuthRouteProperties.LoginAfterUpdate` | giftlink-backend/routes/authRoute.js:139-146 | After a successful update, a login with that email and a matching password reports the new name. |
| `AuthRouteProperties.RunKeepsDocuments` | giftlink-backend/routes/authRoute.js:56-146 | No handler deletes a document or changes its id or email. A document keeps both through any sequence of calls. |
| `AuthRouteProperties.RegisteredStaysTaken` | giftlink-backend/routes/authRoute.js:37-40 | Once an email is stored, any number of later calls keeps emails unique, and a new registration of that email is still refused with "Email is already taken". |
| `AuthRoute.Handle` | giftlink-backend/routes/authRoute.js:24-160 | Dispatching any one call to its handler keeps unique emails and fresh ids. It never shrinks the collection. Every existing document keeps its position, id and email. |
| `AuthContext.Restore` | giftlink-frontend/src/context/AuthContext.js:26-35 | A truthy (present and non-empty) `auth-token` logs the session in. The name and email are taken from storage, each "" when absent. Otherwise the session is unchanged. |
| `AuthContext.Mount` | giftlink-frontend/src/context/AuthContext.js:21-35 | A fresh provider is logged in exactly when storage holds a non-empty `auth-token`. Otherwise it is in the initial logged-out state. Storage is not written. |
| `AuthContext.Login` | giftlink-frontend/src/context/AuthContext.js:38-45 | Sets the session to logged in with the given name and email. Writes `auth-token`, `name` and `email`. Leaves every other key untouched. |
| `AuthContext.Logout` | giftlink-frontend/src/context/AuthContext.js:48-55 | Resets the session to logged out with empty fields. Removes the three keys. Leaves every other key untouched. |
| `AuthContextProperties.MountEmpty` | giftlink-frontend/src/context/AuthContext.js:21-23 | The initial state is logged out with an empty name and email, and mounting on empty storage yields it. |
| `AuthContextProperties.LoginRoundTrip` | giftlink-frontend/src/context/AuthContext.js:30-45 | Remounting on the storage written by `login` reproduces its session when the token is non-empty. With an empty token the remount is logged out. |
| `AuthContextProperties.LogoutRoundTrip` | giftlink-frontend/src/context/AuthContext.js:48-55 | Remounting after `logout` gives the logged-out state, the same state `logout` set. |
| `AuthContextProperties.LogoutIdempotent` | giftlink-frontend/src/context/AuthContext.js:48-55 | Logging out twice is the same as logging out once. |
| `AuthContextProperties.LoginOverrides` | giftlink-frontend/src/context/AuthContext.js:38-45 | A second `login` erases every trace of the first. |
| `AuthContextProperties.LoginThenLogout` | giftlink-frontend/src/context/AuthContext.js:38-55 | `logout` after `login` leaves the same state as `logout` alone. |

Notes on the source's behaviour:

* Only the registration token has an expiry of one hour. The login and
  update tokens have none.
* Login failures are 404 with an `error` field, the second reading
  "Wrong pasword".
* `/update` has no validation rules attached, so its `validationResult`
  check is always clean and is not modelled.

## Left out

- The 500 catch-all branches (authRoute.js:75-79, 109-112, 156-159) are not modelled. They fire only on exceptions from the database or the libraries. One consequence is also out of scope: a `jwt.sign` failure after `insertOne` would leave a partial insert.
- The race between the duplicate check and the insert is concurrency. The handlers are modelled as running one at a time.
- The database connection and its cached handle (models/db.js), the Express and CORS wiring (app.js) and all logging are not modelled. None of them affects a response.
- bcryptjs, jsonwebtoken and express-validator's `isEmail` are uninterpreted parameters. No hash round-trip is assumed. The salt cost factor 10 and the signing secret are not modelled. Signed tokens are represented by their payloads.
- Body fields of `/register` are strings. A missing field is represented as "", which the string-based checks treat the same way. Password length is the number of characters; the length rule's handling of variation selectors in `isLength` is not modelled.
- `/login`'s `email` and `password` are modelled as strings. `express.json()` (app.js:22) lets a JSON object such as `{"$ne": null}` reach `findOne` (authRoute.js:88) as a query operator, which matches an arbitrary document. A missing or non-string `password` makes `bcryptjs.compare` (authRoute.js:90) reject, giving 500. Neither operator objects nor non-string values are modelled.
- A validation error entry for an absent field has no `value` key in the source. The model stores "" there, because it represents an absent field as "".
- The body `name` of `/update` is a string. An absent `name`, which the source would write as `undefined`, is not modelled.
- The update token's id is read from the driver's `findOneAndUpdate` result. The model takes it to be the updated document. A driver version that wraps the result would fail after the write; that case is not modelled.
- `useAppContext`'s guard (AuthContext.js:80-85) is unreachable, because the context has a truthy default. It is not modelled.
- The raw setters in the context value (AuthContext.js:58-67) are not modelled. React rendering and effect scheduling are also left out.
- `sessionStorage.setItem` converts non-string arguments to strings. `login`'s arguments are modelled as strings only.
