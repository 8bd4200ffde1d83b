# Course-selling API: user signup/signin, purchases and admin authentication

A Dafny model of the authentication core of a course marketplace built on
Express, Mongoose, bcrypt, jsonwebtoken and zod:

- the signup body schema (`email`, `password`, `firstName`, `lastName`), with
  its length bounds counted in UTF-16 code units as JavaScript does and the
  three password refinements (`[A-Z]`, `[a-z]`, `[^A-Za-z0-9]`);
- the user signup handler (400 on invalid input before any hashing, 500 when
  the store write fails, otherwise one appended record holding the bcrypt
  digest);
- the user signin handler exactly as written, including its crash on an
  unknown email, and a corrected variant;
- the purchases handler: the caller's purchases joined with the purchased
  courses;
- the admin authentication middleware, exactly as written and with the
  verification caught.

bcrypt, jsonwebtoken, zod's email check, the user-id assignment of the store
and the store's failure are parameters: `Bcrypt`, `Jwt`, `isEmail`, `newId`,
`writeFails`. The two JWT secrets form a `Config` value. Each handler returns
the calls it made into bcrypt/jsonwebtoken, so contracts can say that no hash
is computed for invalid input and that the middleware only ever verifies with
the admin secret. The stores are sequences in insertion order.

Modules: `Common` (Option), `Text` (character classes, UTF-16 length),
`SignupSchema`, `Oracles` (library interfaces and the properties relied on),
`Db` (records and `findOne`), `Http` (responses), `UserRoutes`
(routes/user.js), `AdminAuth` (middleware/admin.js).

The model follows the code as written, including where it departs from what its branches evidently intend:

- signin with an unknown email throws (routes/user.js:59) instead of answering
  403 "Incorrect credentials";
- a missing or invalid admin token makes `jwt.verify` throw
  (middleware/admin.js:6), so it is not answered 403; the 403 branch is reached
  only by a falsy payload (an empty string);
- signup does not look for an existing record with the same email; a
  uniqueness violation reported by the store is just a failed write (500);
- the purchases response spells its course key `couresData`.

## Model

| member | source | states |
|---|---|---|
| Text.Utf16Length | routes/user.js:13-19 | the length the `min(3)`/`max(100)` checks compare is between the character count and twice it, equals the character count exactly when no character lies outside the Basic Multilingual Plane, and is twice it exactly when all do |
| Text.ScanClasses | routes/user.js:15-17 | a standalone executable scan that returns exactly whether the password contains an `[A-Z]`, an `[a-z]` and a `[^A-Za-z0-9]` character |
| SignupSchema.FieldIssues | routes/user.js:13-19 | the issues for one field are exactly the checks its value fails (missing value, below 3, above 100, not an email, a missing password character class), and there are none exactly when the field passes every check |
| SignupSchema.Validate | routes/user.js:12-22 | `safeParse` on the body: every reported issue is a check the body fails, every failed check is reported, and the body is accepted exactly when all four fields pass every check |
| SignupSchema.PasswordRules | routes/user.js:14-17 | an accepted password has length 3..100 and contains an upper-case, a lower-case and a special character; a password missing any of these yields the issue with the matching message or bound |
| SignupSchema.FieldLengthRules | routes/user.js:13-19 | any field that is missing, shorter than 3 or longer than 100 code units is rejected with the matching issue; an accepted body has every field present and within bounds |
| Db.FindOne | routes/user.js:55-57 | `findOne({ email })` is null exactly when no record has that email, and otherwise is the first record with that email |
| UserRoutes.Signup | routes/user.js:22-49 | invalid input gives 400 "Invalid input" with a non-empty list of genuinely failed checks, no hash call and the store unchanged; valid input hashes the password once with cost 10; a failed write gives 500 "Error while signing up" and the store unchanged; otherwise 200 "Signup Succeeded" and exactly one record appended holding the digest and the other fields unchanged; 200 exactly when the input is valid and the write succeeds |
| UserRoutes.Signin | routes/user.js:52-73 | throws (no response, no bcrypt call) exactly when no record has the email; for the first record with the email, answers 200 with `sign(id, JWT_USER_PASSWORD)` if bcrypt accepts the password and 403 "Incorrect credentials" otherwise |
| UserRoutes.SigninUnknownEmailThrows | routes/user.js:55-60 | on an empty store, for every email, password and library, the handler as written throws a TypeError while the guarded handler answers 403 |
| UserRoutes.SigninGuarded | routes/user.js:52-73 | with the user test made before the digest is read, signin always answers; 200 with the signed user id exactly when a first record with the email exists and its password matches, otherwise 403 "Incorrect credentials" |
| UserRoutes.GuardedSigninUniformFailure | routes/user.js:60-72 | with the guard, an unknown email receives exactly the response of a known email with a wrong password (403) |
| UserRoutes.SignupThenSignin | routes/user.js:31-67 | after a successful signup with a fresh email, signin with the same email and password answers 200 with a token signed for the new record's id, given bcrypt accepts a password against its own digest |
| UserRoutes.PurchasesOf | routes/user.js:76-80 | the purchases returned are exactly the caller's, each as often as stored; the id set is exactly their course ids |
| UserRoutes.CoursesAmong | routes/user.js:82-84 | the courses returned are exactly those whose id is in the set, each as often as stored |
| UserRoutes.GetPurchases | routes/user.js:75-90 | 200 with the caller's purchases (each returned purchase has the caller's `userId`, every stored one of theirs is returned) and the courses whose id is the course of one of those purchases, and no others |
| AdminAuth.AdminMiddleware | middleware/admin.js:4-16 | verifies the raw header once and only with `JWT_ADMIN_PASSWORD`; throws exactly when verification throws, and then neither calls `next` nor answers; a truthy payload sets `userId` to its `id` and calls `next` once; otherwise 403 "You are not signed in" and the request unchanged; exactly one of `next`/403 unless it throws; headers and body never change |
| AdminAuth.NoPrefixStripping | middleware/admin.js:5-6 | whatever the header holds (a `Bearer ` prefix included) reaches `jwt.verify` unchanged, and a missing header reaches it as `undefined` |
| AdminAuth.AdminMiddlewareIdempotent | middleware/admin.js:4-16 | running the middleware again on the request it produced gives the same run |
| AdminAuth.MissingHeaderThrows | middleware/admin.js:5-15 | for every request without the header and every jsonwebtoken that throws on a missing token, the middleware sends no 403 and calls no `next`: the exception escapes and the request is unchanged |
| AdminAuth.AdminMiddlewareCaught | middleware/admin.js:4-16 | with verification caught, the middleware never throws and does exactly one of `next` (on a truthy payload, `userId` set to its `id`) and 403 "You are not signed in" (request unchanged) |
| AdminAuth.UserTokenRefused | middleware/admin.js:2-6 | a token issued by the user signin, presented to the admin middleware when the two secrets differ, makes verification throw and never calls `next`; the caught middleware answers 403 |

## Left out

- routes/admin.js: every handler returns a fixed placeholder message and the router is never constructed, so there is no course creation, update, listing or ownership check to model.
- The user middleware that sets `req.userId` for the purchases route is not part of this model; the authenticated id is a parameter of `GetPurchases`.
- bcrypt hashing and salting, JWT signing, signature checking and expiry, and zod's email regular expression: foreign code, modelled as uninterpreted function parameters. The properties relied on (`HashMatches`, `SecretsSeparate`) are stated as premises of the lemmas that need them.
- The secrets module: its two values are the `Config` parameter; nothing forces them to differ, so lemmas that need distinct secrets require it.
- MongoDB and async/await: the collections are sequences, `userModel.create` either appends or fails according to `writeFails`, and the assigned `_id` is the `newId` parameter. The user schema's own options (unique index, trimming, lower-casing) are not visible and not modelled.
- What Express does with a thrown error is left open; the model stops at the thrown error. The middleware is synchronous, so in every Express version the router catches its throw and the default error handler answers 500. The signin handler is async, so its rejection depends on the version: it is unhandled in Express 4 and answered 500 in Express 5.
- zod 4 is assumed. The custom refinement messages come from the `{ error: ... }` option, which only zod 4 reads; zod 3 would report its generic message instead.
- The exact zod issue objects (codes, messages of the built-in checks, paths as arrays) and their order: the model reports which checks failed, as a set. A body that is not an object at all is not modelled; each field is either a string or missing.
- The signin body: `email` and `password` are taken to be strings; a missing email (a `findOne` filter on `undefined`) is not modelled.
- Db.FindOne: takes MongoDB's natural order to be insertion order, so with duplicate emails (signup does not reject them) it returns the earliest inserted record; MongoDB itself promises only some first match in natural order.
- Strings are sequences of Unicode scalar values, so a lone surrogate in a JSON body (such as `"\ud800"`) cannot be represented; in JavaScript it counts 1 toward `length` and matches `[^A-Za-z0-9]`.
- UserRoutes.GetPurchases: does not state the order of the returned purchases and courses, because MongoDB's `find` without a sort promises no order; the multiplicity of each element is stated exactly.
- Signup: the statement that the stored digest differs from the plaintext is not made, because it is a property of bcrypt, which is uninterpreted here; the record is stated to hold `hash(password, 10)`.

## Findings

| source | as written | input that shows it | evidently intended | confidence | as-written member | corrected member |
|---|---|---|---|---|---|---|
| routes/user.js:59-60 | `user.password` is read before the `user &&` test, so `findOne` returning null throws a TypeError | signin with any email on an empty store | an unknown email is answered 403 "Incorrect credentials", like a wrong password | high; not executed | UserRoutes.SigninUnknownEmailThrows | UserRoutes.SigninGuarded |
| middleware/admin.js:6-15 | `jwt.verify` throws on a missing, malformed or wrongly signed token and the call is not caught, so the 403 branch never sees those tokens | a request with no `authorization` header | a request that is not signed in is answered 403 "You are not signed in" | high; not executed | AdminAuth.MissingHeaderThrows | AdminAuth.AdminMiddlewareCaught |
