# Admin authentication core, modelled in Dafny

The back end authenticates a single administrator, described entirely by
configuration: an email, a bcrypt hash of the password, a JWT signing secret
and a token lifetime. `AdminAuthService.login(email, password)` runs a fixed
chain of guards (missing input, wrong email, wrong password, signing error)
and on success returns a JSON Web Token signed over the claim set
`{ email: adminEmail, role: "SUPER_ADMIN" }`. `AdminAuthService.verifyToken(token)`
returns the decoded payload only when the JWT library verifies the token and
the payload is an object whose `role` is `"SUPER_ADMIN"`; otherwise it
returns `null`. The module refuses to start unless the admin email, password
hash and JWT secret are all set.

Files:

- `wrappers.dfy` (module `Wrappers`): `Option` and `Result`.
- `jwt.dfy` (module `Jwt`): JSON values, claim sets, what `jwt.verify`
  returns, and `Primitives`, a record of three function values standing for
  `bcrypt.compare`, `jwt.sign` and `jwt.verify`, each of which may throw.
  `SignedTokenVerifies` states, for one signing, that the token it returned
  verifies with the same secret to an object payload holding the signed
  claims; it is used only as a hypothesis about the token at hand.
- `admin_auth.dfy` (module `AdminAuth`): the configuration guard
  (`LoadConfig`, `Boot`, the `AdminAuthService` class whose constructor
  requires a complete configuration), `Login` and `VerifyToken`.
- `admin_auth_properties.dfy` (module `AdminAuthProperties`): lemmas that
  relate the two operations to each other and to the library's promises.

`Login` and `VerifyToken` are pure functions of the configuration, the
library primitives and the inputs. Each returns its outcome together with
the list of library calls it made, so "the comparison is never invoked"
and "signing is called with exactly the admin claims" are stated
directly. The outcome names the reason for a rejection (the service logs
them differently); `Returned()` gives what the caller actually sees, and
every rejection reason yields the same `null`.

`bcrypt.compare` is awaited outside the `try` block
(BACKEND/src/core/auth/adminAuth.service.ts:36), so an error it throws
rejects `login`'s promise instead of becoming `null` (`CompareThrew`,
`Returned() == Failure(...)`, carrying bcrypt's error). Only a signing error
is caught and turned into `null`.

## Model

| member | source | states |
|---|---|---|
| `AdminAuth.LoadConfig` | BACKEND/src/core/auth/adminAuth.service.ts:5-13 | A configuration exists exactly when ADMIN_EMAIL, ADMIN_PASSWORD_HASH and JWT_SECRET are all set and non-empty; it then holds those values, and the token lifetime is JWT_EXPIRES_IN when that is non-empty and "1h" otherwise |
| `AdminAuth.Boot` | BACKEND/src/core/auth/adminAuth.service.ts:84 | The exported service object is created exactly when the three required variables are set and non-empty (otherwise the process stops); its configuration is the loaded one and is complete, and it uses the given libraries |
| `AdminAuth.AdminAuthService.constructor` | BACKEND/src/core/auth/adminAuth.service.ts:15 | A service can only be created from a configuration whose admin email, password hash and JWT secret are non-empty, and it keeps that configuration and those libraries |
| `AdminAuth.Login` | BACKEND/src/core/auth/adminAuth.service.ts:23-57 | Missing or empty email or password gives MissingCredentials and calls no library; a different email gives UnknownEmail and calls no library; otherwise the password is compared once against the stored hash; a token is issued exactly when the email is the admin email, the comparison returns true and signing succeeds, and it is the token signing returned; signing is called only after a matching password, with exactly the claims {email: adminEmail, role: SUPER_ADMIN}, the configured secret and lifetime; a wrong password or a comparison error ends after exactly the one comparison call, with no signing; a comparison error gives CompareThrew carrying the error bcrypt threw, and a signing error gives SignFailed, carrying the signing error, and never a token |
| `AdminAuth.LoginOutcome.Returned` | BACKEND/src/core/auth/adminAuth.service.ts:24-56 | The caller receives a token exactly for an issued outcome; missing input, wrong email, wrong password and a signing error all resolve to the same null; only a comparison error rejects the call, with that error |
| `AdminAuth.VerifyToken` | BACKEND/src/core/auth/adminAuth.service.ts:64-80 | A missing or empty token is refused without calling the library; otherwise the library is called once with the token and the configured secret; a verification error is refused; the token is accepted exactly when verification yields an object payload whose role is SUPER_ADMIN, and then the payload is returned unchanged; a string payload or any other role is refused |
| `AdminAuth.TokenOutcome.Returned` | BACKEND/src/core/auth/adminAuth.service.ts:65-79 | The caller receives the decoded payload exactly when the token was accepted, and null for every refusal |
| `AdminAuthProperties.OnlyAdminEmailCanLogIn` | BACKEND/src/core/auth/adminAuth.service.ts:24-52 | With a complete configuration, an email can obtain a token with some password if and only if it is the admin email, some non-empty password matches the stored hash and the admin claims can be signed: the credential has exactly one holder |
| `AdminAuthProperties.IssuedTokenVerifies` | BACKEND/src/core/auth/adminAuth.service.ts:44-72 | If the JWT library verifies the very token login signed (to an object payload holding the signed claims), that token is accepted by verifyToken under the same configuration, with the admin email and the SUPER_ADMIN role in its payload |
| `AdminAuthProperties.OtherRoleTokenRefused` | BACKEND/src/core/auth/adminAuth.service.ts:68-75 | A token signed with the service's own secret over claims whose role is anything but SUPER_ADMIN, and which the library verifies, is still refused by the role check |
| `AdminAuthProperties.LoginScenario` | BACKEND/src/core/auth/adminAuth.service.ts:23-57 | With admin email admin@example.com and a hash that only "correct-pw" matches: that pair gets the signed token; a wrong password, another email and an empty email are each rejected for their own reason |

## Left out

- Logging (`console.warn`, `console.error`, `console.log`): output only. The outcome datatypes keep the distinctions the log lines make.
- The internals of bcrypt (hashing, salt, constant-time comparison): a foreign library, modelled as the function `compare` that returns a boolean or throws.
- The internals of `jsonwebtoken`: encoding, HMAC signing, signature checking and the expiry check of section 4.1.4 of RFC 7519. `sign` and `verify` are function values that may throw; the clock `verify` consults is folded into that function value, so the model does not express time passing or expiry.
- The interpretation of the lifetime string (such as "1h") by `jsonwebtoken`: the model passes it to `sign` unchanged.
- JSON numbers are modelled as integers; nothing in the core reads a number.
- `process.env` and `process.exit`: replaced by the `Env` record and by `LoadConfig` returning None, `Boot` returning None and the constructor's precondition.
- `async`/`await`: `login` is sequential; its rejected promise is the `Failure` of `Returned()`.
- Inputs that are not strings (a JSON request body can carry numbers or objects): the parameters are typed as possibly undefined strings, as in the source.
- IssuedTokenVerifies: holds only under the hypothesis `SignedTokenVerifies` about the issued token, which the JWT library meets only while the configured lifetime has not run out (and not for a lifetime that is already past when signing); the model does not derive when that is.
- OtherRoleTokenRefused: holds only under the hypothesis `SignedTokenVerifies` about that token; a token the library refuses (expired, not yet valid, bad signature) is refused anyway, as VerifyToken's contract states.
- BACKEND/src/core/auth/adminAuth.controller.ts (HTTP status mapping), BACKEND/src/core/auth/adminAuth.routes.ts and BACKEND/src/index.ts (routing, middleware, environment loading, server start): HTTP glue and process startup are not part of this model.
