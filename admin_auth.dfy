/**
 * The administrator credential check and token gate of the back end
 * (BACKEND/src/core/auth/adminAuth.service.ts).
 *
 * There is one administrator, described by configuration: an email, a
 * bcrypt hash of the password, a JWT signing secret and a token lifetime.
 * `Login` runs a fixed chain of guards and, when all pass, signs the claim
 * set { email: adminEmail, role: "SUPER_ADMIN" }. `VerifyToken` accepts a
 * token only when the JWT library verifies it to an object payload whose
 * role is "SUPER_ADMIN".
 *
 * Both operations are pure. Each returns, beside its outcome, the list of
 * library calls it made, so that "the comparison is never invoked" can be
 * stated.
 */
module AdminAuth {
  import opened Wrappers
  import opened Jwt

  /** The one elevated role. */
  const SuperAdmin: string := "SUPER_ADMIN"

  /** Token lifetime used when JWT_EXPIRES_IN is unset or empty. */
  const DefaultExpiresIn: string := "1h"

  /** The environment variables read when the module loads. */
  datatype Env = Env(
    adminEmail: Option<string>,         // ADMIN_EMAIL
    adminPasswordHash: Option<string>,  // ADMIN_PASSWORD_HASH
    jwtSecret: Option<string>,          // JWT_SECRET
    jwtExpiresIn: Option<string>)       // JWT_EXPIRES_IN

  /** The configuration, fixed for the life of the process. */
  datatype Config = Config(
    adminEmail: string,
    adminPasswordHash: string,
    jwtSecret: string,
    jwtExpiresIn: string)
  {
    /** The three required values are all present and non-empty. */
    predicate Complete() {
      adminEmail != [] && adminPasswordHash != [] && jwtSecret != []
    }
  }

  /** JavaScript truthiness of a possibly undefined string: undefined and "" are falsy. */
  predicate Truthy(s: Option<string>) {
    s.Some? && s.value != []
  }

  /**
   * The module-level configuration guard. None stands for the process
   * exiting before the service is created.
   */
  function LoadConfig(env: Env): (r: Option<Config>)
    ensures r.Some? <==> Truthy(env.adminEmail) && Truthy(env.adminPasswordHash) && Truthy(env.jwtSecret)
    ensures r.Some? ==> r.value.Complete() && r.value.jwtExpiresIn != []
    ensures r.Some? ==>
      && r.value.adminEmail == env.adminEmail.value
      && r.value.adminPasswordHash == env.adminPasswordHash.value
      && r.value.jwtSecret == env.jwtSecret.value
    ensures r.Some? && Truthy(env.jwtExpiresIn) ==> r.value.jwtExpiresIn == env.jwtExpiresIn.value
    ensures r.Some? && !Truthy(env.jwtExpiresIn) ==> r.value.jwtExpiresIn == DefaultExpiresIn
  {
    var expiresIn := if Truthy(env.jwtExpiresIn) then env.jwtExpiresIn.value else DefaultExpiresIn;
    if Truthy(env.adminEmail) && Truthy(env.adminPasswordHash) && Truthy(env.jwtSecret) then
      Some(Config(env.adminEmail.value, env.adminPasswordHash.value, env.jwtSecret.value, expiresIn))
    else
      None
  }

  /** The claim set every issued token carries. */
  function AdminClaims(adminEmail: string): Claims {
    map["email" := JString(adminEmail), "role" := JString(SuperAdmin)]
  }

  /** `decoded.role === 'SUPER_ADMIN'` on an object payload. */
  predicate HasSuperAdminRole(claims: Claims) {
    "role" in claims && claims["role"] == JString(SuperAdmin)
  }

  /** A call into one of the foreign libraries, with its arguments. */
  datatype Call =
    | CompareCall(password: string, hash: string)
    | SignCall(payload: Claims, secret: string, expiresIn: string)
    | VerifyCall(token: string, secret: string)

  /** Why a login ended as it did; the log lines tell these apart. */
  datatype LoginOutcome =
    | MissingCredentials
    | UnknownEmail
    | WrongPassword
    | CompareThrew(error: string)
    | SignFailed(error: string)
    | Issued(token: string)
  {
    /**
     * What the caller of `login` observes: the value its promise resolves
     * to (a token or null), or the error it rejects with. Every rejection
     * reason looks the same from outside.
     */
    function Returned(): (r: Result<Option<string>, string>)
      ensures r == Success(None) <==> MissingCredentials? || UnknownEmail? || WrongPassword? || SignFailed?
      ensures (r.Success? && r.value.Some?) <==> Issued?
      ensures Issued? ==> r.value.value == token
      ensures r.Failure? <==> CompareThrew?
      ensures CompareThrew? ==> r.error == error
    {
      match this
      case Issued(t) => Success(Some(t))
      case CompareThrew(e) => Failure(e)
      case _ => Success(None)
    }
  }

  /** A login's outcome and the library calls it made, in order. */
  datatype LoginRun = LoginRun(outcome: LoginOutcome, calls: seq<Call>)

  /**
   * `AdminAuthService.login`. The bcrypt comparison is awaited outside the
   * try block, so an error it throws leaves `login` (CompareThrew); an
   * error from signing is caught and turns into null.
   */
  function Login(cfg: Config, prims: Primitives, email: Option<string>, password: Option<string>): (r: LoginRun)
    // guard 1: missing input; no library is called
    ensures !Truthy(email) || !Truthy(password) <==> r.outcome == MissingCredentials
    ensures r.outcome == MissingCredentials ==> r.calls == []
    // guard 2: another email; no library is called
    ensures r.outcome == UnknownEmail <==> Truthy(email) && Truthy(password) && email.value != cfg.adminEmail
    ensures r.outcome == UnknownEmail ==> r.calls == []
    // the password is compared only for the admin email, once, against the stored hash
    ensures r.calls != [] <==> Truthy(email) && Truthy(password) && email.value == cfg.adminEmail
    ensures r.calls != [] ==> r.calls[0] == CompareCall(password.value, cfg.adminPasswordHash)
    ensures forall i :: 0 < i < |r.calls| ==> r.calls[i].SignCall?
    // guard 3: the comparison threw or said no
    ensures r.outcome.CompareThrew? <==> r.calls != [] && prims.compare(password.value, cfg.adminPasswordHash).Failure?
    ensures r.outcome == WrongPassword <==> r.calls != [] && prims.compare(password.value, cfg.adminPasswordHash) == Success(false)
    ensures r.outcome.WrongPassword? || r.outcome.CompareThrew? ==>
      r.calls == [CompareCall(password.value, cfg.adminPasswordHash)]
    ensures r.outcome.CompareThrew? ==>
      && prims.compare(password.value, cfg.adminPasswordHash).Failure?
      && r.outcome.error == prims.compare(password.value, cfg.adminPasswordHash).error
    // a token: every guard passed, and it is what signing the admin claims returned
    ensures r.outcome.Issued? <==>
      && Truthy(email) && Truthy(password)
      && email.value == cfg.adminEmail
      && prims.compare(password.value, cfg.adminPasswordHash) == Success(true)
      && prims.sign(AdminClaims(cfg.adminEmail), cfg.jwtSecret, cfg.jwtExpiresIn).Success?
    ensures r.outcome.Issued? ==>
      r.outcome.token == prims.sign(AdminClaims(cfg.adminEmail), cfg.jwtSecret, cfg.jwtExpiresIn).value
    // signing is attempted only after a matching password, with exactly the admin claims
    ensures |r.calls| == 2 <==> r.outcome.Issued? || r.outcome.SignFailed?
    ensures |r.calls| == 2 ==> r.calls[1] == SignCall(AdminClaims(cfg.adminEmail), cfg.jwtSecret, cfg.jwtExpiresIn)
    ensures r.outcome.SignFailed? ==>
      && prims.sign(AdminClaims(cfg.adminEmail), cfg.jwtSecret, cfg.jwtExpiresIn).Failure?
      && r.outcome.error == prims.sign(AdminClaims(cfg.adminEmail), cfg.jwtSecret, cfg.jwtExpiresIn).error
  {
    if !Truthy(email) || !Truthy(password) then
      LoginRun(MissingCredentials, [])
    else if email.value != cfg.adminEmail then
      LoginRun(UnknownEmail, [])
    else
      var compare := CompareCall(password.value, cfg.adminPasswordHash);
      match prims.compare(password.value, cfg.adminPasswordHash)
      case Failure(e) => LoginRun(CompareThrew(e), [compare])
      case Success(false) => LoginRun(WrongPassword, [compare])
      case Success(true) =>
        var payload := AdminClaims(cfg.adminEmail);
        var calls := [compare, SignCall(payload, cfg.jwtSecret, cfg.jwtExpiresIn)];
        match prims.sign(payload, cfg.jwtSecret, cfg.jwtExpiresIn)
        case Failure(e) => LoginRun(SignFailed(e), calls)
        case Success(token) => LoginRun(Issued(token), calls)
  }

  /** Why a token was accepted or refused; the log lines tell these apart. */
  datatype TokenOutcome =
    | NoToken
    | VerifyThrew(error: string)
    | NotSuperAdmin(decoded: Decoded)
    | Accepted(decoded: Decoded)
  {
    /** What the caller of `verifyToken` observes: the decoded payload or null. */
    function Returned(): (r: Option<Decoded>)
      ensures r.Some? <==> Accepted?
      ensures Accepted? ==> r.value == decoded
    {
      if Accepted? then Some(decoded) else None
    }
  }

  /** A token check's outcome and the library calls it made. */
  datatype TokenRun = TokenRun(outcome: TokenOutcome, calls: seq<Call>)

  /** `AdminAuthService.verifyToken`. Every error from the library is caught. */
  function VerifyToken(cfg: Config, prims: Primitives, token: Option<string>): (r: TokenRun)
    // a missing or empty token is refused without calling the library
    ensures r.outcome == NoToken <==> !Truthy(token)
    ensures r.outcome == NoToken ==> r.calls == []
    ensures Truthy(token) ==> r.calls == [VerifyCall(token.value, cfg.jwtSecret)]
    // any verification error is refused
    ensures r.outcome.VerifyThrew? <==> Truthy(token) && prims.verify(token.value, cfg.jwtSecret).Failure?
    // accepted exactly when verification gives an object payload with the SUPER_ADMIN role
    ensures r.outcome.Accepted? <==>
      && Truthy(token)
      && prims.verify(token.value, cfg.jwtSecret).Success?
      && prims.verify(token.value, cfg.jwtSecret).value.Payload?
      && HasSuperAdminRole(prims.verify(token.value, cfg.jwtSecret).value.claims)
    // what is accepted is the library's decoded payload, unchanged
    ensures r.outcome.Accepted? ==> r.outcome.decoded == prims.verify(token.value, cfg.jwtSecret).value
    ensures r.outcome.Accepted? ==> r.outcome.decoded.Payload? && HasSuperAdminRole(r.outcome.decoded.claims)
    // a string payload, or an object without that role, is refused
    ensures r.outcome.NotSuperAdmin? ==>
      !(r.outcome.decoded.Payload? && HasSuperAdminRole(r.outcome.decoded.claims))
  {
    if !Truthy(token) then
      TokenRun(NoToken, [])
    else
      var calls := [VerifyCall(token.value, cfg.jwtSecret)];
      match prims.verify(token.value, cfg.jwtSecret)
      case Failure(e) => TokenRun(VerifyThrew(e), calls)
      case Success(decoded) =>
        if decoded.Payload? && HasSuperAdminRole(decoded.claims) then
          TokenRun(Accepted(decoded), calls)
        else
          TokenRun(NotSuperAdmin(decoded), calls)
  }

  /**
   * The service object. It holds no state of its own; the configuration
   * and the libraries are fixed when it is created, and it can only be
   * created from a complete configuration.
   */
  class AdminAuthService {
    const config: Config
    const prims: Primitives

    constructor (config: Config, prims: Primitives)
      requires config.Complete()
      ensures this.config == config && this.prims == prims
    {
      this.config := config;
      this.prims := prims;
    }
  }

  /**
   * Loading the module: read the configuration, stop when it is
   * incomplete (None), otherwise create the exported singleton.
   */
  method Boot(env: Env, prims: Primitives) returns (service: Option<AdminAuthService>)
    ensures service.Some? <==> Truthy(env.adminEmail) && Truthy(env.adminPasswordHash) && Truthy(env.jwtSecret)
    ensures service.Some? ==> service.value.config == LoadConfig(env).value && service.value.config.Complete()
    ensures service.Some? ==> service.value.prims == prims
  {
    match LoadConfig(env)
    case None =>
      service := None;
    case Some(cfg) =>
      var s := new AdminAuthService(cfg, prims);
      service := Some(s);
  }
}
