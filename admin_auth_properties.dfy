/**
 * Properties that relate the service's operations to each other and to
 * the libraries' promises.
 */
module AdminAuthProperties {
  import opened Wrappers
  import opened Jwt
  import opened AdminAuth

  /**
   * One holder: with a complete configuration, an email can obtain a token
   * for some password exactly when it is the configured admin email, some
   * non-empty password matches the stored hash, and the admin claims can be
   * signed.
   */
  lemma OnlyAdminEmailCanLogIn(cfg: Config, prims: Primitives, email: string)
    requires cfg.Complete()
    ensures (exists password :: Login(cfg, prims, Some(email), Some(password)).outcome.Issued?)
        <==> && email == cfg.adminEmail
             && (exists password :: password != [] && prims.compare(password, cfg.adminPasswordHash) == Success(true))
             && prims.sign(AdminClaims(cfg.adminEmail), cfg.jwtSecret, cfg.jwtExpiresIn).Success?
  {
    if && email == cfg.adminEmail
       && (exists password :: password != [] && prims.compare(password, cfg.adminPasswordHash) == Success(true))
       && prims.sign(AdminClaims(cfg.adminEmail), cfg.jwtSecret, cfg.jwtExpiresIn).Success?
    {
      var password :| password != [] && prims.compare(password, cfg.adminPasswordHash) == Success(true);
      assert Login(cfg, prims, Some(email), Some(password)).outcome.Issued?;
    }
  }

  /**
   * Round trip: a token returned by `Login` is accepted by `VerifyToken`
   * under the same configuration, and its payload names the admin email and
   * the SUPER_ADMIN role, provided the library verifies that very token
   * (it does until the configured lifetime has run out).
   */
  lemma IssuedTokenVerifies(cfg: Config, prims: Primitives, email: Option<string>, password: Option<string>)
    requires SignedTokenVerifies(prims, AdminClaims(cfg.adminEmail), cfg.jwtSecret, cfg.jwtExpiresIn)
    requires Login(cfg, prims, email, password).outcome.Issued?
    ensures var v := VerifyToken(cfg, prims, Some(Login(cfg, prims, email, password).outcome.token)).outcome;
      && v.Accepted?
      && v.decoded.Payload?
      && "email" in v.decoded.claims
      && v.decoded.claims["email"] == JString(cfg.adminEmail)
      && HasSuperAdminRole(v.decoded.claims)
  {
  }

  /**
   * The role check is not bypassed by a valid signature: a token signed with
   * the service's own secret over a claim set whose role is anything other
   * than SUPER_ADMIN is refused, even when the library verifies that token.
   */
  lemma OtherRoleTokenRefused(cfg: Config, prims: Primitives, payload: Claims, expiresIn: string)
    requires SignedTokenVerifies(prims, payload, cfg.jwtSecret, expiresIn)
    requires "role" in payload && payload["role"] != JString(SuperAdmin)
    requires prims.sign(payload, cfg.jwtSecret, expiresIn).Success?
    ensures VerifyToken(cfg, prims, Some(prims.sign(payload, cfg.jwtSecret, expiresIn).value)).outcome.NotSuperAdmin?
  {
  }

  /** Library stand-ins for the scenario below: only "correct-pw" matches the hash. */
  function ScenarioPrimitives(): Primitives {
    Primitives(
      (password: string, hash: string) => Success(password == "correct-pw"),
      (payload: Claims, secret: string, expiresIn: string) => Success("header.payload.signature"),
      (token: string, secret: string) => Failure("invalid signature"))
  }

  /** A concrete scenario: the admin email with the right password, then three rejections. */
  lemma LoginScenario()
    ensures var cfg := Config("admin@example.com", "$2b$10$hash", "secret", DefaultExpiresIn);
      && Login(cfg, ScenarioPrimitives(), Some("admin@example.com"), Some("correct-pw")).outcome
           == Issued("header.payload.signature")
      && Login(cfg, ScenarioPrimitives(), Some("admin@example.com"), Some("wrong-pw")).outcome == WrongPassword
      && Login(cfg, ScenarioPrimitives(), Some("someone@else.com"), Some("correct-pw")).outcome == UnknownEmail
      && Login(cfg, ScenarioPrimitives(), Some(""), Some("correct-pw")).outcome == MissingCredentials
  {
  }
}
