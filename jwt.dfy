/**
 * The foreign cryptographic libraries the service relies on, seen only
 * through their interfaces: bcrypt's password comparison and the
 * `jsonwebtoken` package's sign and verify (JSON Web Tokens, RFC 7519).
 * Their internals are not modelled; each primitive is a function value the
 * service is given, so every property proved about the service holds for
 * every implementation of them.
 */
module Jwt {
  import opened Wrappers

  /** A JSON value, as found in a decoded token payload. */
  datatype Json =
    | JString(s: string)
    | JNumber(n: int)
    | JBool(b: bool)
    | JNull
    | JArray(items: seq<Json>)
    | JObject(members: map<string, Json>)

  /** The claim set of a token: a JSON object, member name to value. */
  type Claims = map<string, Json>

  /** What `jwt.verify` returns: a string payload, or an object payload. */
  datatype Decoded = Text(text: string) | Payload(claims: Claims)

  /**
   * The three library calls, each of which may throw (Failure carries the
   * error message):
   *   compare(password, hash)          bcrypt.compare
   *   sign(payload, secret, expiresIn) jwt.sign(payload, secret, { expiresIn })
   *   verify(token, secret)            jwt.verify(token, secret)
   * The clock that `verify` consults for the `exp` claim is part of the
   * function value, so a value of this type describes the libraries at one
   * moment.
   */
  datatype Primitives = Primitives(
    compare: (string, string) -> Result<bool, string>,
    sign: (Claims, string, string) -> Result<string, string>,
    verify: (string, string) -> Result<Decoded, string>)

  /** Every claim of `small` is present in `big` with the same value. */
  ghost predicate Extends(big: Claims, small: Claims) {
    forall k :: k in small ==> k in big && big[k] == small[k]
  }

  /**
   * The round trip for one signing: if signing `payload` with `secret` and
   * lifetime `expiresIn` returns a token, that token is non-empty and
   * verifying it with the same secret yields an object payload holding every
   * claim that was signed (the library adds registered claims such as `iat`
   * and `exp`, so the payload may hold more). The library does this only for
   * some tokens at some moments: not once the token's `exp` has passed, nor
   * before an `nbf` claim it carries. So this is stated per token, as a
   * hypothesis about the token at hand.
   */
  ghost predicate SignedTokenVerifies(prims: Primitives, payload: Claims, secret: string, expiresIn: string) {
    prims.sign(payload, secret, expiresIn).Success? ==>
      var token := prims.sign(payload, secret, expiresIn).value;
      && token != []
      && prims.verify(token, secret).Success?
      && prims.verify(token, secret).value.Payload?
      && Extends(prims.verify(token, secret).value.claims, payload)
  }

}
