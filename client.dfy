/**
 * The browser side of the two forms: the subject, the nonce, the claims of
 * a login and of a registration, and the tokens that carry them.
 */
module Client {
  import opened Wrappers
  import opened Json
  import opened Platform
  import opened KeyDerivation
  import opened Jws

  /** sha256Url(email.toLowerCase()): base64url of the SHA-256 of the lower-cased email. */
  function Subject(p: Platform, email: string): (sub: string)
    ensures DotFree(p) ==> '.' !in sub
  {
    p.base64url(p.sha256(p.utf8(p.lowerCase(email))))
  }

  /** The nonce text; `random` is what getRandomValues wrote into a Uint8Array(24). */
  function Nonce(p: Platform, random: Bytes): (nonce: string)
    ensures DotFree(p) ==> '.' !in nonce
  {
    p.base64url(random)
  }

  /** The key pair of a form: both forms pass the page origin as the salt. */
  function KeyPairFor(p: Platform, password: string, origin: string): (pair: KeyPair)
    ensures var (x, y) := DerivedPoint(p, password, origin, origin);
      pair.publicKey == CryptoKey(PublicJwk(p, x, y), true)
    ensures Get(pair.privateKey.jwk, "d") == Some(JStr(Coordinate(p, DerivedScalar(p, password, origin, origin))))
    ensures Keys(pair.privateKey.jwk) == Keys(pair.publicKey.jwk) + ["d"]
  {
    EcPairFromPassword(p, password, origin, origin)
  }

  /** Login claims: sub and nonce. */
  function LoginClaims(p: Platform, email: string, random: Bytes): (claims: seq<Field>)
    ensures DistinctKeys(claims)
    ensures Get(claims, "sub") == Some(JStr(Subject(p, email)))
    ensures Get(claims, "nonce") == Some(JStr(Nonce(p, random)))
    ensures "iat" !in Keys(claims)
  {
    [Field("sub", JStr(Subject(p, email))), Field("nonce", JStr(Nonce(p, random)))]
  }

  /** The `name` claim of a registration. */
  function Name(given: string, family: string): (name: JValue)
    ensures name.JObj? && Keys(name.fields) == ["given", "family"]
    ensures Get(name.fields, "given") == Some(JStr(given)) && Get(name.fields, "family") == Some(JStr(family))
  {
    var fields := [Field("given", JStr(given)), Field("family", JStr(family))];
    assert fields[1..] == [Field("family", JStr(family))];
    JObj(fields)
  }

  /** Registration claims: sub, name {given, family}, email and nonce. */
  function RegistrationClaims(p: Platform, email: string, given: string, family: string, random: Bytes): (claims: seq<Field>)
    ensures DistinctKeys(claims)
    ensures Get(claims, "sub") == Some(JStr(Subject(p, email)))
    ensures Get(claims, "name") == Some(Name(given, family))
    ensures Get(claims, "email") == Some(JStr(email))
    ensures Get(claims, "nonce") == Some(JStr(Nonce(p, random)))
    ensures "iat" !in Keys(claims)
  {
    var claims := [Field("sub", JStr(Subject(p, email))), Field("name", Name(given, family)),
                   Field("email", JStr(email)), Field("nonce", JStr(Nonce(p, random)))];
    assert claims[1..][1..][1..] == [Field("nonce", JStr(Nonce(p, random)))];
    assert Keys(claims[1..][1..][1..]) == ["nonce"];
    assert Keys(claims[1..][1..]) == ["email", "nonce"];
    assert Keys(claims[1..]) == ["name", "email", "nonce"];
    assert Keys(claims) == ["sub", "name", "email", "nonce"];
    claims
  }

  /**
   * The token the login form posts: the header of the password's public key
   * and the login claims with the clock's iat merged in.
   */
  function LoginToken(p: Platform, email: string, password: string, origin: string,
                      sign: (CryptoKey, Bytes) -> Bytes, nowMs: int, random: Bytes): (token: string)
    ensures DotFree(p) ==>
      var parts := Split(token, '.');
      && |parts| == 3
      && parts[0] == Segment(p, Header(KeyPairFor(p, password, origin).publicKey))
      && parts[1] == Segment(p, JObj(Claims(LoginClaims(p, email, random), nowMs)))
  {
    CreateEcJwt(p, LoginClaims(p, email, random), KeyPairFor(p, password, origin), sign, nowMs)
  }

  /**
   * The token the registration form posts: the header of the password's
   * public key and the registration claims with the clock's iat merged in.
   */
  function RegistrationToken(p: Platform, email: string, given: string, family: string, password: string,
                             origin: string, sign: (CryptoKey, Bytes) -> Bytes, nowMs: int, random: Bytes): (token: string)
    ensures DotFree(p) ==>
      var parts := Split(token, '.');
      && |parts| == 3
      && parts[0] == Segment(p, Header(KeyPairFor(p, password, origin).publicKey))
      && parts[1] == Segment(p, JObj(Claims(RegistrationClaims(p, email, given, family, random), nowMs)))
  {
    CreateEcJwt(p, RegistrationClaims(p, email, given, family, random), KeyPairFor(p, password, origin), sign, nowMs)
  }

  /**
   * Emails that lower-case alike name the same subject, and both forms
   * compute it the same way.
   */
  lemma SubjectIgnoresCase(p: Platform, e1: string, e2: string, given: string, family: string, r1: Bytes, r2: Bytes)
    requires p.lowerCase(e1) == p.lowerCase(e2)
    ensures Subject(p, e1) == Subject(p, e2)
    ensures Get(LoginClaims(p, e1, r1), "sub") == Get(RegistrationClaims(p, e2, given, family, r2), "sub")
  {
  }
}
