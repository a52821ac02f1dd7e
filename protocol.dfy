/**
 * The two halves together: what the browser builds is what the server
 * accepts, and registering then logging in with the same password and
 * origin finds the registered user.
 */
module Protocol {
  import opened Wrappers
  import opened Json
  import opened Platform
  import opened KeyDerivation
  import opened Jws
  import opened Client
  import opened Schema
  import opened Retrieve
  import opened Registry

  /** The fingerprint the server stores for the key a password derives at an origin. */
  function KeyFingerprint(p: Platform, password: string, origin: string): string {
    var point := DerivedPoint(p, password, origin, origin);
    Fingerprint(Coordinate(p, point.0), Coordinate(p, point.1))
  }

  /** What the token library yields for a client token when it decodes it faithfully. */
  function ClientToken(p: Platform, password: string, origin: string, claims: seq<Field>, nowMs: int): Token {
    Token(Header(KeyPairFor(p, password, origin).publicKey), JObj(Claims(claims, nowMs)))
  }

  /** The header a client builds passes the header schema, and its jwk is the shared JWK. */
  lemma ClientHeaderValid(p: Platform, password: string, origin: string)
    ensures HeaderValid(Header(KeyPairFor(p, password, origin).publicKey))
    ensures var point := DerivedPoint(p, password, origin, origin);
      Get(Header(KeyPairFor(p, password, origin).publicKey).fields, "jwk") == Some(JObj(JwkBase(p, point.0, point.1)))
  {
    var point := DerivedPoint(p, password, origin, origin);
    HeaderContents(p, password, origin, origin);
    JwkBaseMembers(p, point.0, point.1);
    HeaderShapeValid(JwkBase(p, point.0, point.1));
  }

  /** The header shape createEcJWT writes is valid around any JWK the jwk sub-schema accepts. */
  lemma HeaderShapeValid(jwk: seq<Field>)
    requires JwkValid(JObj(jwk))
    ensures var header := JObj([Field("alg", JStr("ES256")), Field("typ", JStr("JWT")), Field("jwk", JObj(jwk))]);
      HeaderValid(header) && Get(header.fields, "jwk") == Some(JObj(jwk))
  {
    var fields := [Field("alg", JStr("ES256")), Field("typ", JStr("JWT")), Field("jwk", JObj(jwk))];
    assert fields[1..][1..] == [Field("jwk", JObj(jwk))];
    assert Get(fields, "jwk") == Some(JObj(jwk));
    assert Get(fields, "alg") == Some(JStr("ES256"));
  }

  /** Around a valid header the envelope is valid exactly when the payload is. */
  lemma EnvelopeValid(kind: Kind, t: Token)
    requires HeaderValid(t.protectedHeader)
    ensures SignedValid(kind, Document(t)) <==> PayloadValid(kind, t.payload)
  {
  }

  /**
   * A login token's header and claims pass the login schema exactly when
   * the clock is not before 1970, since iat must not be negative.
   */
  lemma LoginDocumentValid(p: Platform, email: string, password: string, origin: string, nowMs: int, random: Bytes)
    ensures SignedValid(LoginSchema, Document(ClientToken(p, password, origin, LoginClaims(p, email, random), nowMs)))
            <==> nowMs >= 0
  {
    var claims := LoginClaims(p, email, random);
    ClientHeaderValid(p, password, origin);
    EnvelopeValid(LoginSchema, ClientToken(p, password, origin, claims, nowMs));
    LoginClaimsValid(claims, nowMs);
  }

  /** Claims without their own iat get the clock's, which the login schema accepts from 1970 on. */
  lemma LoginClaimsValid(claims: seq<Field>, nowMs: int)
    requires DistinctKeys(claims) && "iat" !in Keys(claims)
    requires RequiredString(claims, "sub") && RequiredString(claims, "nonce")
    ensures LoginPayloadValid(JObj(Claims(claims, nowMs))) <==> nowMs >= 0
  {
    ClaimsGet(claims, nowMs, "sub");
    ClaimsGet(claims, nowMs, "nonce");
    ClaimsGet(claims, nowMs, "iat");
    IssuedAtSign(nowMs);
  }

  /** A registration token's header and claims always pass the registration schema. */
  lemma RegistrationDocumentValid(p: Platform, email: string, given: string, family: string,
                                  password: string, origin: string, nowMs: int, random: Bytes)
    ensures SignedValid(RegisterSchema,
      Document(ClientToken(p, password, origin, RegistrationClaims(p, email, given, family, random), nowMs)))
  {
    var claims := RegistrationClaims(p, email, given, family, random);
    ClientHeaderValid(p, password, origin);
    EnvelopeValid(RegisterSchema, ClientToken(p, password, origin, claims, nowMs));
    NameIsValid(given, family);
    RegistrationClaimsValid(claims, nowMs);
  }

  /** Claims that pass the registration schema still pass it after the clock's iat is merged in. */
  lemma RegistrationClaimsValid(claims: seq<Field>, nowMs: int)
    requires DistinctKeys(claims) && RegistrationPayloadValid(JObj(claims))
    ensures RegistrationPayloadValid(JObj(Claims(claims, nowMs)))
  {
    ClaimsGet(claims, nowMs, "sub");
    ClaimsGet(claims, nowMs, "name");
    ClaimsGet(claims, nowMs, "email");
    ClaimsGet(claims, nowMs, "nonce");
  }

  /** The name object a registration builds passes the name sub-schema. */
  lemma NameIsValid(given: string, family: string)
    ensures NameValid(Name(given, family))
  {
    var name := [Field("given", JStr(given)), Field("family", JStr(family))];
    assert name[1..] == [Field("family", JStr(family))];
  }

  /** The server retrieves the claims and the fingerprint of the derived key from a client token. */
  lemma RetrieveClientToken(verify: Verifier, kind: Kind, body: string, p: Platform,
                            password: string, origin: string, claims: seq<Field>, nowMs: int)
    requires verify(body) == Success(ClientToken(p, password, origin, claims, nowMs))
    requires SignedValid(kind, Document(ClientToken(p, password, origin, claims, nowMs)))
    ensures ValidateAndRetrieve(verify, kind, body) ==
            Success(Retrieved(JObj(Claims(claims, nowMs)), KeyFingerprint(p, password, origin)))
  {
    var point := DerivedPoint(p, password, origin, origin);
    ClientHeaderValid(p, password, origin);
    JwkBaseMembers(p, point.0, point.1);
  }

  /**
   * Registering and then logging in with the same email, password and
   * origin: the registration appends the user with the derived key's
   * fingerprint, and the login returns that user.
   */
  lemma RegisterThenLogin(p: Platform, verify: Verifier, users: seq<User>,
                          email: string, given: string, family: string, password: string, origin: string,
                          sign: (CryptoKey, Bytes) -> Bytes,
                          regNow: int, regRandom: Bytes, loginNow: int, loginRandom: Bytes)
    requires IdsDistinct(users) && !HasId(users, Subject(p, email))
    requires verify(RegistrationToken(p, email, given, family, password, origin, sign, regNow, regRandom)) ==
             Success(ClientToken(p, password, origin, RegistrationClaims(p, email, given, family, regRandom), regNow))
    requires verify(LoginToken(p, email, password, origin, sign, loginNow, loginRandom)) ==
             Success(ClientToken(p, password, origin, LoginClaims(p, email, loginRandom), loginNow))
    requires loginNow >= 0
    ensures var u := User(Subject(p, email), Name(given, family), email, KeyFingerprint(p, password, origin));
      var reg := RegisterOutcome(users,
        ValidateAndRetrieve(verify, RegisterSchema, RegistrationToken(p, email, given, family, password, origin, sign, regNow, regRandom)));
      && reg == (users + [u], Success(u))
      && LoginOutcome(reg.0,
           ValidateAndRetrieve(verify, LoginSchema, LoginToken(p, email, password, origin, sign, loginNow, loginRandom)))
         == Success(u)
  {
    var regClaims := RegistrationClaims(p, email, given, family, regRandom);
    var loginClaims := LoginClaims(p, email, loginRandom);
    var regBody := RegistrationToken(p, email, given, family, password, origin, sign, regNow, regRandom);
    var loginBody := LoginToken(p, email, password, origin, sign, loginNow, loginRandom);
    var fp := KeyFingerprint(p, password, origin);
    RegistrationDocumentValid(p, email, given, family, password, origin, regNow, regRandom);
    RetrieveClientToken(verify, RegisterSchema, regBody, p, password, origin, regClaims, regNow);
    LoginDocumentValid(p, email, password, origin, loginNow, loginRandom);
    RetrieveClientToken(verify, LoginSchema, loginBody, p, password, origin, loginClaims, loginNow);
    ClaimsMerge(regClaims, regNow);
    ClaimsMerge(loginClaims, loginNow);
    var u := User(Subject(p, email), Name(given, family), email, fp);
    assert NewUser(Retrieved(JObj(Claims(regClaims, regNow)), fp)) == u;
    FirstKeyWins(users, u, u);
  }

  /**
   * A login whose password derives a key with another fingerprint than the
   * registered one fails with the same error as an unknown subject.
   */
  lemma LoginWithOtherKeyFails(p: Platform, verify: Verifier, users: seq<User>, i: nat,
                               email: string, password: string, origin: string,
                               sign: (CryptoKey, Bytes) -> Bytes, nowMs: int, random: Bytes)
    requires IdsDistinct(users) && i < |users| && users[i].id == Subject(p, email)
    requires users[i].publicKey != KeyFingerprint(p, password, origin)
    requires verify(LoginToken(p, email, password, origin, sign, nowMs, random)) ==
             Success(ClientToken(p, password, origin, LoginClaims(p, email, random), nowMs))
    requires nowMs >= 0
    ensures LoginOutcome(users, ValidateAndRetrieve(verify, LoginSchema, LoginToken(p, email, password, origin, sign, nowMs, random)))
            == Failure(InvalidCredentials)
  {
    var claims := LoginClaims(p, email, random);
    LoginDocumentValid(p, email, password, origin, nowMs, random);
    RetrieveClientToken(verify, LoginSchema, LoginToken(p, email, password, origin, sign, nowMs, random),
                        p, password, origin, claims, nowMs);
    ClaimsMerge(claims, nowMs);
  }
}
