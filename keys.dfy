/**
 * Deterministic P-256 key pairs from a password: two PBKDF2 passes, the
 * seed taken as the private scalar, and the public and private JWKs the
 * browser imports.
 */
module KeyDerivation {
  import opened Wrappers
  import opened Json
  import opened Platform
  import opened BigEndian

  const DefaultIterations: nat := 100000

  /** The length of the HMAC key derivePbkdf2 asks PBKDF2 for. */
  const HmacKeyBits: nat := 256

  /** Octets per P-256 coordinate or scalar. */
  const CoordinateLength: nat := 32

  /** derivePbkdf2 takes its salt as text (encoded as UTF-8) or as raw octets. */
  datatype Salt = SaltText(text: string) | SaltOctets(octets: Bytes)

  /**
   * derivePbkdf2(value, salt, iterations): value is the PBKDF2 password, and
   * the exported result is the raw 256-bit HMAC key.
   */
  function DerivePbkdf2(p: Platform, value: string, salt: Salt, iterations: nat): (key: Bytes)
    ensures |key| * 8 == HmacKeyBits
  {
    var saltOctets := match salt
      case SaltText(t) => p.utf8(t)
      case SaltOctets(o) => o;
    p.pbkdf2(p.utf8(value), saltOctets, iterations)
  }

  /**
   * The private-key material: the salt argument is first stretched with the
   * page origin as its salt, and the result salts the password.
   */
  function Seed(p: Platform, password: string, salt: string, origin: string): (seed: Bytes)
    ensures |seed| == CoordinateLength
    ensures seed == p.pbkdf2(p.utf8(password), p.pbkdf2(p.utf8(salt), p.utf8(origin), 100000), 100000)
  {
    DerivePbkdf2(p, password, SaltOctets(DerivePbkdf2(p, salt, SaltText(origin), DefaultIterations)), DefaultIterations)
  }

  /** A key as WebCrypto holds it after importKey('jwk', jwk, ..., extractable, ...). */
  datatype CryptoKey = CryptoKey(jwk: seq<Field>, extractable: bool)

  datatype KeyPair = KeyPair(privateKey: CryptoKey, publicKey: CryptoKey)

  /**
   * base64url of a coordinate at the full 32-octet length. For a value of
   * at least 2^248 this is the very text `toBuffer()` writes.
   */
  function Coordinate(p: Platform, n: nat): (text: string)
    ensures Pow256(CoordinateLength - 1) <= n < Pow256(CoordinateLength) ==> text == p.base64url(Minimal(n))
  {
    assert Pow256(CoordinateLength - 1) <= n < Pow256(CoordinateLength) ==> Minimal(n) == Fixed(n, CoordinateLength) by {
      if Pow256(CoordinateLength - 1) <= n < Pow256(CoordinateLength) {
        MinimalIsFixed(n, CoordinateLength);
      }
    }
    p.base64url(Fixed(n, CoordinateLength))
  }

  /** The members the public and private JWK share, in the order of the object literal. */
  function JwkBase(p: Platform, x: nat, y: nat): (base: seq<Field>)
    ensures Keys(base) == ["kty", "x", "y", "crv"]
  {
    var base := [Field("kty", JStr("EC")), Field("x", JStr(Coordinate(p, x))),
                 Field("y", JStr(Coordinate(p, y))), Field("crv", JStr("P-256"))];
    assert base[1..][1..][1..] == [Field("crv", JStr("P-256"))];
    assert Keys(base[1..][1..][1..]) == ["crv"];
    assert Keys(base[1..][1..]) == ["y", "crv"];
    assert Keys(base[1..]) == ["x", "y", "crv"];
    base
  }

  lemma JwkBaseMembers(p: Platform, x: nat, y: nat)
    ensures Get(JwkBase(p, x, y), "kty") == Some(JStr("EC"))
    ensures Get(JwkBase(p, x, y), "x") == Some(JStr(Coordinate(p, x)))
    ensures Get(JwkBase(p, x, y), "y") == Some(JStr(Coordinate(p, y)))
    ensures Get(JwkBase(p, x, y), "crv") == Some(JStr("P-256"))
  {
    var base := JwkBase(p, x, y);
    assert base[1..][1..][1..] == [Field("crv", JStr("P-256"))];
  }

  /** The shared members leave room for key_ops, d and ext. */
  lemma BaseOmitsExtras(p: Platform, x: nat, y: nat)
    ensures "key_ops" !in Keys(JwkBase(p, x, y)) && "d" !in Keys(JwkBase(p, x, y)) && "ext" !in Keys(JwkBase(p, x, y))
  {
  }

  /** The private scalar and the public point derived from a password. */
  function DerivedScalar(p: Platform, password: string, salt: string, origin: string): (d: nat)
    ensures d == p.scalar(p.pbkdf2(p.utf8(password), p.pbkdf2(p.utf8(salt), p.utf8(origin), 100000), 100000))
  {
    p.scalar(Seed(p, password, salt, origin))
  }

  /** The public point is the one of the same key pair, so it is the point of the scalar d. */
  function DerivedPoint(p: Platform, password: string, salt: string, origin: string): (point: (nat, nat))
    ensures point == p.publicPoint(p.scalar(Seed(p, password, salt, origin)))
  {
    p.publicPoint(DerivedScalar(p, password, salt, origin))
  }

  /** The imported private JWK: the shared members, then key_ops ["sign"] and d. */
  function PrivateJwk(p: Platform, x: nat, y: nat, d: nat): (jwk: seq<Field>)
    ensures Keys(jwk) == ["kty", "x", "y", "crv", "key_ops", "d"]
    ensures Get(jwk, "key_ops") == Some(JArr([JStr("sign")]))
    ensures Get(jwk, "d") == Some(JStr(Coordinate(p, d)))
  {
    var base := JwkBase(p, x, y);
    var tail := [Field("key_ops", JArr([JStr("sign")])), Field("d", JStr(Coordinate(p, d)))];
    KeysAppend(base, tail);
    assert tail[1..] == [Field("d", JStr(Coordinate(p, d)))];
    GetAppend(base, tail, "key_ops");
    GetAppend(base, tail, "d");
    base + tail
  }

  /** The imported public JWK: the shared members, then key_ops ["verify"]. */
  function PublicJwk(p: Platform, x: nat, y: nat): (jwk: seq<Field>)
    ensures Keys(jwk) == ["kty", "x", "y", "crv", "key_ops"]
    ensures Get(jwk, "key_ops") == Some(JArr([JStr("verify")]))
  {
    var base := JwkBase(p, x, y);
    var tail := [Field("key_ops", JArr([JStr("verify")]))];
    KeysAppend(base, tail);
    GetAppend(base, tail, "key_ops");
    base + tail
  }

  /** The two JWKs agree on every member but key_ops and d. */
  lemma JwkPairMembers(p: Platform, x: nat, y: nat, d: nat)
    ensures forall k :: k != "key_ops" && k != "d" ==>
      Get(PrivateJwk(p, x, y, d), k) == Get(PublicJwk(p, x, y), k)
  {
    BaseOmitsExtras(p, x, y);
    ExtendedMembers(JwkBase(p, x, y), JArr([JStr("sign")]), JArr([JStr("verify")]), JStr(Coordinate(p, d)));
  }

  lemma ExtendedMembers(base: seq<Field>, signOps: JValue, verifyOps: JValue, d: JValue)
    requires "key_ops" !in Keys(base) && "d" !in Keys(base)
    ensures forall k :: k != "key_ops" && k != "d" ==>
      Get(base + [Field("key_ops", signOps), Field("d", d)], k) == Get(base + [Field("key_ops", verifyOps)], k)
  {
    var tail, other := [Field("key_ops", signOps), Field("d", d)], [Field("key_ops", verifyOps)];
    assert tail[1..] == [Field("d", d)];
    forall k | k != "key_ops" && k != "d"
      ensures Get(base + tail, k) == Get(base + other, k)
    {
      GetAppend(base, tail, k);
      GetAppend(base, other, k);
    }
  }

  /**
   * ecPairFromPassword: both keys carry kty "EC", crv "P-256" and the
   * coordinates of the point derived from the password; the private key
   * adds only d and key_ops ["sign"], the public key only key_ops ["verify"].
   */
  function EcPairFromPassword(p: Platform, password: string, salt: string, origin: string): (pair: KeyPair)
    ensures Keys(pair.privateKey.jwk) == Keys(pair.publicKey.jwk) + ["d"]
    ensures forall k :: k != "key_ops" && k != "d" ==>
      Get(pair.privateKey.jwk, k) == Get(pair.publicKey.jwk, k)
    ensures var (x, y) := DerivedPoint(p, password, salt, origin);
      pair.publicKey.jwk == PublicJwk(p, x, y)
    ensures Get(pair.privateKey.jwk, "d") == Some(JStr(Coordinate(p, DerivedScalar(p, password, salt, origin))))
    ensures Get(pair.privateKey.jwk, "key_ops") == Some(JArr([JStr("sign")]))
    ensures pair.privateKey.extractable && pair.publicKey.extractable
  {
    var d := DerivedScalar(p, password, salt, origin);
    var (x, y) := DerivedPoint(p, password, salt, origin);
    JwkPairMembers(p, x, y, d);
    KeyPair(CryptoKey(PrivateJwk(p, x, y, d), true), CryptoKey(PublicJwk(p, x, y), true))
  }

  /** The public key of a derived pair, as one value. */
  lemma PublicKeyImport(p: Platform, password: string, salt: string, origin: string)
    ensures var point := DerivedPoint(p, password, salt, origin);
      EcPairFromPassword(p, password, salt, origin).publicKey == CryptoKey(PublicJwk(p, point.0, point.1), true)
  {
  }

  /**
   * exportKey('jwk', key): the imported members (key_ops among them) and
   * `ext`, the extractable flag.
   */
  function ExportJwk(key: CryptoKey): (jwk: seq<Field>)
    ensures Keys(jwk) == Keys(key.jwk) + ["ext"]
    ensures forall k :: k != "ext" ==> Get(jwk, k) == Get(key.jwk, k)
    ensures "ext" !in Keys(key.jwk) ==> Get(jwk, "ext") == Some(JBool(key.extractable))
  {
    var tail := [Field("ext", JBool(key.extractable))];
    KeysAppend(key.jwk, tail);
    forall k {
      GetAppend(key.jwk, tail, k);
    }
    key.jwk + tail
  }
}
