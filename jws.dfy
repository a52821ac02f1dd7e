/**
 * createEcJWT: a JWS in the compact serialization of section 7.1 of
 * RFC 7515, signed with ES256 (section 3.4 of RFC 7518), whose protected
 * header carries the signer's own public key.
 */
module Jws {
  import opened Wrappers
  import opened Json
  import opened Platform
  import opened KeyDerivation

  /** `s.split(sep)`: the maximal separator-free pieces, empty ones included. */
  function Split(s: string, sep: char): (parts: seq<string>)
    ensures |parts| >= 1
    ensures forall i :: 0 <= i < |parts| ==> sep !in parts[i]
    ensures Join(parts, sep) == s
  {
    if s == [] then [""]
    else
      var rest := Split(s[1..], sep);
      if s[0] == sep then
        assert Join([""] + rest, sep) == [sep] + Join(rest, sep) by {
          assert ([""] + rest)[1..] == rest;
        }
        [""] + rest
      else
        var parts := [[s[0]] + rest[0]] + rest[1..];
        assert Join(parts, sep) == [s[0]] + Join(rest, sep) by {
          if |rest| > 1 {
            assert parts[1..] == rest[1..];
          }
        }
        assert [s[0]] + s[1..] == s;
        parts
  }

  /** The pieces put back together with the separator between them. */
  function Join(parts: seq<string>, sep: char): string
    requires |parts| >= 1
  {
    if |parts| == 1 then parts[0] else parts[0] + [sep] + Join(parts[1..], sep)
  }

  /** Text without a separator, followed by anything, extends the first piece. */
  lemma {:induction false} SplitPrefix(a: string, b: string, sep: char)
    requires sep !in a
    ensures Split(a + b, sep) == [a + Split(b, sep)[0]] + Split(b, sep)[1..]
  {
    if a != [] {
      assert (a + b)[1..] == a[1..] + b;
      SplitPrefix(a[1..], b, sep);
      assert [a[0]] + (a[1..] + Split(b, sep)[0]) == a + Split(b, sep)[0];
    } else {
      assert a + b == b;
      assert a + Split(b, sep)[0] == Split(b, sep)[0];
      assert Split(b, sep) == [Split(b, sep)[0]] + Split(b, sep)[1..];
    }
  }

  /** Splitting undoes joining separator-free pieces. */
  lemma {:induction false} SplitJoin(parts: seq<string>, sep: char)
    requires |parts| >= 1
    requires forall i :: 0 <= i < |parts| ==> sep !in parts[i]
    ensures Split(Join(parts, sep), sep) == parts
  {
    if |parts| == 1 {
      SplitPrefix(parts[0], "", sep);
      assert parts[0] + "" == parts[0];
    } else {
      var rest := Join(parts[1..], sep);
      SplitJoin(parts[1..], sep);
      assert parts[0] + [sep] + rest == parts[0] + ([sep] + rest);
      SplitPrefix(parts[0], [sep] + rest, sep);
      assert ([sep] + rest)[1..] == rest;
      assert parts[0] + "" == parts[0];
    }
  }

  /**
   * The protected header: alg "ES256", typ "JWT" and the exported public
   * key with key_ops and ext set to undefined, so JSON.stringify leaves them
   * out and every other member of the key comes through unchanged.
   */
  function Header(publicKey: CryptoKey): (header: JValue)
    ensures header.JObj? && Keys(header.fields) == ["alg", "typ", "jwk"]
    ensures Get(header.fields, "alg") == Some(JStr("ES256")) && Get(header.fields, "typ") == Some(JStr("JWT"))
    ensures Get(header.fields, "jwk").Some? && Get(header.fields, "jwk").value.JObj?
    ensures var jwk := Get(header.fields, "jwk").value.fields;
      && "key_ops" !in Keys(jwk) && "ext" !in Keys(jwk)
      && forall k :: k != "key_ops" && k != "ext" ==> Get(jwk, k) == Get(publicKey.jwk, k)
  {
    var jwk := Remove(Remove(ExportJwk(publicKey), "key_ops"), "ext");
    assert Get(jwk, "key_ops") == Get(Remove(ExportJwk(publicKey), "key_ops"), "key_ops") == None;
    var fields := [Field("alg", JStr("ES256")), Field("typ", JStr("JWT")), Field("jwk", JObj(jwk))];
    assert fields[1..][1..] == [Field("jwk", JObj(jwk))];
    assert Keys(fields[1..][1..]) == ["jwk"];
    JObj(fields)
  }

  /** `Math.floor(Date.now() / 1000)`: whole seconds of a millisecond clock, rounded down. */
  function IssuedAt(nowMs: int): (secs: int)
    ensures secs * 1000 <= nowMs < secs * 1000 + 1000
  {
    nowMs / 1000
  }

  /** A clock reading before 1970 gives a negative iat, and only such a reading does. */
  lemma IssuedAtSign(nowMs: int)
    ensures IssuedAt(nowMs) >= 0 <==> nowMs >= 0
    ensures (IssuedAt(nowMs) as real >= 0.0) <==> nowMs >= 0
  {
  }

  /** The signed claims `{iat: ..., ...payload}`: iat first, then the caller's other claims. */
  function Claims(payload: seq<Field>, nowMs: int): (claims: seq<Field>)
    ensures |claims| >= 1 && Keys(claims)[0] == "iat"
    ensures forall k :: k in Keys(claims) <==> k == "iat" || k in Keys(payload)
  {
    var base := [Field("iat", JNum(IssuedAt(nowMs) as real))];
    assert Keys(base) == ["iat"];
    Spread(base, payload)
  }

  /** One encoded part: base64url of the UTF-8 of the JSON text. */
  function Segment(p: Platform, v: JValue): (part: string)
    ensures DotFree(p) ==> '.' !in part
  {
    p.base64url(p.utf8(p.stringify(v)))
  }

  /** The JWS Signing Input: the two encoded parts joined by a dot. */
  function SigningInput(p: Platform, header: JValue, claims: seq<Field>): (input: string)
    ensures DotFree(p) ==> Split(input, '.') == [Segment(p, header), Segment(p, JObj(claims))]
  {
    var h, c := Segment(p, header), Segment(p, JObj(claims));
    assert Join([h, c], '.') == h + "." + c by {
      assert [h, c][1..] == [c];
    }
    assert DotFree(p) ==> Split(h + "." + c, '.') == [h, c] by {
      if DotFree(p) {
        SplitJoin([h, c], '.');
      }
    }
    h + "." + c
  }

  /**
   * createEcJWT. `sign` is the ECDSA P-256/SHA-256 signer of this one call
   * (the signature is randomised, so it is an argument and not a platform
   * function); `nowMs` is Date.now().
   *
   * With dot-free base64url text the token splits into exactly three parts:
   * the encoded header, the encoded claims and the encoded signature, which
   * was computed with the private key over the first two parts joined by a dot.
   */
  function CreateEcJwt(p: Platform, payload: seq<Field>, pair: KeyPair,
                       sign: (CryptoKey, Bytes) -> Bytes, nowMs: int): (token: string)
    ensures DotFree(p) ==>
      var parts := Split(token, '.');
      && |parts| == 3
      && parts[0] == Segment(p, Header(pair.publicKey))
      && parts[1] == Segment(p, JObj(Claims(payload, nowMs)))
      && parts[2] == p.base64url(sign(pair.privateKey, p.utf8(parts[0] + "." + parts[1])))
  {
    var h, c := Segment(p, Header(pair.publicKey)), Segment(p, JObj(Claims(payload, nowMs)));
    var start := SigningInput(p, Header(pair.publicKey), Claims(payload, nowMs));
    var s := p.base64url(sign(pair.privateKey, p.utf8(start)));
    var token := start + "." + s;
    assert DotFree(p) ==> Split(token, '.') == [h, c, s] by {
      if DotFree(p) {
        SplitThree(h, c, s);
      }
    }
    token
  }

  /** Three dot-free parts joined by dots split back into those parts. */
  lemma SplitThree(h: string, c: string, s: string)
    requires '.' !in h && '.' !in c && '.' !in s
    ensures Split(h + "." + c + "." + s, '.') == [h, c, s]
  {
    var parts := [h, c, s];
    assert parts[1..] == [c, s] && parts[1..][1..] == [s];
    assert Join([c, s], '.') == c + "." + s;
    assert Join(parts, '.') == h + "." + (c + "." + s);
    assert h + "." + (c + "." + s) == h + "." + c + "." + s;
    SplitJoin(parts, '.');
  }

  /**
   * The header of a key pair derived from a password carries alg "ES256",
   * typ "JWT" and exactly the shared JWK members kty, x, y and crv.
   */
  lemma HeaderContents(p: Platform, password: string, salt: string, origin: string)
    ensures var point := DerivedPoint(p, password, salt, origin);
      Header(EcPairFromPassword(p, password, salt, origin).publicKey) ==
      JObj([Field("alg", JStr("ES256")), Field("typ", JStr("JWT")), Field("jwk", JObj(JwkBase(p, point.0, point.1)))])
  {
    var point := DerivedPoint(p, password, salt, origin);
    var base := JwkBase(p, point.0, point.1);
    PublicKeyImport(p, password, salt, origin);
    BaseOmitsExtras(p, point.0, point.1);
    HeaderOfImportedKey(CryptoKey(PublicJwk(p, point.0, point.1), true), base, JArr([JStr("verify")]));
  }

  /** The header of any extractable key imported from base plus key_ops. */
  lemma HeaderOfImportedKey(key: CryptoKey, base: seq<Field>, ops: JValue)
    requires key.jwk == base + [Field("key_ops", ops)] && key.extractable
    requires "key_ops" !in Keys(base) && "ext" !in Keys(base)
    ensures Header(key) == JObj([Field("alg", JStr("ES256")), Field("typ", JStr("JWT")), Field("jwk", JObj(base))])
  {
    var exported := ExportJwk(key);
    assert exported == base + [Field("key_ops", ops), Field("ext", JBool(true))];
    ClearedMembers(base, ops, JBool(true));
    assert Remove(Remove(exported, "key_ops"), "ext") == base;
  }

  /** Clearing key_ops and ext from an export leaves the members before them. */
  lemma ClearedMembers(base: seq<Field>, ops: JValue, ext: JValue)
    requires "key_ops" !in Keys(base) && "ext" !in Keys(base)
    ensures Remove(Remove(base + [Field("key_ops", ops), Field("ext", ext)], "key_ops"), "ext") == base
  {
    var tail := [Field("key_ops", ops), Field("ext", ext)];
    RemoveAppend(base, tail, "key_ops");
    assert tail[1..] == [Field("ext", ext)];
    assert Remove(tail, "key_ops") == [Field("ext", ext)];
    RemoveAppend(base, [Field("ext", ext)], "ext");
    assert base + [] == base;
  }

  /** One member of the merged claims: the caller's, else the clock's iat, else absent. */
  lemma ClaimsGet(payload: seq<Field>, nowMs: int, k: string)
    requires DistinctKeys(payload)
    ensures Get(Claims(payload, nowMs), k) ==
      if k in Keys(payload) then Get(payload, k)
      else if k == "iat" then Some(JNum(IssuedAt(nowMs) as real))
      else None
  {
    SpreadGet([Field("iat", JNum(IssuedAt(nowMs) as real))], payload, k);
  }

  /**
   * The claim merge: iat is the caller's iat when the payload has one and
   * the clock's whole seconds otherwise; every other caller claim is kept
   * as it was, and no claim name is doubled.
   */
  lemma ClaimsMerge(payload: seq<Field>, nowMs: int)
    requires DistinctKeys(payload)
    ensures Get(Claims(payload, nowMs), "iat") ==
      if "iat" in Keys(payload) then Get(payload, "iat") else Some(JNum(IssuedAt(nowMs) as real))
    ensures forall k :: k != "iat" ==> Get(Claims(payload, nowMs), k) == Get(payload, k)
    ensures DistinctKeys(Claims(payload, nowMs))
  {
    var base := [Field("iat", JNum(IssuedAt(nowMs) as real))];
    assert Keys(base) == ["iat"];
    forall k {
      ClaimsGet(payload, nowMs, k);
    }
  }
}
