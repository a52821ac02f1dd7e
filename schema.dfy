/**
 * The two claim schemas the server compiles (registration and login), written
 * out by hand as predicates over parsed JSON. Both are wrapped by the same
 * envelope: an object with exactly the members `header` and `payload`, where
 * the header's `alg` and the members of its `jwk` are only checked when they
 * are present, because neither the header nor the key lists any as required.
 */
module Schema {
  import opened Wrappers
  import opened Json

  datatype Kind = RegisterSchema | LoginSchema

  /** `{const: c}` under `properties`: a present member must equal c. */
  predicate ConstIfPresent(fields: seq<Field>, key: string, c: JValue) {
    Get(fields, key).Some? ==> Get(fields, key).value == c
  }

  /** `{type: 'string'}` under `properties`: a present member must be a string. */
  predicate StringIfPresent(fields: seq<Field>, key: string) {
    Get(fields, key).Some? ==> Get(fields, key).value.JStr?
  }

  /** A member that is both required and of type string. */
  predicate RequiredString(fields: seq<Field>, key: string) {
    Get(fields, key).Some? && Get(fields, key).value.JStr?
  }

  /**
   * The `jwk` sub-schema: kty "EC", string x and y, crv "P-256". None of
   * them is required, so an object without any of them passes; a key of
   * another type or curve does not.
   */
  predicate JwkValid(jwk: JValue): (ok: bool)
    ensures (&& jwk.JObj? && "kty" !in Keys(jwk.fields) && "x" !in Keys(jwk.fields)
             && "y" !in Keys(jwk.fields) && "crv" !in Keys(jwk.fields)) ==> ok
    ensures jwk.JObj? && Get(jwk.fields, "kty").Some? && Get(jwk.fields, "kty").value != JStr("EC") ==> !ok
    ensures jwk.JObj? && Get(jwk.fields, "crv").Some? && Get(jwk.fields, "crv").value != JStr("P-256") ==> !ok
  {
    && jwk.JObj?
    && ConstIfPresent(jwk.fields, "kty", JStr("EC"))
    && StringIfPresent(jwk.fields, "x")
    && StringIfPresent(jwk.fields, "y")
    && ConstIfPresent(jwk.fields, "crv", JStr("P-256"))
  }

  /**
   * The header sub-schema: alg "ES256" and a valid jwk, each only when
   * present. A header with neither passes; any other algorithm is refused.
   */
  predicate HeaderValid(header: JValue): (ok: bool)
    ensures header.JObj? && "alg" !in Keys(header.fields) && "jwk" !in Keys(header.fields) ==> ok
    ensures header.JObj? && Get(header.fields, "alg").Some? && Get(header.fields, "alg").value != JStr("ES256") ==> !ok
    ensures ok ==> header.JObj? && (Get(header.fields, "jwk").Some? ==> Get(header.fields, "jwk").value.JObj?)
  {
    && header.JObj?
    && ConstIfPresent(header.fields, "alg", JStr("ES256"))
    && (Get(header.fields, "jwk").Some? ==> JwkValid(Get(header.fields, "jwk").value))
  }

  /** The registration `name`: an object in which given and family are required strings. */
  predicate NameValid(name: JValue): (ok: bool)
    ensures ok ==> name.JObj? && "given" in Keys(name.fields) && "family" in Keys(name.fields)
    ensures ok ==> |name.fields| >= 2
  {
    && name.JObj?
    && RequiredString(name.fields, "given")
    && RequiredString(name.fields, "family")
  }

  /** The registration payload: required string sub, email and nonce and a valid name. */
  predicate RegistrationPayloadValid(payload: JValue): (ok: bool)
    ensures ok ==> payload.JObj? && "sub" in Keys(payload.fields) && "name" in Keys(payload.fields)
                   && "email" in Keys(payload.fields) && "nonce" in Keys(payload.fields)
    ensures ok ==> NameValid(Get(payload.fields, "name").value)
  {
    && payload.JObj?
    && RequiredString(payload.fields, "sub")
    && Get(payload.fields, "name").Some? && NameValid(Get(payload.fields, "name").value)
    && RequiredString(payload.fields, "email")
    && RequiredString(payload.fields, "nonce")
  }

  /**
   * The login payload: required string sub and nonce and a number iat of at
   * least 0; a negative iat is refused.
   */
  predicate LoginPayloadValid(payload: JValue): (ok: bool)
    ensures ok ==> payload.JObj? && "sub" in Keys(payload.fields) && "iat" in Keys(payload.fields)
                   && "nonce" in Keys(payload.fields)
    ensures (&& payload.JObj? && Get(payload.fields, "iat").Some? && Get(payload.fields, "iat").value.JNum?
             && Get(payload.fields, "iat").value.n < 0.0) ==> !ok
  {
    && payload.JObj?
    && RequiredString(payload.fields, "sub")
    && Get(payload.fields, "iat").Some? && Get(payload.fields, "iat").value.JNum?
    && Get(payload.fields, "iat").value.n >= 0.0
    && RequiredString(payload.fields, "nonce")
  }

  predicate PayloadValid(kind: Kind, payload: JValue) {
    match kind
    case RegisterSchema => RegistrationPayloadValid(payload)
    case LoginSchema => LoginPayloadValid(payload)
  }

  /**
   * The compiled validator of one kind: the envelope requires header and
   * payload and admits no other member, so an object with distinct member
   * names passes only with exactly those two.
   */
  predicate SignedValid(kind: Kind, doc: JValue): (ok: bool)
    ensures ok ==> doc.JObj? && "header" in Keys(doc.fields) && "payload" in Keys(doc.fields)
    ensures ok && DistinctKeys(doc.fields) ==> |doc.fields| == 2
  {
    var ok :=
      && doc.JObj?
      && (forall k :: k in Keys(doc.fields) ==> k == "header" || k == "payload")
      && Get(doc.fields, "header").Some? && HeaderValid(Get(doc.fields, "header").value)
      && Get(doc.fields, "payload").Some? && PayloadValid(kind, Get(doc.fields, "payload").value);
    assert ok && DistinctKeys(doc.fields) ==> |doc.fields| == 2 by {
      if ok && DistinctKeys(doc.fields) {
        OnlyTwo(Keys(doc.fields), "header", "payload");
      }
    }
    ok
  }

  /** A list of distinct names drawn from {a, b} that holds both has exactly two entries. */
  lemma OnlyTwo(ks: seq<string>, a: string, b: string)
    requires Distinct(ks) && a != b && a in ks && b in ks
    requires forall k :: k in ks ==> k == a || k == b
    ensures |ks| == 2
  {
    DistinctCount(ks);
    assert (set k | k in ks) == {a, b};
  }

  /** Distinct names are as many as the entries that hold them. */
  lemma {:induction false} DistinctCount(ks: seq<string>)
    requires Distinct(ks)
    ensures |set k | k in ks| == |ks|
  {
    if ks != [] {
      assert Distinct(ks[1..]);
      DistinctCount(ks[1..]);
      assert (set k | k in ks) == {ks[0]} + (set k | k in ks[1..]);
      assert ks[0] !in ks[1..];
    }
  }
}
