/**
 * validateAndRetrieve: the server verifies the token with the key embedded
 * in its own header, checks header and payload against a schema and turns
 * the embedded key into the fingerprint it stores and compares.
 */
module Retrieve {
  import opened Wrappers
  import opened Json
  import opened Schema

  /** Every way a registration or login request can fail. */
  datatype Error =
    | TokenRejected(reason: string) // the token library refused the token; its message is passed on
    | SchemaInvalid                 // the claims validator refused header or payload
    | JwkMissing                    // destructuring an absent `jwk` throws a TypeError; a verifier that imports the header key refuses such a token first
    | AlreadyRegistered             // thrown as 'User already registered'
    | InvalidCredentials            // thrown as 'Invalid username/password.'

  /** What the token library yields for a token it accepts. */
  datatype Token = Token(protectedHeader: JValue, payload: JValue)

  /**
   * Signature verification with the key found in the token's own header
   * (`jwtVerify` with `importJWK(header.jwk)`): the verdict for a request body.
   */
  type Verifier = string -> Result<Token, string>

  datatype Retrieved = Retrieved(payload: JValue, publicKey: string)

  /** The object handed to the validator: exactly payload, then header, taken from the token. */
  function Document(token: Token): (doc: JValue)
    ensures doc.JObj? && Keys(doc.fields) == ["payload", "header"]
    ensures Get(doc.fields, "header") == Some(token.protectedHeader)
    ensures Get(doc.fields, "payload") == Some(token.payload)
  {
    var fields := [Field("payload", token.payload), Field("header", token.protectedHeader)];
    assert fields[1..] == [Field("header", token.protectedHeader)];
    JObj(fields)
  }

  /**
   * The stored form of a public key: its two coordinates joined by a dot,
   * so the text before the first dot after x is x and the rest is y.
   */
  function Fingerprint(x: string, y: string): (fp: string)
    ensures |fp| == |x| + 1 + |y| && fp[|x|] == '.'
    ensures fp[..|x|] == x && fp[|x| + 1..] == y
  {
    x + "." + y
  }

  /**
   * A coordinate as string concatenation sees it: after validation it is a
   * string or absent, and an absent one is written "undefined".
   */
  function CoordinateText(v: Option<JValue>): (text: string)
    requires v.Some? ==> v.value.JStr?
    ensures v.Some? ==> text == v.value.s
    ensures v.None? ==> text == "undefined"
  {
    if v.Some? then v.value.s else "undefined"
  }

  function ValidateAndRetrieve(verify: Verifier, kind: Kind, body: string): (r: Result<Retrieved, Error>)
    ensures verify(body).Failure? ==> r == Failure(TokenRejected(verify(body).error))
    ensures verify(body).Success? && !SignedValid(kind, Document(verify(body).value)) ==> r == Failure(SchemaInvalid)
    ensures r.Success? ==> verify(body).Success? && SignedValid(kind, Document(verify(body).value))
    ensures r.Success? ==> r.value.payload == verify(body).value.payload && PayloadValid(kind, r.value.payload)
    ensures verify(body).Success? && SignedValid(kind, Document(verify(body).value)) ==>
      var header := verify(body).value.protectedHeader;
      && (Get(header.fields, "jwk").None? ==> r == Failure(JwkMissing))
      && (Get(header.fields, "jwk").Some? ==>
            var jwk := Get(header.fields, "jwk").value.fields;
            r == Success(Retrieved(verify(body).value.payload,
                                   Fingerprint(CoordinateText(Get(jwk, "x")), CoordinateText(Get(jwk, "y"))))))
  {
    match verify(body)
    case Failure(reason) => Failure(TokenRejected(reason))
    case Success(token) =>
      if !SignedValid(kind, Document(token)) then Failure(SchemaInvalid)
      else
        var jwk := Get(token.protectedHeader.fields, "jwk");
        if jwk.None? then Failure(JwkMissing)
        else
          var x := CoordinateText(Get(jwk.value.fields, "x"));
          var y := CoordinateText(Get(jwk.value.fields, "y"));
          Success(Retrieved(token.payload, Fingerprint(x, y)))
  }

  /**
   * For dot-free x coordinates (base64url text never holds a dot) the
   * fingerprint determines both coordinates.
   */
  lemma FingerprintInjective(x1: string, y1: string, x2: string, y2: string)
    requires '.' !in x1 && '.' !in x2
    ensures Fingerprint(x1, y1) == Fingerprint(x2, y2) <==> x1 == x2 && y1 == y2
  {
    var f1, f2 := Fingerprint(x1, y1), Fingerprint(x2, y2);
    if f1 == f2 {
      assert f1[|x1|] == '.';
      assert f2[|x2|] == '.';
      if |x1| < |x2| {
        assert false;
      } else if |x2| < |x1| {
        assert false;
      }
      assert x1 == f1[..|x1|] && x2 == f2[..|x2|];
      assert y1 == f1[|x1| + 1..] && y2 == f2[|x2| + 1..];
    }
  }

  /** Without the dot-free premise two keys can share a fingerprint. */
  lemma FingerprintNeedsDotFree()
    ensures Fingerprint("a.b", "c") == Fingerprint("a", "b.c")
  {
  }
}
