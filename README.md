# Password-derived key authentication, modelled in Dafny

The system is a demonstration of passwordless-on-the-wire login. The browser
turns a password into a P-256 key pair:

- It runs PBKDF2 twice. The page origin is first stretched with itself as salt.
- The result salts the password, and the derived octets are the private scalar.

The browser then signs a small JWT with that key and puts the public key into
the token's protected header. The server verifies the token with the key the
token carries. It checks header and payload against a schema and stores the
key as the fingerprint `x + "." + y`:

- On registration it stores the fingerprint under a subject, the base64url
  SHA-256 of the lower-cased email.
- On login it looks up the pair (subject, fingerprint).

The server never holds a password.

The model has these modules:

- `Json`: JSON values as JavaScript holds them. Objects are member sequences
  in insertion order. JSON.stringify writes that order for member names that
  are not array indices, and no member name in this system is one. It covers
  property read, property assignment, object spread, and clearing a member
  with `undefined`.
- `Schema`: the registration and login schemas the server compiles, written
  as predicates.
- `Retrieve`: `validateAndRetrieve` and the key fingerprint.
- `Registry`: the user list, and what the two handlers do to it, as values.
- `Api`: the server process as a class. `users` is a field. The
  `users.some` and `users.find` scans are loops, and the two POST handlers
  are methods, each proved equal to its value-level counterpart in `Registry`.
- `Platform`: the primitives the browser calls, as opaque total functions:
  UTF-8, PBKDF2-HMAC-SHA-256, the P-256 scalar and point, SHA-256, base64url
  (RFC 4648 section 5), JSON.stringify and lower-casing.
- `BigEndian`: big-endian octet strings of integers, in the minimal form that
  `bn.js` `toBuffer()` writes and in the fixed-length form.
- `KeyDerivation`: `derivePbkdf2` and `ecPairFromPassword`.
- `Jws`: `createEcJWT`, a JWS in the compact serialization of section 7.1
  of RFC 7515 with ES256 (section 3.4 of RFC 7518). It also models
  `String.prototype.split` to read a token back.
- `Client`: `sha256Url` of the email, the nonce, and the claims and tokens
  of the two forms.
- `Protocol`: the two halves together. A registration token the browser
  builds always passes the server's schema, and a login token passes it
  exactly when the browser's clock reads 1970 or later. Registering and then logging in with the same email,
  password and origin returns the registered user. A different password
  fails like an unknown subject.

The model keeps these details of the code's behaviour:

- A rejected token does not produce the single "invalid credentials" answer.
  The token library's own message is passed on (`TokenRejected`), and so is
  the schema failure (`SchemaInvalid`). Only a lookup miss after a valid
  token gives `InvalidCredentials`.
- Both handlers return the whole stored user, fingerprint included.
- The `jwk` members and `alg` are checked only when present. The schemas
  require only `header` and `payload` at the top and the payload claims
  below it. The key-import callback at packages/server/index.ts:100 already
  refuses a header without `jwk` or without usable `x` and `y`, so such a
  token ends as `TokenRejected`. The verifier is a parameter of the model,
  and for a verifier that let such a header through `validateAndRetrieve`
  would go on to `JwkMissing` (a missing `jwk`) or to the fingerprint text
  `undefined.…` (a missing `x`); the model keeps those two paths.
- The scalar is whatever the elliptic-curve library makes of the 32 derived
  octets, modelled as `Platform.scalar`. No out-of-range seed is rejected or
  re-derived.
- Nothing checks nonces or `iat` for replay. The login schema only demands
  `iat >= 0`.

## Model

| member | source | states |
|---|---|---|
| Json.Spread | packages/front/src/App.tsx:109 | `{...}` spread: the target's member names stay first and in order; the result has exactly the union of the names; distinct names stay distinct |
| Json.SpreadGet | packages/front/src/App.tsx:109 | after a spread, a member the source object has takes the source's value; every other member keeps the target's value |
| Json.Remove | packages/front/src/App.tsx:102-103 | setting a member to `undefined` drops it from the serialized object, leaves every other member's value alone, and changes nothing when the member is absent |
| Json.Get | packages/front/src/App.tsx:109 | property read: a member is read exactly when the object has that name, and the value read is one of the object's members under that name |
| Json.Put | packages/front/src/App.tsx:109 | property assignment: an existing name keeps its place and a new name goes last; the assigned name reads back the new value and every other name reads as before |
| Schema.SignedValid | packages/server/index.ts:40-65 | an accepted document is an object holding header and payload; with distinct names it holds nothing else |
| Schema.HeaderValid | packages/server/index.ts:44-58 | an object without alg and jwk passes; an alg other than ES256 fails; an accepted header is an object whose jwk, if present, is an object |
| Schema.JwkValid | packages/server/index.ts:49-57 | an object with none of kty, x, y, crv passes; a kty other than EC fails; a crv other than P-256 fails |
| Schema.RegistrationPayloadValid | packages/server/index.ts:67-83 | accepted claims are an object holding sub, name, email and nonce, and the name passes the name schema |
| Schema.NameValid | packages/server/index.ts:71-78 | an accepted name is an object holding given and family |
| Schema.LoginPayloadValid | packages/server/index.ts:84-92 | accepted claims are an object holding sub, iat and nonce; a negative numeric iat fails |
| Retrieve.ValidateAndRetrieve | packages/server/index.ts:98-118 | a token the library refuses fails with the library's reason; a schema failure fails with SchemaInvalid; success only for a verified token whose header and payload pass the schema, and then it returns the token's own payload, which satisfies the payload schema; for a verified token that passes the schema, a header without jwk gives JwkMissing and otherwise the result is the payload with the fingerprint of the jwk's x and y |
| Retrieve.Document | packages/server/index.ts:103-106 | the object handed to the validator holds exactly payload and header, which are the token's payload and protected header |
| Retrieve.Fingerprint | packages/server/index.ts:112 | the fingerprint is x, one dot, then y: its length is theirs plus one, and x and y are its prefix and suffix around that dot |
| Retrieve.CoordinateText | packages/server/index.ts:110-112 | a present coordinate is its own text, and an absent one is written "undefined" as string concatenation does |
| Retrieve.FingerprintInjective | packages/server/index.ts:110-112 | when the x coordinate holds no dot, two fingerprints are equal exactly when both coordinate pairs are equal |
| Retrieve.FingerprintNeedsDotFree | packages/server/index.ts:112 | without the dot-free premise two different coordinate pairs share one fingerprint |
| Registry.Find | packages/server/index.ts:162 | a user is found exactly when some registered user has the subject and the key, and the one found is such a user from the list |
| Registry.HasId | packages/server/index.ts:138 | true exactly when some registered user has the subject |
| Registry.LoginSubject | packages/server/index.ts:161-162 | the subject a login looks up is the string the validated payload holds as sub |
| Registry.NewUser | packages/server/index.ts:141-146 | the stored user's id, name and email are the claims' sub, name and email, the name passes the name schema, and the public key is the token's fingerprint |
| Registry.RegisterOutcome | packages/server/index.ts:135-157 | a validation failure is passed on with the registry unchanged; success exactly when the subject is not yet registered, and then the registry gains exactly the new user at the end; otherwise AlreadyRegistered with the registry unchanged; no subject is ever registered twice |
| Registry.LoginOutcome | packages/server/index.ts:159-176 | a validation failure is passed on; success exactly when a registered user has the token's subject and fingerprint, and the user returned is such a user; otherwise InvalidCredentials |
| Registry.FindUnique | packages/server/index.ts:162 | in a registry without duplicate subjects, any user matching subject and key is the one the lookup returns |
| Registry.FirstKeyWins | packages/server/index.ts:138-147 | once a subject is registered a second registration of it is refused whatever its key, the first key logs in, and any other key does not |
| Registry.LoginFailureIndistinct | packages/server/index.ts:162-165 | a known subject with a wrong key and an unknown subject both find nobody, so a login does not reveal which subjects exist |
| Api.Server.constructor | packages/server/index.ts:130 | the server starts with no users, which satisfies the registry invariant |
| Api.Server.AnyHasId | packages/server/index.ts:138 | the scan answers true exactly when some registered user has the subject |
| Api.Server.FindMatching | packages/server/index.ts:162 | the scan returns the first user with the subject and the key, the same answer as the lookup specification |
| Api.Server.Register | packages/server/index.ts:135-157 | the new user list and the response are those of RegisterOutcome for the validated token, and the no-duplicate-subject invariant is kept |
| Api.Server.Login | packages/server/index.ts:159-176 | the response is that of LoginOutcome for the validated token, and the user list is not written |
| BigEndian.Minimal | packages/front/src/App.tsx:57-58 | the shortest big-endian form has at least one octet and denotes the number |
| BigEndian.Fixed | packages/front/src/App.tsx:57-58 | the fixed-length big-endian form has exactly the requested length |
| BigEndian.FixedValue | packages/front/src/App.tsx:57-58 | a number below 256^len written at length len reads back as that number |
| BigEndian.ValueFixed | packages/front/src/App.tsx:57-58 | every octet string is the fixed-length form of the number it denotes at its own length |
| BigEndian.MinimalLength | packages/front/src/App.tsx:57-58 | the shortest form of a number below 256^k has at most k octets |
| BigEndian.MinimalIsFixed | packages/front/src/App.tsx:57-58 | for a number with exactly k significant octets the shortest form is the fixed form of length k |
| BigEndian.ShortCoordinate | packages/front/src/App.tsx:57-58 | as written: a coordinate below 2^248 serializes to fewer than 32 octets |
| BigEndian.FullLengthCoordinate | packages/front/src/App.tsx:57-58 | corrected: every P-256 coordinate serializes to exactly 32 octets that read back as the coordinate |
| KeyDerivation.DerivePbkdf2 | packages/front/src/App.tsx:16-41 | the exported key has the 256 bits asked of deriveKey; this length is the platform's PBKDF2 result type, not a proved result |
| KeyDerivation.Seed | packages/front/src/App.tsx:45 | the seed is PBKDF2 of the password salted with PBKDF2 of the salt argument salted with the origin, 100000 iterations each, texts UTF-8 encoded; its 32-octet length is the platform's PBKDF2 result type, not a proved result |
| KeyDerivation.DerivedScalar | packages/front/src/App.tsx:45-47 | the private scalar is what the elliptic-curve library makes of that two-pass PBKDF2 seed |
| KeyDerivation.DerivedPoint | packages/front/src/App.tsx:47-52 | the public point is the point of the same key pair's scalar, the one the seed becomes |
| KeyDerivation.Coordinate | packages/front/src/App.tsx:57-58 | for a coordinate with 32 significant octets the text is base64url of the shortest big-endian form, which is what toBuffer() writes |
| KeyDerivation.JwkBase | packages/front/src/App.tsx:55-60 | the shared JWK members are kty, x, y, crv in that order |
| KeyDerivation.PrivateJwk | packages/front/src/App.tsx:63-69 | the private JWK is the shared members followed by key_ops and d; key_ops is ["sign"] and d is the scalar's coordinate text |
| KeyDerivation.PublicJwk | packages/front/src/App.tsx:78-80 | the public JWK is the shared members followed by key_ops, which is ["verify"] |
| KeyDerivation.JwkBaseMembers | packages/front/src/App.tsx:55-60 | the shared JWK holds kty "EC", crv "P-256" and the two coordinates |
| KeyDerivation.BaseOmitsExtras | packages/front/src/App.tsx:55-60 | the shared JWK has no key_ops, d or ext member |
| KeyDerivation.JwkPairMembers | packages/front/src/App.tsx:63-87 | the two JWKs agree on every member except key_ops and d |
| KeyDerivation.EcPairFromPassword | packages/front/src/App.tsx:43-93 | both keys carry the point derived from password, salt and origin; the private key adds only d (the derived scalar) and key_ops ["sign"]; the public JWK is the shared members plus key_ops ["verify"]; both keys are extractable |
| KeyDerivation.PublicKeyImport | packages/front/src/App.tsx:78-87 | the public key of a derived pair is the extractable import of the public JWK of the derived point |
| KeyDerivation.ExportJwk | packages/front/src/App.tsx:99 | a JWK export has the key's members and ext; every member but ext keeps its value, and ext is the key's extractable flag; the members are listed in import order, not WebCrypto's |
| Jws.Header | packages/front/src/App.tsx:96-103 | the header holds alg "ES256", typ "JWT" and a jwk object; the jwk has no key_ops and no ext, and agrees with the public key's JWK on every other member |
| Jws.Claims | packages/front/src/App.tsx:109 | iat is the first claim, and a name is a claim exactly when it is iat or a caller's claim |
| Jws.Segment | packages/front/src/App.tsx:106-109 | with dot-free base64url an encoded segment holds no dot |
| Jws.SigningInput | packages/front/src/App.tsx:106-109 | with dot-free base64url the signing input splits at dots into exactly the encoded header and the encoded claims |
| Jws.CreateEcJwt | packages/front/src/App.tsx:95-119 | with dot-free base64url the token has exactly three parts: the encoded header of the public key, the encoded claims merged with the clock's iat, and base64url of the private key's signature over the first two joined by a dot |
| Jws.SplitThree | packages/front/src/App.tsx:118 | three dot-free texts joined by dots split back into the three |
| Jws.Split | packages/front/src/App.tsx:106-118 | splitting at a separator gives at least one piece, none containing the separator, and joining them back gives the input |
| Jws.SplitJoin | packages/front/src/App.tsx:106-118 | splitting undoes joining separator-free pieces |
| Jws.IssuedAt | packages/front/src/App.tsx:109 | iat is the whole number of seconds s with 1000·s ≤ now < 1000·s + 1000 |
| Jws.IssuedAtSign | packages/front/src/App.tsx:109 | iat is non-negative exactly when the clock reads 1970 or later |
| Jws.HeaderContents | packages/front/src/App.tsx:96-103 | the header of a derived pair is alg "ES256", typ "JWT" and a jwk holding exactly kty, x, y and crv with the shared JWK's values, listed in the model's member order |
| Jws.HeaderOfImportedKey | packages/front/src/App.tsx:96-103 | for any extractable key imported from some members plus key_ops, the exported-and-cleared jwk is exactly those members with their values, listed in import order |
| Jws.ClearedMembers | packages/front/src/App.tsx:101-103 | clearing key_ops and ext from an export leaves exactly the members before them |
| Jws.ClaimsGet | packages/front/src/App.tsx:109 | a merged claim is the caller's when present, otherwise the clock's iat for iat, otherwise absent |
| Jws.ClaimsMerge | packages/front/src/App.tsx:109 | a caller-supplied iat overrides the clock's; every other claim is kept; names stay distinct |
| Client.Subject | packages/front/src/App.tsx:121 | with dot-free base64url the subject holds no dot |
| Client.Nonce | packages/front/src/App.tsx:151 | with dot-free base64url the nonce text holds no dot |
| Client.KeyPairFor | packages/front/src/App.tsx:147 | both forms derive the pair with the page origin as salt and origin: the public key is the extractable public JWK of the derived point, the private JWK adds d, the derived scalar's text |
| Client.LoginToken | packages/front/src/App.tsx:147-152 | with dot-free base64url the login token has three parts: the header of the password-derived public key and the login claims merged with the clock's iat |
| Client.RegistrationToken | packages/front/src/App.tsx:192-204 | with dot-free base64url the registration token has three parts: the header of the password-derived public key and the registration claims merged with the clock's iat |
| Client.LoginClaims | packages/front/src/App.tsx:149-152 | login claims have distinct names, sub is the email's subject, nonce the encoded random octets, and no iat of their own |
| Client.RegistrationClaims | packages/front/src/App.tsx:196-204 | registration claims have distinct names and hold sub, name {given, family}, email and nonce, and no iat of their own |
| Client.Name | packages/front/src/App.tsx:198-201 | the name object has exactly the members given and family, in that order, holding the two form fields |
| Client.SubjectIgnoresCase | packages/front/src/App.tsx:121 | emails that lower-case alike give the same subject, and both forms compute it the same way |
| Protocol.HeaderShapeValid | packages/server/index.ts:44-58 | the header shape the client writes passes the header schema around any JWK the jwk sub-schema accepts |
| Protocol.ClientHeaderValid | packages/server/index.ts:44-58 | a client's header passes the header schema and its jwk is the shared JWK of the derived point, listed in the model's member order |
| Protocol.EnvelopeValid | packages/server/index.ts:40-65 | around a valid header the envelope passes exactly when the payload passes its schema |
| Protocol.LoginClaimsValid | packages/server/index.ts:84-92 | claims with sub and nonce and no iat of their own pass the login schema after the merge exactly when the clock reads 1970 or later |
| Protocol.LoginDocumentValid | packages/front/src/App.tsx:139-152 | a login token's header and claims pass the login schema exactly when the clock reads 1970 or later |
| Protocol.RegistrationClaimsValid | packages/server/index.ts:67-83 | claims that pass the registration schema still pass it after the clock's iat is merged in |
| Protocol.NameIsValid | packages/server/index.ts:71-78 | the name object the registration form builds passes the name sub-schema |
| Protocol.RegistrationDocumentValid | packages/front/src/App.tsx:182-204 | a registration token's header and claims always pass the registration schema |
| Protocol.RetrieveClientToken | packages/server/index.ts:98-118 | for a client token that verifies and passes the schema, the server retrieves the merged claims and the fingerprint of the password-derived key |
| Protocol.RegisterThenLogin | packages/server/index.ts:135-176 | registering an unused subject appends the user with the derived key's fingerprint, and a later login with the same email, password and origin returns that user |
| Protocol.LoginWithOtherKeyFails | packages/server/index.ts:159-165 | a login whose password derives a key with another fingerprint than the registered one fails with InvalidCredentials |

## Left out

- Cryptographic primitives: PBKDF2, SHA-256, ECDSA signing, the P-256 point
  multiplication and the scalar reduction are opaque `Platform` functions
  or parameters. The only property assumed is the output length of PBKDF2
  and SHA-256 (`Platform.Octets32`).
- UTF-8, base64url and JSON.stringify are also opaque functions.
  `JSON.stringify` is taken to write object members in sequence order.
  `Platform.DotFree` is a premise of the lemmas that need base64url output
  without a dot, never an axiom.
- Signature verification: the jose `jwtVerify` call, with its JWK import, its
  parsing and its `alg` checks, is the `Verifier` parameter. Scenario lemmas
  take "the verifier decodes the client's token faithfully" as a hypothesis.
- The ECDSA signature is randomised, so the signer is a per-call parameter.
  `Date.now()` and `crypto.getRandomValues` are parameters too. The nonce's
  24-octet length is not enforced.
- The exported HMAC key of `derivePbkdf2` is modelled as the raw derived
  octets. The HMAC key import and export round trip is not modelled.
- KeyDerivation.ExportJwk: it lists the imported members in import order and
  then `ext`. WebCrypto's `exportKey('jwk')` builds the object from the
  JsonWebKey dictionary, whose members come out in lexicographic order, so
  the exported public key at packages/front/src/App.tsx:99 is crv, ext,
  key_ops, kty, x, y. Each member's value is the same in both.
- Jws.HeaderContents: its jwk is stated as the sequence kty, x, y, crv; the
  program's cleared export is crv, kty, x, y. It holds member by member
  (through `Json.Get`), not as a sequence equality in the program's order.
- Jws.HeaderOfImportedKey: the cleared export equals the imported members in
  import order; in the program's order it is the same members sorted by
  name.
- Protocol.ClientHeaderValid: its jwk is stated as the shared JWK sequence;
  in the program the members are the same, in the order crv, kty, x, y.
- Jws.Header: the header text that `Jws.Segment` serializes and
  `Jws.CreateEcJwt` signs lists the jwk members in the model's order, not
  WebCrypto's. The server reads the jwk only member by member, so nothing on
  its side depends on the order.
- `toLowerCase` is `Platform.lowerCase`. Unicode case mapping is not
  modelled.
- JavaScript objects are assumed to have distinct member names. Property
  reads return the first match.
- JSON numbers are unbounded reals. IEEE 754 doubles and their rounding are
  not modelled.
- KeyDerivation.Coordinate: it writes the 32-octet fixed form, where
  `toBuffer()` at packages/front/src/App.tsx:57-58 and :68 writes the
  shortest form. The two agree for values of 2^248 and more (its `ensures`,
  via `BigEndian.MinimalIsFixed`). Below 2^248 the source writes 31 octets or
  fewer, which WebCrypto refuses; see "## Findings".
- KeyDerivation.JwkBase: its x and y are `KeyDerivation.Coordinate` texts, so
  they are the source's only for coordinates of 2^248 and more.
- KeyDerivation.JwkBaseMembers: states x and y as the 32-octet texts; for
  coordinates below 2^248 the source's members are shorter.
- KeyDerivation.PrivateJwk: d is the 32-octet text; for a scalar below 2^248
  the source's d is shorter and the private key import fails.
- KeyDerivation.JwkPairMembers: x, y and d are the 32-octet texts; the
  source's are shorter for values below 2^248.
- KeyDerivation.EcPairFromPassword: models the corrected 32-octet members.
  For a password whose coordinates or scalar fall below 2^248 the source's
  `importKey` throws and no pair exists, so `Protocol.RegisterThenLogin`,
  `Protocol.RetrieveClientToken` and the other scenario lemmas hold for the
  corrected program, not for such passwords as written.
- Retrieve.ValidateAndRetrieve: the `JwkMissing` case and the `undefined.…`
  fingerprint are reachable only through a verifier that accepts a header
  without a usable `jwk`; jose's `importJWK` refuses such a header first.
- `Platform.Octets32`: PBKDF2 with a 256-bit output and SHA-256 are typed to
  return 32 octets. That is the one property of the primitives the model
  takes on.
- JSON.stringify writes integer-like member names before all others. No
  object in this system has such a member, so the model writes members in
  insertion order only.
- BigEndian.Fixed: it keeps the low-order octets of a number too large for
  the length, where `bn.js` throws. Coordinates and scalars of P-256 are
  below 2^256, so this case does not arise.
- Ajv's error message text: `SchemaInvalid` carries no message.
- Express routing, body parsing, the 400-status error middleware, HTTP, the
  React forms, `fetch`, `alert`, and the SPKI export logged to the console
  are not modelled.
- Concurrency: the server is single-threaded and each handler runs to
  completion in the model. The source awaits only before it touches `users`,
  so no interleaving between the check and the append is lost.
- Persistence: `users` is in memory and lost on restart, as in the source.

## Findings

| source | as written | input that shows it | evidently intended | confidence | as-written member | corrected member |
|---|---|---|---|---|---|---|
| packages/front/src/App.tsx:57-58 | the JWK `x` and `y` (and `d` at line 68) are base64url of `bn.js` `toBuffer()` with no length, which writes the shortest big-endian form | any password whose derived coordinate (or scalar) is below 2^248: it serializes to 31 octets or fewer, about one key in 256 for each value | 32-octet members, as sections 6.2.1.2, 6.2.1.3 and 6.2.2.1 of RFC 7518 require; WebCrypto's JWK import refuses shorter ones, so such a password can never register or log in | medium, not executed | BigEndian.ShortCoordinate | BigEndian.FullLengthCoordinate |

The rest of the model writes coordinates and the scalar in the corrected
32-octet form (`KeyDerivation.Coordinate`).
