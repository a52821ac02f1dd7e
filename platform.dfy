/**
 * What the browser and the client's libraries supply. Each primitive is a
 * fixed function whose inside is not modelled; the protocol is the way they
 * are composed.
 */
module Platform {
  import opened Json

  newtype byte = x: int | 0 <= x < 256

  type Bytes = seq<byte>

  /** A 256-bit value: a SHA-256 digest, or the 256-bit HMAC key PBKDF2 derives. */
  type Octets32 = bs: Bytes | |bs| == 32 witness seq(32, i => 0 as byte)

  datatype Platform = Platform(
    utf8: string -> Bytes,                // TextEncoder.encode
    pbkdf2: (Bytes, Bytes, nat) -> Octets32, // PBKDF2-HMAC-SHA-256 (password, salt, iterations) to a 256-bit key, exported raw
    scalar: Bytes -> nat,                 // elliptic's keyFromPrivate: the P-256 private scalar a seed becomes
    publicPoint: nat -> (nat, nat),       // scalar times the P-256 base point, as affine (x, y)
    sha256: Bytes -> Octets32,            // SHA-256 digest
    base64url: Bytes -> string,           // base64url text of section 5 of RFC 4648, unpadded
    stringify: JValue -> string,          // JSON.stringify
    lowerCase: string -> string           // String.prototype.toLowerCase
  )

  /** base64url text is drawn from letters, digits, '-' and '_', never '.'. */
  ghost predicate DotFree(p: Platform) {
    forall bs :: '.' !in p.base64url(bs)
  }
}
