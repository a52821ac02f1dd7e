/**
 * Big-endian octet strings of non-negative integers, as bn.js writes them
 * with `toBuffer()`. With no length argument it writes the shortest string
 * (at least one octet); with a length it pads with leading zero octets.
 */
module BigEndian {
  import opened Platform

  function Pow256(k: nat): (r: nat)
    ensures r >= 1
  {
    if k == 0 then 1 else 256 * Pow256(k - 1)
  }

  /** The unsigned integer an octet string denotes, most significant octet first. */
  function Value(bs: Bytes): nat {
    if bs == [] then 0 else Value(bs[..|bs| - 1]) * 256 + bs[|bs| - 1] as nat
  }

  lemma ValueSnoc(bs: Bytes, b: byte)
    ensures Value(bs + [b]) == Value(bs) * 256 + b as nat
  {
    assert (bs + [b])[..|bs|] == bs;
  }

  /** `toBuffer()` without a length: as few octets as the value needs. */
  function Minimal(n: nat): (bs: Bytes)
    ensures |bs| >= 1 && Value(bs) == n
    decreases n
  {
    if n < 256 then
      assert Value([n as byte]) == Value([]) * 256 + n by { ValueSnoc([], n as byte); }
      [n as byte]
    else
      var high := Minimal(n / 256);
      ValueSnoc(high, (n % 256) as byte);
      high + [(n % 256) as byte]
  }

  /** `toBuffer('be', len)`: exactly len octets, the low-order ones of n. */
  function Fixed(n: nat, len: nat): (bs: Bytes)
    ensures |bs| == len
  {
    if len == 0 then [] else Fixed(n / 256, len - 1) + [(n % 256) as byte]
  }

  /** Every value below 256^len survives the fixed-length encoding. */
  lemma {:induction false} FixedValue(n: nat, len: nat)
    requires n < Pow256(len)
    ensures Value(Fixed(n, len)) == n
  {
    if len > 0 {
      FixedValue(n / 256, len - 1);
      ValueSnoc(Fixed(n / 256, len - 1), (n % 256) as byte);
    }
  }

  /** The other direction: an octet string is the fixed-length encoding of its value. */
  lemma {:induction false} ValueFixed(bs: Bytes)
    ensures Value(bs) < Pow256(|bs|)
    ensures Fixed(Value(bs), |bs|) == bs
  {
    if bs != [] {
      var init, last := bs[..|bs| - 1], bs[|bs| - 1];
      ValueFixed(init);
      assert init + [last] == bs;
      ValueSnoc(init, last);
      var v := Value(bs);
      assert v / 256 == Value(init) && v % 256 == last as nat;
    }
  }

  /** A value below 256^k needs at most k octets in the shortest encoding. */
  lemma {:induction false} MinimalLength(n: nat, k: nat)
    requires 1 <= k && n < Pow256(k)
    ensures |Minimal(n)| <= k
    decreases n
  {
    if n >= 256 {
      MinimalLength(n / 256, k - 1);
    }
  }

  /**
   * A value that needs exactly k octets is written the same with and without
   * the length: the shortest form is the fixed form of that length.
   */
  lemma {:induction false} MinimalIsFixed(n: nat, k: nat)
    requires 1 <= k && Pow256(k - 1) <= n < Pow256(k)
    ensures Minimal(n) == Fixed(n, k)
    decreases k
  {
    if k == 1 {
      assert Fixed(n / 256, 0) == [];
    } else {
      assert Pow256(k - 2) <= n / 256 < Pow256(k - 1);
      MinimalIsFixed(n / 256, k - 1);
    }
  }

  /**
   * As written the key coordinates are encoded with `toBuffer()`: every value
   * below 2^248 comes out shorter than the 32 octets a P-256 coordinate must
   * have, so its decoded value is right but its length is not.
   */
  lemma ShortCoordinate(n: nat)
    requires n < Pow256(31)
    ensures |Minimal(n)| < 32 && Value(Minimal(n)) == n
  {
    MinimalLength(n, 31);
  }

  /** Corrected: `toBuffer('be', 32)` always gives 32 octets and keeps every value below 2^256. */
  lemma FullLengthCoordinate(n: nat)
    requires n < Pow256(32)
    ensures |Fixed(n, 32)| == 32 && Value(Fixed(n, 32)) == n
  {
    FixedValue(n, 32);
  }
}
