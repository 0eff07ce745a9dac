/**
 * Library cryptography, reduced to what the protocol relies on. A function-valued constant without a
 * definition stands for a deterministic library function about which nothing else is known.
 */
module Crypto {
  import opened Bytes

  type MacKey = Bytes16

  /** HKDF-SHA256 used as a keyed MAC (sections 2.2 and 2.3 of RFC 5869). */
  const ComputeMac: (MacKey, Bytes) -> Bytes16

  predicate VerifyMac(key: MacKey, data: Bytes, expected: Bytes16) {
    ComputeMac(key, data) == expected
  }

  /** The low `bits` bits of exclusive and inclusive or. */
  function Xor(a: nat, b: nat, bits: nat): nat {
    if bits == 0 then 0 else (if a % 2 == b % 2 then 0 else 1) + 2 * Xor(a / 2, b / 2, bits - 1)
  }

  function Or(a: nat, b: nat, bits: nat): nat {
    if bits == 0 then 0 else (if a % 2 == 0 && b % 2 == 0 then 0 else 1) + 2 * Or(a / 2, b / 2, bits - 1)
  }

  function TwoTo(bits: nat): nat { if bits == 0 then 1 else 2 * TwoTo(bits - 1) }

  lemma {:induction false} XorIsZero(a: nat, b: nat, bits: nat)
    requires a < TwoTo(bits) && b < TwoTo(bits)
    ensures Xor(a, b, bits) == 0 <==> a == b
    ensures Xor(a, b, bits) < TwoTo(bits)
  {
    if bits > 0 {
      XorIsZero(a / 2, b / 2, bits - 1);
    }
  }

  lemma {:induction false} OrIsZero(a: nat, b: nat, bits: nat)
    requires a < TwoTo(bits) && b < TwoTo(bits)
    ensures Or(a, b, bits) == 0 <==> a == 0 && b == 0
    ensures Or(a, b, bits) < TwoTo(bits)
  {
    if bits > 0 {
      OrIsZero(a / 2, b / 2, bits - 1);
    }
  }

  /** The comparison without early exit: all bytes are XORed and ORed together, and exactly equal tags leave zero. */
  method CheckMac(key: MacKey, data: Bytes, expected: Bytes16) returns (ok: bool)
    ensures ok <==> VerifyMac(key, data, expected)
  {
    var computed := ComputeMac(key, data);
    var acc := 0;
    assert TwoTo(8) == 256 by { assert TwoTo(4) == 16; }
    for i := 0 to 16
      invariant 0 <= acc < 256
      invariant acc == 0 <==> computed[..i] == expected[..i]
    {
      XorIsZero(computed[i], expected[i], 8);
      OrIsZero(acc, Xor(computed[i], expected[i], 8), 8);
      assert computed[..i + 1] == computed[..i] + [computed[i]] && expected[..i + 1] == expected[..i] + [expected[i]];
      acc := Or(acc, Xor(computed[i], expected[i], 8), 8);
    }
    assert computed[..16] == computed && expected[..16] == expected;
    ok := acc == 0;
  }

  const NONCE_WINDOW: nat := 300

  /** Seconds embedded in the first four bytes of a nonce. */
  function NonceTime(nonce: Bytes16): nat { FromLe(nonce[..4]) }

  /** A nonce made at `now` with the given random tail; the clock is cut to 32 bits. */
  function GenerateNonce(now: nat, random: Bytes): (nonce: Bytes16)
    requires |random| == 12
  {
    Le(now, 4) + random
  }

  predicate NonceTimely(nonce: Bytes16, clock: nat) {
    var t := NonceTime(nonce);
    (if clock >= t then clock - t else t - clock) <= NONCE_WINDOW
  }

  /**
   * Before 2^32 seconds (early 2106) a nonce is timely exactly within 300 s of its making; within 300 s of its
   * making it is timely exactly before then; and no nonce at all is timely once the clock has passed that.
   */
  lemma GeneratedNonceTimely(now: nat, random: Bytes, clock: nat)
    requires |random| == 12
    ensures NonceTime(GenerateNonce(now, random)) == now % 4294967296 && GenerateNonce(now, random)[4..] == random
    ensures now < 4294967296 ==>
              (NonceTimely(GenerateNonce(now, random), clock) <==> now - 300 <= clock <= now + 300)
    ensures now - 300 <= clock <= now + 300 ==>
              (NonceTimely(GenerateNonce(now, random), clock) <==> now < 4294967296)
    ensures clock >= 4294967296 + 300 ==> !NonceTimely(GenerateNonce(now, random), clock)
  {
    FromLeOfLe(now, 4);
    SpanValues();
    assert GenerateNonce(now, random)[..4] == Le(now, 4);
  }
}
