/**
 * Identities, key agreement and key derivation, symbolically: a derived key is the term of its inputs, a
 * ciphertext the term of what was sealed. The KDF context itself is real bytes.
 */
module Keys {
  import opened Bytes
  import opened Packets
  import opened Crypto

  /** An X25519 private key, named by the public key it belongs to. */
  datatype PrivateKey = PrivateKey(owner: NodeId)

  function PublicKeyOf(k: PrivateKey): NodeId { k.owner }

  /** X25519 gives both ends the same secret (section 6.1 of RFC 7748): the unordered pair of identities. */
  type SharedSecret = set<NodeId>

  function Ecdh(mine: PrivateKey, peer: NodeId): SharedSecret { {mine.owner, peer} }

  /** HKDF-Expand with the session label, cut to eight bytes. */
  const DeriveSessionId: SharedSecret -> Bytes8

  /** HKDF-Expand (section 2.3 of RFC 5869) of a secret with a context, as a term. */
  datatype AeadKey = AeadKey(secret: SharedSecret, context: Bytes)

  /** The ASCII bytes of "CARAKA-DM-v1". */
  const DM_LABEL: seq<byte> := [67, 65, 82, 65, 75, 65, 45, 68, 77, 45, 118, 49]

  /** Label, sender, receiver, session id and little-endian counter, each of fixed width. */
  function DmContext(sender: NodeId, receiver: NodeId, session: Bytes8, counter: nat): Bytes {
    DM_LABEL + sender + receiver + session + Le(counter, 8)
  }

  /** Extends the context part by part. */
  method AppendDmContext(sender: NodeId, receiver: NodeId, session: Bytes8, counter: nat) returns (context: Bytes)
    ensures context == DmContext(sender, receiver, session, counter) && |context| == 92
  {
    context := DM_LABEL;
    context := context + sender;
    context := context + receiver;
    context := context + session;
    context := context + Le(counter, 8);
  }

  function DeriveDmKey(secret: SharedSecret, sender: NodeId, receiver: NodeId, session: Bytes8, counter: nat): AeadKey {
    AeadKey(secret, DmContext(sender, receiver, session, counter))
  }

  const U64: nat := 18446744073709551616

  /** Where the parts of the context lie. */
  lemma DmContextLayout(sender: NodeId, receiver: NodeId, session: Bytes8, counter: nat)
    ensures var c := DmContext(sender, receiver, session, counter);
            && |c| == 92 && (forall i :: 0 <= i < 12 ==> c[i] == "CARAKA-DM-v1"[i] as int)
            && c[12..44] == sender && c[44..76] == receiver && c[76..84] == session
            && FromLe(c[84..]) == counter % U64
  {
    var c := DmContext(sender, receiver, session, counter);
    assert c[..12] == DM_LABEL && c[84..] == Le(counter, 8);
    FromLeOfLe(counter, 8);
    SpanValues();
  }

  /** The byte encoding of the context is injective: no two directions, sessions or counters share one. */
  lemma DmContextInjective(s1: NodeId, r1: NodeId, i1: Bytes8, c1: nat, s2: NodeId, r2: NodeId, i2: Bytes8, c2: nat)
    requires c1 < U64 && c2 < U64
    requires DmContext(s1, r1, i1, c1) == DmContext(s2, r2, i2, c2)
    ensures s1 == s2 && r1 == r2 && i1 == i2 && c1 == c2
  {
    var a, b := DmContext(s1, r1, i1, c1), DmContext(s2, r2, i2, c2);
    assert s1 == a[12..44] == b[12..44] == s2;
    assert r1 == a[44..76] == b[44..76] == r2;
    assert i1 == a[76..84] == b[76..84] == i2;
    assert Le(c1, 8) == a[84..92] == b[84..92] == Le(c2, 8);
    FromLeOfLe(c1, 8);
    FromLeOfLe(c2, 8);
    SpanValues();
  }

  /** The key node `a` seals to node `b` with at a given counter. */
  function DmKey(a: NodeId, b: NodeId, counter: nat): AeadKey {
    DeriveDmKey({a, b}, a, b, DeriveSessionId({a, b}), counter)
  }

  /** Both ends, each from its own private key, arrive at the same session id and the same directional key. */
  lemma BothEndsAgree(a: PrivateKey, b: PrivateKey, counter: nat)
    ensures Ecdh(a, PublicKeyOf(b)) == Ecdh(b, PublicKeyOf(a))
    ensures DeriveDmKey(Ecdh(a, b.owner), a.owner, b.owner, DeriveSessionId(Ecdh(a, b.owner)), counter)
         == DeriveDmKey(Ecdh(b, a.owner), a.owner, b.owner, DeriveSessionId(Ecdh(b, a.owner)), counter)
         == DmKey(a.owner, b.owner, counter)
  {
    assert {a.owner, b.owner} == {b.owner, a.owner};
  }

  lemma DmKeyInjective(a1: NodeId, b1: NodeId, c1: nat, a2: NodeId, b2: NodeId, c2: nat)
    requires c1 < U64 && c2 < U64 && DmKey(a1, b1, c1) == DmKey(a2, b2, c2)
    ensures a1 == a2 && b1 == b2 && c1 == c2
  {
    DmContextInjective(a1, b1, DeriveSessionId({a1, b1}), c1, a2, b2, DeriveSessionId({a2, b2}), c2);
  }

  // ---- plaintexts and ciphertexts ---------------------------------------------------------

  /** A direct message before sealing. The JSON form is taken to be an injective printing of this record. */
  datatype DmInner = DmInner(
    senderId: string, recipientId: string, text: string, timestamp: nat, sessionId: Bytes8, msgCounter: nat,
    replyToId: Option<string>, replyToText: Option<string>)

  datatype FileInner = FileInner(
    senderId: string, recipientId: string, transferId: string, filename: string, mimeType: string, data: Bytes,
    timestamp: nat, sessionId: Bytes8, msgCounter: nat)

  /** How many characters the printed form of a file has besides its base64 text. */
  const OtherFields: FileInner -> nat

  /** What a plaintext parses as; the two JSON records have different mandatory fields, so never as both. */
  datatype Plain = DmPlain(dm: DmInner) | FilePlain(file: FileInner) | OtherPlain(raw: Bytes)

  datatype Cipher = Sealed(key: AeadKey, nonce: Bytes16, plain: Plain, aad: Bytes) | Noise(raw: Bytes)

  datatype CryptoError = DecryptionFailed | TimestampInvalid

  /** The nonce's time stamp is checked first; then the seal opens under its own key, nonce and associated data only. */
  function Decrypt(key: AeadKey, nonce: Bytes16, c: Cipher, aad: Bytes, clock: nat): Result<Plain, CryptoError> {
    if !NonceTimely(nonce, clock) then Err(TimestampInvalid)
    else if c.Sealed? && c.key == key && c.nonce == nonce && c.aad == aad then Ok(c.plain)
    else Err(DecryptionFailed)
  }

  // ---- hexadecimal names --------------------------------------------------------------------

  function HexDigit(n: nat): char
    requires n < 16
  {
    "0123456789abcdef"[n]
  }

  function HexValue(c: char): Option<nat> {
    if '0' <= c <= '9' then Some(c as int - '0' as int)
    else if 'a' <= c <= 'f' then Some(c as int - 'a' as int + 10)
    else if 'A' <= c <= 'F' then Some(c as int - 'A' as int + 10)
    else None
  }

  function HexEncode(b: Bytes): string {
    if b == [] then "" else [HexDigit(b[0] / 16), HexDigit(b[0] % 16)] + HexEncode(b[1..])
  }

  /** Accepts both cases; an odd length or a foreign character is an error. */
  function HexDecode(s: string): Option<Bytes> {
    if s == "" then Some([])
    else if |s| == 1 then None
    else
      match (HexValue(s[0]), HexValue(s[1]), HexDecode(s[2..]))
      case (Some(hi), Some(lo), Some(rest)) =>
        if hi < 16 && lo < 16 then Some([(16 * hi + lo) as byte] + rest) else None
      case _ => None
  }

  lemma HexPair(n: byte, tail: string, rest: Bytes)
    requires HexDecode(tail) == Some(rest)
    ensures HexDecode([HexDigit(n / 16), HexDigit(n % 16)] + tail) == Some([n] + rest)
  {
    HexDigitValue(n / 16);
    HexDigitValue(n % 16);
    assert ([HexDigit(n / 16), HexDigit(n % 16)] + tail)[2..] == tail;
  }

  lemma {:induction false} HexRoundTrip(b: Bytes)
    ensures HexDecode(HexEncode(b)) == Some(b)
    ensures |HexEncode(b)| == 2 * |b|
  {
    if b != [] {
      HexRoundTrip(b[1..]);
      HexPair(b[0], HexEncode(b[1..]), b[1..]);
      assert [b[0]] + b[1..] == b;
    }
  }

  lemma HexDigitValue(n: nat)
    requires n < 16
    ensures HexValue(HexDigit(n)) == Some(n)
  {
    assert n < 10 ==> HexDigit(n) == ('0' as int + n) as char;
    assert n >= 10 ==> HexDigit(n) == ('a' as int + n - 10) as char;
  }

  /** A node id as the command layer gets it: 64 hexadecimal characters, in either case. */
  function NodeOf(name: string): Option<NodeId> {
    match HexDecode(name)
    case Some(b) => if |b| == 32 then Some(b) else None
    case None => None
  }

  function NameOf(n: NodeId): string { HexEncode(n) }

  /** The one spelling `hex::encode` produces; names that are not node ids do not matter here. */
  predicate LowerCase(name: string) {
    NodeOf(name).Some? ==> name == NameOf(NodeOf(name).value)
  }

  lemma NameRoundTrip(n: NodeId)
    ensures NodeOf(NameOf(n)) == Some(n) && LowerCase(NameOf(n))
  {
    HexRoundTrip(n);
  }

  predicate IsHexDigit(c: char) { '0' <= c <= '9' || 'a' <= c <= 'f' || 'A' <= c <= 'F' }

  function Lower(c: char): char { if 'A' <= c <= 'F' then (c as int + 32) as char else c }

  function Lowered(s: string): string { if s == "" then "" else [Lower(s[0])] + Lowered(s[1..]) }

  lemma HexDigitOfValue(c: char)
    ensures HexValue(c).Some? <==> IsHexDigit(c)
    ensures IsHexDigit(c) ==> HexValue(c).value < 16 && HexDigit(HexValue(c).value) == Lower(c)
  {
    assert "0123456789abcdef"[10] == 'a' && "0123456789abcdef"[11] == 'b' && "0123456789abcdef"[12] == 'c';
    assert "0123456789abcdef"[13] == 'd' && "0123456789abcdef"[14] == 'e' && "0123456789abcdef"[15] == 'f';
  }

  predicate AreHexDigits(s: string) { s == "" || (IsHexDigit(s[0]) && AreHexDigits(s[1..])) }

  lemma OfPair(x: char, y: char, tail: string)
    ensures AreHexDigits([x, y] + tail) <==> IsHexDigit(x) && IsHexDigit(y) && AreHexDigits(tail)
    ensures Lowered([x, y] + tail) == [Lower(x), Lower(y)] + Lowered(tail)
  {
    assert ([x, y] + tail)[1..] == [y] + tail && ([y] + tail)[1..] == tail;
    assert [Lower(x)] + ([Lower(y)] + Lowered(tail)) == [Lower(x), Lower(y)] + Lowered(tail);
  }

  lemma HexPairDecodes(x: char, y: char, tail: string)
    ensures HexDecode([x, y] + tail).Some? <==> IsHexDigit(x) && IsHexDigit(y) && HexDecode(tail).Some?
    ensures HexDecode([x, y] + tail).Some? ==> HexDecode([x, y] + tail) == Some([16 * HexValue(x).value + HexValue(y).value] + HexDecode(tail).value)
  {
    HexDigitOfValue(x);
    HexDigitOfValue(y);
    assert ([x, y] + tail)[2..] == tail;
  }

  lemma NibblesOf(hi: nat, lo: nat)
    requires hi < 16 && lo < 16
    ensures (16 * hi + lo) / 16 == hi && (16 * hi + lo) % 16 == lo && 16 * hi + lo < 256
  {}

  lemma HexPairPrints(n: byte, x: char, y: char, rest: Bytes)
    requires HexDigit(n / 16) == Lower(x) && HexDigit(n % 16) == Lower(y)
    ensures HexEncode([n] + rest) == [Lower(x), Lower(y)] + HexEncode(rest)
  {
    assert ([n] + rest)[1..] == rest;
  }

  lemma {:induction false} HexDecodesWhen(s: string)
    ensures HexDecode(s).Some? <==> |s| % 2 == 0 && AreHexDigits(s)
    decreases |s|
  {
    if |s| >= 2 {
      var x, y, tail := s[0], s[1], s[2..];
      HexDecodesWhen(tail);
      HexPairDecodes(x, y, tail);
      OfPair(x, y, tail);
      assert s == [x, y] + tail;
    }
  }

  lemma {:induction false} HexDecodePrints(s: string)
    requires HexDecode(s).Some?
    ensures HexEncode(HexDecode(s).value) == Lowered(s) && |s| == 2 * |HexDecode(s).value|
    decreases |s|
  {
    if |s| >= 2 {
      var x, y, tail := s[0], s[1], s[2..];
      assert s == [x, y] + tail;
      HexPairDecodes(x, y, tail);
      HexDecodePrints(tail);
      HexDigitOfValue(x);
      HexDigitOfValue(y);
      NibblesOf(HexValue(x).value, HexValue(y).value);
      HexPairPrints(16 * HexValue(x).value + HexValue(y).value, x, y, HexDecode(tail).value);
      OfPair(x, y, tail);
    }
  }

  /** Exactly the strings of an even number of hex digits decode, and what they decode to prints as them in lower case. */
  lemma HexDecodesIff(s: string)
    ensures HexDecode(s).Some? <==> |s| % 2 == 0 && AreHexDigits(s)
    ensures HexDecode(s).Some? ==> HexEncode(HexDecode(s).value) == Lowered(s) && |s| == 2 * |HexDecode(s).value|
  {
    HexDecodesWhen(s);
    if HexDecode(s).Some? {
      HexDecodePrints(s);
    }
  }

  /** Names are node ids exactly if they are 64 hex digits, and two name the same node exactly if they differ in case alone. */
  lemma SameNodeIff(a: string, b: string)
    ensures NodeOf(a).Some? <==> |a| == 64 && AreHexDigits(a)
    ensures NodeOf(a).Some? && NodeOf(b).Some? ==> (NodeOf(a) == NodeOf(b) <==> Lowered(a) == Lowered(b))
  {
    HexDecodesIff(a);
    HexDecodesIff(b);
    if NodeOf(a).Some? && NodeOf(b).Some? {
      HexRoundTrip(NodeOf(a).value);
      HexRoundTrip(NodeOf(b).value);
    }
  }
}
