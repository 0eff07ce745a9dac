/** Invite codes: id, address and port joined by colons, in unpadded base64url (section 5 of RFC 4648). */
module Invite {
  import opened Bytes
  import opened Packets
  import opened Keys
  import opened Commands

  // ---- base64url ----------------------------------------------------------------------------

  type digit = x: nat | x < 64

  function Digit(v: digit): char
  {
    if v < 26 then ('A' as int + v) as char
    else if v < 52 then ('a' as int + v - 26) as char
    else if v < 62 then ('0' as int + v - 52) as char
    else if v == 62 then '-'
    else '_'
  }

  function Value(c: char): Option<digit> {
    if 'A' <= c <= 'Z' then Some(c as int - 'A' as int)
    else if 'a' <= c <= 'z' then Some(c as int - 'a' as int + 26)
    else if '0' <= c <= '9' then Some(c as int - '0' as int + 52)
    else if c == '-' then Some(62)
    else if c == '_' then Some(63)
    else None
  }

  lemma DigitValue(v: digit)
    ensures Value(Digit(v)) == Some(v) && !IsSpace(Digit(v))
  {}

  // The four digits of three bytes, and the bytes of four digits.

  function Digit0(b0: byte): digit { b0 / 4 }

  function Digit1(b0: byte, b1: byte): digit { b0 % 4 * 16 + b1 / 16 }

  function Digit2(b1: byte, b2: byte): digit { b1 % 16 * 4 + b2 / 64 }

  function Digit3(b2: byte): digit { b2 % 64 }

  function Byte0(v0: digit, v1: digit): byte {
    v0 * 4 + v1 / 16
  }

  function Byte1(v1: digit, v2: digit): byte {
    v1 % 16 * 16 + v2 / 4
  }

  function Byte2(v2: digit, v3: digit): byte {
    v2 % 4 * 64 + v3
  }

  /** One, two and three bytes in digits; missing bits are zero. */
  function Group1(b0: byte): string { [Digit(Digit0(b0)), Digit(Digit1(b0, 0))] }

  function Group2(b0: byte, b1: byte): string { [Digit(Digit0(b0)), Digit(Digit1(b0, b1)), Digit(Digit2(b1, 0))] }

  function Group3(b0: byte, b1: byte, b2: byte): string {
    [Digit(Digit0(b0)), Digit(Digit1(b0, b1)), Digit(Digit2(b1, b2)), Digit(Digit3(b2))]
  }

  function Encode64(b: Bytes): string {
    if b == [] then ""
    else if |b| == 1 then Group1(b[0])
    else if |b| == 2 then Group2(b[0], b[1])
    else Group3(b[0], b[1], b[2]) + Encode64(b[3..])
  }

  /** Strict: no padding, no foreign characters, no single leftover character, no stray trailing bits. */
  function Decode64(s: string): Option<Bytes> {
    if s == "" then Some([])
    else if |s| == 1 then None
    else if Value(s[0]).None? || Value(s[1]).None? then None
    else
      var v0, v1 := Value(s[0]).value, Value(s[1]).value;
      if |s| == 2 then (if v1 % 16 == 0 then Some([Byte0(v0, v1)]) else None)
      else if Value(s[2]).None? then None
      else
        var v2 := Value(s[2]).value;
        if |s| == 3 then (if v2 % 4 == 0 then Some([Byte0(v0, v1), Byte1(v1, v2)]) else None)
        else if Value(s[3]).None? then None
        else
          match Decode64(s[4..])
          case Some(rest) => Some([Byte0(v0, v1), Byte1(v1, v2), Byte2(v2, Value(s[3]).value)] + rest)
          case None => None
  }

  lemma Regroup(b0: byte, b1: byte, b2: byte)
    ensures Byte0(Digit0(b0), Digit1(b0, b1)) == b0
    ensures Byte1(Digit1(b0, b1), Digit2(b1, b2)) == b1
    ensures Byte2(Digit2(b1, b2), Digit3(b2)) == b2
    ensures Digit1(b0, 0) % 16 == 0 && Digit2(b1, 0) % 4 == 0
  {
    SharedDigit(b0 % 4, b1 / 16, 16);
    SharedDigit(b1 % 16, b2 / 64, 4);
  }

  /** The bits two neighbouring bytes leave in the digit they share. */
  lemma SharedDigit(hi: nat, lo: nat, shift: nat)
    requires shift in {4, 16, 64} && lo < shift
    ensures (hi * shift + lo) / shift == hi && (hi * shift + lo) % shift == lo
  {}

  lemma DecodeGroup(v0: digit, v1: digit, v2: digit, v3: digit, tail: string, rest: Bytes)
    requires Decode64(tail) == Some(rest)
    ensures Decode64([Digit(v0), Digit(v1), Digit(v2), Digit(v3)] + tail)
         == Some([Byte0(v0, v1), Byte1(v1, v2), Byte2(v2, v3)] + rest)
  {
    DigitValue(v0); DigitValue(v1); DigitValue(v2); DigitValue(v3);
    assert ([Digit(v0), Digit(v1), Digit(v2), Digit(v3)] + tail)[4..] == tail;
  }

  lemma DecodePair(v0: digit, v1: digit)
    requires v1 % 16 == 0
    ensures Decode64([Digit(v0), Digit(v1)]) == Some([Byte0(v0, v1)])
  {
    DigitValue(v0); DigitValue(v1);
  }

  lemma DecodeTriple(v0: digit, v1: digit, v2: digit)
    requires v2 % 4 == 0
    ensures Decode64([Digit(v0), Digit(v1), Digit(v2)]) == Some([Byte0(v0, v1), Byte1(v1, v2)])
  {
    DigitValue(v0); DigitValue(v1); DigitValue(v2);
  }

  lemma DecodeGroup1(b0: byte)
    ensures Decode64(Group1(b0)) == Some([b0])
  {
    Regroup(b0, 0, 0);
    DecodePair(Digit0(b0), Digit1(b0, 0));
  }

  lemma DecodeGroup2(b0: byte, b1: byte)
    ensures Decode64(Group2(b0, b1)) == Some([b0, b1])
  {
    Regroup(b0, b1, 0);
    DecodeTriple(Digit0(b0), Digit1(b0, b1), Digit2(b1, 0));
  }

  lemma DecodeGroup3(b0: byte, b1: byte, b2: byte, tail: string, rest: Bytes)
    requires Decode64(tail) == Some(rest)
    ensures Decode64(Group3(b0, b1, b2) + tail) == Some([b0, b1, b2] + rest)
  {
    Regroup(b0, b1, b2);
    DecodeGroup(Digit0(b0), Digit1(b0, b1), Digit2(b1, b2), Digit3(b2), tail, rest);
  }

  lemma {:induction false} DecodeOfEncode64(b: Bytes)
    ensures Decode64(Encode64(b)) == Some(b)
  {
    if |b| == 1 {
      DecodeGroup1(b[0]);
      assert b == [b[0]];
    } else if |b| == 2 {
      DecodeGroup2(b[0], b[1]);
      assert b == [b[0], b[1]];
    } else if |b| >= 3 {
      DecodeOfEncode64(b[3..]);
      DecodeGroup3(b[0], b[1], b[2], Encode64(b[3..]), b[3..]);
      assert b == [b[0], b[1], b[2]] + b[3..];
    }
  }

  lemma ValueDigit(c: char)
    ensures Value(c).Some? ==> Digit(Value(c).value) == c
  {}

  /** The digits of the bytes that digits were read as, where the bits left over are zero. */
  lemma Ungroup(v0: digit, v1: digit, v2: digit, v3: digit)
    ensures Digit0(Byte0(v0, v1)) == v0 && Digit1(Byte0(v0, v1), Byte1(v1, v2)) == v1
    ensures Digit2(Byte1(v1, v2), Byte2(v2, v3)) == v2 && Digit3(Byte2(v2, v3)) == v3
    ensures v1 % 16 == 0 ==> Digit1(Byte0(v0, v1), 0) == v1
    ensures v2 % 4 == 0 ==> Digit2(Byte1(v1, v2), 0) == v2
  {
    SharedDigit(v0, v1 / 16, 4);
    SharedDigit(v1 % 16, v2 / 4, 16);
    SharedDigit(v2 % 4, v3, 64);
  }

  lemma EncodeMore(b0: byte, b1: byte, b2: byte, rest: Bytes)
    ensures Encode64([b0, b1, b2] + rest) == Group3(b0, b1, b2) + Encode64(rest)
  {
    assert ([b0, b1, b2] + rest)[3..] == rest;
  }

  lemma PairOfDigits(v0: digit, v1: digit)
    requires v1 % 16 == 0
    ensures Group1(Byte0(v0, v1)) == [Digit(v0), Digit(v1)]
  {
    Ungroup(v0, v1, 0, 0);
  }

  lemma TripleOfDigits(v0: digit, v1: digit, v2: digit)
    requires v2 % 4 == 0
    ensures Group2(Byte0(v0, v1), Byte1(v1, v2)) == [Digit(v0), Digit(v1), Digit(v2)]
  {
    Ungroup(v0, v1, v2, 0);
  }

  lemma EncodeOfPair(s: string)
    requires |s| == 2 && Decode64(s).Some?
    ensures Encode64(Decode64(s).value) == s
  {
    ValueDigit(s[0]); ValueDigit(s[1]);
    PairOfDigits(Value(s[0]).value, Value(s[1]).value);
    assert Encode64(Decode64(s).value) == Group1(Decode64(s).value[0]);
  }

  lemma EncodeOfTriple(s: string)
    requires |s| == 3 && Decode64(s).Some?
    ensures Encode64(Decode64(s).value) == s
  {
    ValueDigit(s[0]); ValueDigit(s[1]); ValueDigit(s[2]);
    TripleOfDigits(Value(s[0]).value, Value(s[1]).value, Value(s[2]).value);
    assert Encode64(Decode64(s).value) == Group2(Decode64(s).value[0], Decode64(s).value[1]);
  }

  lemma GroupOfDigits(v0: digit, v1: digit, v2: digit, v3: digit)
    ensures Group3(Byte0(v0, v1), Byte1(v1, v2), Byte2(v2, v3)) == [Digit(v0), Digit(v1), Digit(v2), Digit(v3)]
  {
    Ungroup(v0, v1, v2, v3);
  }

  lemma FirstGroup(s: string) returns (v0: digit, v1: digit, v2: digit, v3: digit)
    requires |s| >= 4 && Decode64(s).Some?
    ensures Decode64(s[4..]).Some? && s == [Digit(v0), Digit(v1), Digit(v2), Digit(v3)] + s[4..]
    ensures Decode64(s) == Some([Byte0(v0, v1), Byte1(v1, v2), Byte2(v2, v3)] + Decode64(s[4..]).value)
  {
    v0, v1, v2, v3 := Value(s[0]).value, Value(s[1]).value, Value(s[2]).value, Value(s[3]).value;
    ValueDigit(s[0]); ValueDigit(s[1]); ValueDigit(s[2]); ValueDigit(s[3]);
  }

  /** Encoding undoes decoding: of all strings only the code itself decodes to given bytes. */
  lemma {:induction false} EncodeOfDecode64(s: string)
    requires Decode64(s).Some?
    ensures Encode64(Decode64(s).value) == s
    decreases |s|
  {
    if |s| == 2 {
      EncodeOfPair(s);
    } else if |s| == 3 {
      EncodeOfTriple(s);
    } else if |s| >= 4 {
      var v0, v1, v2, v3 := FirstGroup(s);
      EncodeOfDecode64(s[4..]);
      EncodeMore(Byte0(v0, v1), Byte1(v1, v2), Byte2(v2, v3), Decode64(s[4..]).value);
      GroupOfDigits(v0, v1, v2, v3);
    }
  }

  lemma {:induction false} CodeHasNoSpace(b: Bytes)
    ensures forall i :: 0 <= i < |Encode64(b)| ==> !IsSpace(Encode64(b)[i])
  {
    forall v: digit ensures !IsSpace(Digit(v)) { DigitValue(v); }
    if |b| >= 3 {
      CodeHasNoSpace(b[3..]);
    }
  }

  // ---- decimal ports --------------------------------------------------------------------------

  const COLON: byte := 58

  function Decimal(n: nat): Bytes {
    if n < 10 then [48 + n] else Decimal(n / 10) + [48 + n % 10]
  }

  function Digits(s: Bytes): Option<nat> {
    if s == [] then Some(0)
    else
      var c := s[|s| - 1];
      match Digits(s[..|s| - 1])
      case Some(n) => if 48 <= c <= 57 then Some(10 * n + (c - 48)) else None
      case None => None
  }

  /** An optional plus sign, then at least one digit, then a value that fits in 16 bits. */
  function ParseU16(s: Bytes): Option<nat> {
    var digits := if s != [] && s[0] == 43 then s[1..] else s;
    if digits == [] then None
    else
      match Digits(digits)
      case Some(n) => if n < 65536 then Some(n) else None
      case None => None
  }

  lemma {:induction false} DigitsOfDecimal(n: nat)
    ensures Decimal(n) != [] && Digits(Decimal(n)) == Some(n) && Decimal(n)[0] != 43
  {
    if n >= 10 {
      DigitsOfDecimal(n / 10);
      assert Decimal(n)[..|Decimal(n)| - 1] == Decimal(n / 10);
    } else {
      assert Decimal(n)[..0] == [];
    }
  }

  // ---- the code -------------------------------------------------------------------------------

  predicate Tail(b: byte) { 0x80 <= b <= 0xBF }

  /** Well-formed UTF-8 (section 4 of RFC 3629). */
  predicate IsUtf8(s: Bytes)
    decreases |s|
  {
    if s == [] then true
    else if s[0] < 0x80 then IsUtf8(s[1..])
    else if 0xC2 <= s[0] <= 0xDF then |s| >= 2 && Tail(s[1]) && IsUtf8(s[2..])
    else if 0xE0 <= s[0] <= 0xEF then
      |s| >= 3 && Tail(s[1]) && Tail(s[2]) && (s[0] == 0xE0 ==> s[1] >= 0xA0) && (s[0] == 0xED ==> s[1] <= 0x9F) && IsUtf8(s[3..])
    else if 0xF0 <= s[0] <= 0xF4 then
      |s| >= 4 && Tail(s[1]) && Tail(s[2]) && Tail(s[3]) && (s[0] == 0xF0 ==> s[1] >= 0x90) && (s[0] == 0xF4 ==> s[1] <= 0x8F) && IsUtf8(s[4..])
    else false
  }

  predicate IsAscii(s: Bytes) { forall i :: 0 <= i < |s| ==> s[i] < 0x80 }

  lemma {:induction false} AsciiIsUtf8(s: Bytes)
    requires IsAscii(s)
    ensures IsUtf8(s)
  {
    if s != [] {
      AsciiIsUtf8(s[1..]);
    }
  }

  datatype Via = Lan | Tor

  datatype Invitation = Invitation(via: Via, nodeId: Bytes, address: Bytes, port: nat)

  datatype InviteError = NotBase64 | NotUtf8 | UnknownFormat

  /** "caraka0" or "caraka1". */
  function Tag(via: Via): Bytes {
    [99, 97, 114, 97, 107, 97, if via.Lan? then 48 else 49]
  }

  function RawCode(v: Invitation): Bytes {
    Tag(v.via) + [COLON] + v.nodeId + [COLON] + v.address + [COLON] + Decimal(v.port)
  }

  function GenerateCode(v: Invitation): string { Encode64(RawCode(v)) }

  /** The part before the first colon, and the part after it. */
  function SplitOnce(s: Bytes): (r: Option<(Bytes, Bytes)>)
    ensures r.Some? ==> COLON !in r.value.0 && s == r.value.0 + [COLON] + r.value.1
    ensures r.None? ==> COLON !in s
  {
    if s == [] then None
    else if s[0] == COLON then Some(([], s[1..]))
    else
      match SplitOnce(s[1..])
      case None => None
      case Some((a, b)) => Some(([s[0]] + a, b))
  }

  /** At most n parts; the last keeps any further colons. */
  function SplitN(s: Bytes, n: nat): seq<Bytes>
    requires n > 0
    decreases n
  {
    if n == 1 then [s]
    else
      match SplitOnce(s)
      case None => [s]
      case Some((a, b)) => [a] + SplitN(b, n - 1)
  }

  function Trim(s: string): string
    decreases |s|
  {
    if s != "" && IsSpace(s[0]) then Trim(s[1..])
    else if s != "" && IsSpace(s[|s| - 1]) then Trim(s[..|s| - 1])
    else s
  }

  /** The decoded text: tag, id, address and port, where an unreadable port falls back to the default. */
  function ParseRaw(raw: Bytes, lanPort: nat, torPort: nat): Result<Invitation, InviteError> {
    var parts := SplitN(raw, 4);
    if |parts| == 4 && parts[0] == Tag(Lan) then Ok(Invitation(Lan, parts[1], parts[2], PortOr(parts[3], lanPort)))
    else if |parts| == 4 && parts[0] == Tag(Tor) then Ok(Invitation(Tor, parts[1], parts[2], PortOr(parts[3], torPort)))
    else Err(UnknownFormat)
  }

  function ParseCode(code: string, lanPort: nat, torPort: nat): Result<Invitation, InviteError> {
    match Decode64(Trim(code))
    case None => Err(NotBase64)
    case Some(raw) => if IsUtf8(raw) then ParseRaw(raw, lanPort, torPort) else Err(NotUtf8)
  }

  function PortOr(s: Bytes, default: nat): nat {
    if ParseU16(s).Some? then ParseU16(s).value else default
  }

  /** A colon-free head is split off whole, whatever follows. */
  lemma {:induction false} SplitAtFirst(a: Bytes, b: Bytes)
    requires COLON !in a
    ensures SplitOnce(a + [COLON] + b) == Some((a, b))
  {
    var s := a + [COLON] + b;
    if a == [] {
      assert s[1..] == b;
    } else {
      assert s[1..] == a[1..] + [COLON] + b;
      assert COLON !in a[1..];
      SplitAtFirst(a[1..], b);
      assert [a[0]] + a[1..] == a;
    }
  }

  lemma PortSurvives(port: nat, default: nat)
    requires port < 65536
    ensures PortOr(Decimal(port), default) == port
  {
    DigitsOfDecimal(port);
  }

  /** No blank at either end. */
  predicate Bare(s: string) { s != "" ==> !IsSpace(s[0]) && !IsSpace(s[|s| - 1]) }

  /** Trimming leaves a stretch of the text: everything outside it is blank, and neither of its ends is. */
  lemma {:induction false} TrimTakesBlanks(s: string) returns (lo: nat, hi: nat)
    ensures lo <= hi <= |s| && Trim(s) == s[lo..hi] && Bare(Trim(s))
    ensures forall i :: 0 <= i < |s| && !(lo <= i < hi) ==> IsSpace(s[i])
    decreases |s|
  {
    lo, hi := 0, |s|;
    if s != "" && IsSpace(s[0]) {
      lo, hi := TrimTakesBlanks(s[1..]);
      lo, hi := lo + 1, hi + 1;
    } else if s != "" && IsSpace(s[|s| - 1]) {
      lo, hi := TrimTakesBlanks(s[..|s| - 1]);
    }
  }

  /** So blanks around a code do not matter. */
  lemma {:induction false} TrimOfPadded(before: string, code: string, after: string)
    requires Blank(before) && Blank(after) && Bare(code) && code != ""
    ensures Trim(before + code + after) == code
    decreases |before| + |after|
  {
    var s := before + code + after;
    if before != "" {
      TrimOfPadded(before[1..], code, after);
      assert s[1..] == before[1..] + code + after && s[0] == before[0];
    } else if after != "" {
      var n := |after| - 1;
      TrimOfPadded(before, code, after[..n]);
      assert s[..|s| - 1] == before + code + after[..n] && s[|s| - 1] == after[n] && s[0] == code[0];
    } else {
      assert s == code;
    }
  }

  lemma TrimNothing(s: string)
    requires forall i :: 0 <= i < |s| ==> !IsSpace(s[i])
    ensures Trim(s) == s
  {}

  /** Id, address and port as they stand behind the tag. */
  function RawTail(v: Invitation): Bytes { v.nodeId + [COLON] + (v.address + [COLON] + Decimal(v.port)) }

  /** Splitting the part behind the tag: exactly its fields if id and address are free of colons. */
  lemma PartsOfTail(v: Invitation)
    ensures var parts := SplitN(RawTail(v), 3);
            |parts| == 3 && COLON !in parts[0] && COLON !in parts[1]
            && (COLON !in v.nodeId && COLON !in v.address ==> parts == [v.nodeId, v.address, Decimal(v.port)])
            && (COLON !in v.nodeId && COLON in v.address ==> parts[0] == v.nodeId && parts[1] != v.address)
  {
    var port := Decimal(v.port);
    var rest := v.address + [COLON] + port;
    assert COLON in RawTail(v) by { assert RawTail(v)[|v.nodeId|] == COLON; }
    assert COLON in rest by { assert rest[|v.address|] == COLON; }
    var (a, b) := SplitOnce(RawTail(v)).value;
    if COLON !in v.nodeId {
      SplitAtFirst(v.nodeId, rest);
      if COLON !in v.address {
        SplitAtFirst(v.address, port);
      }
    } else {
      SecondColon(v.nodeId, rest, a, b);
    }
    var (c, d) := SplitOnce(b).value;
    assert SplitN(d, 1) == [d] && SplitN(b, 2) == [c, d];
  }

  /** The four parts of a raw code: exactly its fields if id and address are free of colons. */
  lemma PartsOfRaw(v: Invitation)
    ensures var parts := SplitN(RawCode(v), 4);
            |parts| == 4 && parts[0] == Tag(v.via)
            && COLON !in parts[1] && COLON !in parts[2]
            && (COLON !in v.nodeId && COLON !in v.address ==> parts == [Tag(v.via), v.nodeId, v.address, Decimal(v.port)])
            && (COLON !in v.nodeId && COLON in v.address ==> parts[1] == v.nodeId && parts[2] != v.address)
  {
    assert RawCode(v) == Tag(v.via) + [COLON] + RawTail(v);
    SplitAtFirst(Tag(v.via), RawTail(v));
    PartsOfTail(v);
    assert SplitN(RawCode(v), 4) == [Tag(v.via)] + SplitN(RawTail(v), 3);
  }

  /** Splitting off less than the id leaves the colon behind the id in the remainder. */
  lemma SecondColon(id: Bytes, rest: Bytes, a: Bytes, b: Bytes)
    requires id + [COLON] + rest == a + [COLON] + b && COLON !in a && COLON in id
    ensures COLON in b
  {
    var s := id + [COLON] + rest;
    var i :| 0 <= i < |id| && id[i] == COLON;
    assert s[i] == COLON;
    assert forall j :: 0 <= j < |a| ==> s[j] == a[j];
    assert s[|id|] == COLON;
    assert b[|id| - |a| - 1] == s[|id|];
  }

  /**
   * Parsing a generated code returns the same kind, id, address and port exactly when neither the id nor the
   * address contains a colon.
   */
  lemma ParseOfGenerate(v: Invitation, lanPort: nat, torPort: nat)
    requires v.port < 65536 && IsUtf8(RawCode(v))
    ensures ParseCode(GenerateCode(v), lanPort, torPort) == Ok(v) <==> COLON !in v.nodeId && COLON !in v.address
    ensures ParseCode(GenerateCode(v), lanPort, torPort).Ok?
  {
    DecodeOfEncode64(RawCode(v));
    CodeHasNoSpace(RawCode(v));
    TrimNothing(GenerateCode(v));
    ParseOfRaw(v, lanPort, torPort);
  }

  lemma ParseOfRaw(v: Invitation, lanPort: nat, torPort: nat)
    requires v.port < 65536
    ensures ParseRaw(RawCode(v), lanPort, torPort) == Ok(v) <==> COLON !in v.nodeId && COLON !in v.address
    ensures ParseRaw(RawCode(v), lanPort, torPort).Ok?
  {
    PartsOfRaw(v);
    PortSurvives(v.port, lanPort);
    PortSurvives(v.port, torPort);
    assert Tag(Lan) != Tag(Tor) by { assert Tag(Lan)[6] != Tag(Tor)[6]; }
  }

  // ---- the codes the program makes ----------------------------------------------------------------

  /** Digits, dots, letters and spaces: IPv4 and onion addresses, and the texts for an unknown address. */
  predicate AddressChar(c: char) {
    '0' <= c <= '9' || 'a' <= c <= 'z' || 'A' <= c <= 'Z' || c == '.' || c == ' '
  }

  function Code(c: char): (b: byte)
    requires AddressChar(c)
    ensures b < 0x80 && b != COLON
  {
    c as int
  }

  function Ascii(s: string): (b: Bytes)
    requires forall i :: 0 <= i < |s| ==> AddressChar(s[i])
    ensures |b| == |s| && IsAscii(b) && COLON !in b
  {
    if s == "" then [] else [Code(s[0])] + Ascii(s[1..])
  }

  lemma {:induction false} NameIsPlain(b: Bytes)
    ensures forall i :: 0 <= i < |HexEncode(b)| ==> AddressChar(HexEncode(b)[i])
  {
    if b != [] {
      NameIsPlain(b[1..]);
      HexDigitIsPlain(b[0] / 16);
      HexDigitIsPlain(b[0] % 16);
    }
  }

  lemma HexDigitIsPlain(n: nat)
    requires n < 16
    ensures AddressChar(HexDigit(n))
  {
    assert forall k :: 0 <= k < 16 ==> AddressChar("0123456789abcdef"[k]);
  }

  lemma {:induction false} DecimalIsAscii(n: nat)
    ensures IsAscii(Decimal(n))
  {
    if n >= 10 {
      DecimalIsAscii(n / 10);
    }
  }

  lemma RawIsAscii(v: Invitation)
    requires IsAscii(v.nodeId) && IsAscii(v.address)
    ensures IsAscii(RawCode(v))
  {
    DecimalIsAscii(v.port);
    assert IsAscii(Tag(v.via) + [COLON] + v.nodeId);
    assert IsAscii(Tag(v.via) + [COLON] + v.nodeId + [COLON] + v.address);
  }

  /** A code made for any node id, with an address such as the program finds, parses back to what it was made of. */
  lemma GeneratedCodeParses(via: Via, n: NodeId, address: string, port: nat, lanPort: nat, torPort: nat)
    requires port < 65536 && forall i :: 0 <= i < |address| ==> AddressChar(address[i])
    ensures forall i :: 0 <= i < |NameOf(n)| ==> AddressChar(NameOf(n)[i])
    ensures var v := Invitation(via, Ascii(NameOf(n)), Ascii(address), port);
            ParseCode(GenerateCode(v), lanPort, torPort) == Ok(v)
  {
    NameIsPlain(n);
    var v := Invitation(via, Ascii(NameOf(n)), Ascii(address), port);
    RawIsAscii(v);
    AsciiIsUtf8(RawCode(v));
    ParseOfGenerate(v, lanPort, torPort);
  }

  /** Blanks around a generated code change nothing. */
  lemma PaddedCodeParses(before: string, v: Invitation, after: string, lanPort: nat, torPort: nat)
    requires Blank(before) && Blank(after)
    ensures ParseCode(before + GenerateCode(v) + after, lanPort, torPort) == ParseCode(GenerateCode(v), lanPort, torPort)
  {
    CodeHasNoSpace(RawCode(v));
    TrimNothing(GenerateCode(v));
    TrimOfPadded(before, GenerateCode(v), after);
  }

  lemma {:induction false} NotDigits(s: Bytes, i: nat)
    requires i < |s| && !(48 <= s[i] <= 57)
    ensures Digits(s) == None
  {
    if i < |s| - 1 {
      NotDigits(s[..|s| - 1], i);
    }
  }

  predicate HasForeign(text: Bytes) { exists i :: 0 <= i < |text| && !(48 <= text[i] <= 57) && (i > 0 || text[i] != 43) }

  lemma PortOrDefault(text: Bytes, default: nat, n: nat)
    ensures text == Decimal(n) ==> PortOr(text, default) == if n < 65536 then n else default
    ensures text == [] || HasForeign(text) ==> PortOr(text, default) == default
  {
    DigitsOfDecimal(n);
    if i :| 0 <= i < |text| && !(48 <= text[i] <= 57) && (i > 0 || text[i] != 43) {
      if text[0] == 43 {
        NotDigits(text[1..], i - 1);
      } else {
        NotDigits(text, i);
      }
    }
  }

  /** The last part of a code, whatever it is: a number below 65536 is the port, anything else the default for its kind. */
  lemma PortIsReadOrDefault(via: Via, id: Bytes, address: Bytes, text: Bytes, lanPort: nat, torPort: nat, n: nat)
    requires COLON !in id && COLON !in address
    ensures var r := ParseRaw(Tag(via) + [COLON] + id + [COLON] + address + [COLON] + text, lanPort, torPort);
            var default := if via.Lan? then lanPort else torPort;
            && r.Ok? && r.value.via == via && r.value.nodeId == id && r.value.address == address
            && (text == Decimal(n) ==> r.value.port == if n < 65536 then n else default)
            && (text == [] || HasForeign(text) ==> r.value.port == default)
  {
    var raw := Tag(via) + [COLON] + id + [COLON] + address + [COLON] + text;
    assert raw == Tag(via) + [COLON] + (id + [COLON] + (address + [COLON] + text));
    SplitAtFirst(Tag(via), id + [COLON] + (address + [COLON] + text));
    SplitAtFirst(id, address + [COLON] + text);
    SplitAtFirst(address, text);
    assert SplitN(raw, 4) == [Tag(via), id, address, text];
    assert Tag(Lan) != Tag(Tor) by { assert Tag(Lan)[6] != Tag(Tor)[6]; }
    PortOrDefault(text, if via.Lan? then lanPort else torPort, n);
  }
}
