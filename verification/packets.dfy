/** The CLAMP packet: a 13-byte header, 17 bytes of hop authentication, nonce, ciphertext and tag. */
module Packets {
  import opened Bytes

  const MAGIC: seq<byte> := [0xCA, 0x52]
  const PROTOCOL_VERSION: byte := 1
  const TTL_MAX: byte := 7
  const TTL_BROADCAST: byte := 5
  const HEADER_SIZE := 13
  const FIXED_OVERHEAD := 62

  type PacketId = Bytes8
  type NodeId = Bytes32

  datatype PacketType = Dm | Channel | SyncReq | SyncResp | Hello | SyncData | Broadcast | File

  datatype ClampHeader = ClampHeader(magic: Bytes, version: byte, packetType: PacketType, ttl: byte, packetId: PacketId)

  datatype HopAuth = HopAuth(hopCounter: byte, macTag: Bytes16)

  datatype ClampPacket = ClampPacket(
    header: ClampHeader,
    hopAuth: HopAuth,
    nonce: Bytes16,
    ciphertext: Bytes,
    aeadTag: Bytes16)
  {
    /** What every constructor and the decoder put in the first three bytes. */
    predicate WellFormed() {
      header.magic == MAGIC && header.version == PROTOCOL_VERSION
    }
  }

  datatype PacketError =
    | InvalidMagic
    | UnsupportedVersion(version: byte)
    | TooShort(expected: nat, got: nat)
    | UnknownPacketType(code: byte)

  function TypeCode(t: PacketType): byte {
    match t
    case Dm => 1
    case Channel => 2
    case SyncReq => 3
    case SyncResp => 4
    case Hello => 5
    case SyncData => 6
    case Broadcast => 7
    case File => 8
  }

  function TypeOfCode(v: byte): (r: Result<PacketType, PacketError>)
    ensures r.Ok? <==> 1 <= v <= 8
    ensures forall t :: r == Ok(t) <==> TypeCode(t) == v
  {
    match v
    case 1 => Ok(Dm)
    case 2 => Ok(Channel)
    case 3 => Ok(SyncReq)
    case 4 => Ok(SyncResp)
    case 5 => Ok(Hello)
    case 6 => Ok(SyncData)
    case 7 => Ok(Broadcast)
    case 8 => Ok(File)
    case other => Err(UnknownPacketType(other))
  }

  /** The codes in order, from 1. */
  lemma CodesInOrder(i: nat)
    requires i < 8
    ensures TypeCode([Dm, Channel, SyncReq, SyncResp, Hello, SyncData, Broadcast, File][i]) == i + 1
  {}

  /** The header as bytes; also the associated data the AEAD authenticates. */
  function HeaderBytes(h: ClampHeader): (s: Bytes)
    ensures |h.magic| == 2 ==> |s| == HEADER_SIZE
  {
    h.magic + [h.version, TypeCode(h.packetType), h.ttl] + h.packetId
  }

  function Encode(p: ClampPacket): (s: Bytes)
    ensures p.WellFormed() ==> |s| == FIXED_OVERHEAD + |p.ciphertext|
  {
    HeaderBytes(p.header) + [p.hopAuth.hopCounter] + p.hopAuth.macTag + p.nonce + p.ciphertext + p.aeadTag
  }

  /** The checks in the decoder's order, then the fields cut out at their fixed offsets. */
  function Decode(b: Bytes): (r: Result<ClampPacket, PacketError>)
    ensures r.Ok? <==> |b| >= FIXED_OVERHEAD && b[..2] == MAGIC && b[2] == PROTOCOL_VERSION && 1 <= b[3] <= 8
    ensures r.Ok? ==> r.value.WellFormed()
  {
    if |b| < FIXED_OVERHEAD then Err(TooShort(FIXED_OVERHEAD, |b|))
    else if b[..2] != MAGIC then Err(InvalidMagic)
    else if b[2] != PROTOCOL_VERSION then Err(UnsupportedVersion(b[2]))
    else
      match TypeOfCode(b[3])
      case Err(e) => Err(e)
      case Ok(t) =>
        Ok(ClampPacket(
             ClampHeader(MAGIC, b[2], t, b[4], b[5..13]),
             HopAuth(b[13], b[14..30]),
             b[30..46],
             b[46..|b| - 16],
             b[|b| - 16..]))
  }

  /** Where each field of an encoded packet lies. */
  lemma EncodeLayout(p: ClampPacket)
    requires p.WellFormed()
    ensures var s := Encode(p); var n := |s|;
            && s[..2] == MAGIC && s[2] == PROTOCOL_VERSION && s[3] == TypeCode(p.header.packetType) && s[4] == p.header.ttl
            && s[5..13] == p.header.packetId && s[13] == p.hopAuth.hopCounter && s[14..30] == p.hopAuth.macTag
            && s[30..46] == p.nonce && s[46..n - 16] == p.ciphertext && s[n - 16..] == p.aeadTag
  {
    var h := HeaderBytes(p.header);
    var s := Encode(p);
    assert s[..13] == h;
    assert s[..2] == s[..13][..2];
    assert s[5..13] == s[..13][5..13] == p.header.packetId;
  }

  /** Why bytes are refused: too short, then the magic, then the version, then the type. */
  lemma DecodeRefusesFor(b: Bytes)
    requires Decode(b).Err?
    ensures Decode(b).error ==
            if |b| < 62 then TooShort(62, |b|) else if b[0] != 0xCA || b[1] != 0x52 then InvalidMagic
            else if b[2] != 1 then UnsupportedVersion(b[2]) else UnknownPacketType(b[3])
  {
    assert |b| >= 62 && b[0] == 0xCA && b[1] == 0x52 ==> b[..2] == MAGIC;
  }

  /** Decoding undoes encoding for every packet that carries the protocol's magic and version. */
  lemma DecodeOfEncode(p: ClampPacket)
    requires p.WellFormed()
    ensures Decode(Encode(p)) == Ok(p)
  {
    EncodeLayout(p);
  }

  /** Encoding undoes decoding: the format has no second spelling of any packet. */
  lemma EncodeOfDecode(b: Bytes)
    requires Decode(b).Ok?
    ensures Encode(Decode(b).value) == b
  {
    var p := Decode(b).value;
    EncodeLayout(p);
    assert TypeCode(p.header.packetType) == b[3];
    assert HeaderBytes(p.header) == b[..13];
    assert Encode(p) == b[..13] + b[13..14] + b[14..30] + b[30..46] + b[46..|b| - 16] + b[|b| - 16..];
  }

  /** Fills a 13-byte buffer field by field. */
  method FillHeaderBytes(h: ClampHeader) returns (buf: array<byte>)
    requires |h.magic| == 2
    ensures fresh(buf)
    ensures buf[..] == HeaderBytes(h)
  {
    buf := new byte[HEADER_SIZE](_ => 0);
    buf[0], buf[1] := h.magic[0], h.magic[1];
    buf[2] := h.version;
    buf[3] := TypeCode(h.packetType);
    buf[4] := h.ttl;
    for i := 0 to 8
      invariant buf[..5] == h.magic + [h.version, TypeCode(h.packetType), h.ttl]
      invariant buf[5..5 + i] == h.packetId[..i]
    {
      buf[5 + i] := h.packetId[i];
    }
    assert buf[..] == buf[..5] + buf[5..13];
  }

  /** Appends the encoded fields to a buffer one after the other. */
  method AppendPacket(p: ClampPacket) returns (buf: Bytes)
    requires |p.header.magic| == 2
    ensures buf == Encode(p)
  {
    var head := FillHeaderBytes(p.header);
    buf := head[..];
    buf := buf + [p.hopAuth.hopCounter];
    buf := buf + p.hopAuth.macTag;
    buf := buf + p.nonce;
    buf := buf + p.ciphertext;
    buf := buf + p.aeadTag;
  }
}
