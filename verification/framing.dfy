/** The stream between two peers: frames of a 2-byte little-endian length and that many bytes. */
module Framing {
  import opened Bytes
  import opened Packets

  const MAX_PACKET_SIZE := 65535
  const MAX_CIPHERTEXT := 65473

  datatype FrameError = TooLarge | BadLength | EndOfStream

  /** What one successful send puts on the stream. */
  function Frame(data: Bytes): Bytes {
    Le(|data|, 2) + data
  }

  function Frames(items: seq<Bytes>): Bytes {
    if items == [] then [] else Frame(items[0]) + Frames(items[1..])
  }

  /** The reader's view of the stream: the first frame and what follows it. */
  function ReceiveFrame(stream: Bytes): Result<(Bytes, Bytes), FrameError> {
    if |stream| < 2 then Err(EndOfStream)
    else
      var len := FromLe(stream[..2]);
      if len == 0 || len > MAX_PACKET_SIZE then Err(BadLength)
      else if |stream| < 2 + len then Err(EndOfStream)
      else Ok((stream[2..2 + len], stream[2 + len..]))
  }

  /** The length in two bytes, low byte first, then the data. */
  lemma FrameLayout(data: Bytes)
    requires |data| <= 65535
    ensures Frame(data) == [|data| % 256, |data| / 256] + data
  {
    assert Le(|data|, 2) == [|data| % 256] + Le(|data| / 256, 1) && Le(|data| / 256, 1) == [|data| / 256 % 256] + Le(|data| / 256 / 256, 0);
  }

  /** A frame at the head of any stream is read back exactly and nothing behind it is touched. */
  lemma ReceiveOfFrame(data: Bytes, rest: Bytes)
    requires 0 < |data| <= MAX_PACKET_SIZE
    ensures ReceiveFrame(Frame(data) + rest) == Ok((data, rest))
  {
    SpanValues();
    FromLeOfLe(|data|, 2);
    var stream := Frame(data) + rest;
    assert stream[..2] == Le(|data|, 2);
    assert stream[2..2 + |data|] == data;
    assert stream[2 + |data|..] == rest;
  }

  /** Whatever the reader accepts was a frame: re-framing it rebuilds the stream. */
  lemma FrameOfReceive(stream: Bytes)
    requires ReceiveFrame(stream).Ok?
    ensures var (data, rest) := ReceiveFrame(stream).value;
            0 < |data| <= MAX_PACKET_SIZE && Frame(data) + rest == stream
  {
    var len := FromLe(stream[..2]);
    LeOfFromLe(stream[..2]);
    assert stream == stream[..2] + stream[2..2 + len] + stream[2 + len..];
  }

  /** Why nothing is read: a length of zero, or an end of the stream before two bytes or before the length they give. */
  lemma FrameRefusedFor(stream: Bytes)
    requires ReceiveFrame(stream).Err?
    ensures if |stream| >= 2 && stream[0] == 0 && stream[1] == 0 then ReceiveFrame(stream) == Err(BadLength)
            else ReceiveFrame(stream) == Err(EndOfStream) && (|stream| >= 2 ==> |stream| < 2 + (stream[0] as int) + 256 * (stream[1] as int))
  {
    if |stream| >= 2 {
      assert stream[..2] == [stream[0], stream[1]] && stream[..2][1..] == [stream[1]];
      assert FromLe([stream[1]]) == stream[1] by { assert [stream[1]][1..] == []; }
    }
  }

  /** A byte stream between two peers; `pending` is what was written and not yet read. */
  class Stream {
    var pending: Bytes

    constructor ()
      ensures pending == []
    {
      pending := [];
    }

    method SendRawPacket(data: Bytes) returns (r: Result<(), FrameError>)
      modifies this
      ensures |data| > MAX_PACKET_SIZE ==> r == Err(TooLarge) && pending == old(pending)
      ensures |data| <= MAX_PACKET_SIZE ==> r == Ok(()) && pending == old(pending) + Frame(data)
    {
      if |data| > MAX_PACKET_SIZE {
        return Err(TooLarge);
      }
      pending := pending + Le(|data|, 2);
      pending := pending + data;
      return Ok(());
    }

    method RecvPacket() returns (r: Result<Bytes, FrameError>)
      modifies this
      ensures match ReceiveFrame(old(pending))
              case Ok(pair) => r == Ok(pair.0) && pending == pair.1
              case Err(e) => r == Err(e)
    {
      if |pending| < 2 {
        return Err(EndOfStream);
      }
      var len := FromLe(pending[..2]);
      pending := pending[2..];
      if len == 0 || len > MAX_PACKET_SIZE {
        return Err(BadLength);
      }
      if |pending| < len {
        return Err(EndOfStream);
      }
      assert pending[..len] == old(pending)[2..2 + len] && pending[len..] == old(pending)[2 + len..];
      r := Ok(pending[..len]);
      pending := pending[len..];
    }

    /** The connection's reader loop: packets until the first error, which ends the connection. */
    method ReadLoop() returns (items: seq<Bytes>, e: FrameError)
      modifies this
      ensures (items, e) == ReadAll(old(pending))
    {
      items := [];
      ghost var start := pending;
      assert [] + ReadAll(start).0 == ReadAll(start).0;
      while true
        invariant ReadAll(start) == (items + ReadAll(pending).0, ReadAll(pending).1)
        decreases |pending|
      {
        ghost var before := pending;
        var r := RecvPacket();
        match r {
          case Err(x) =>
            assert ReadAll(before) == ([], x);
            assert items + [] == items;
            return items, x;
          case Ok(data) =>
            FrameOfReceive(before);
            assert items + ReadAll(before).0 == (items + [data]) + ReadAll(pending).0;
            items := items + [data];
        }
      }
    }
  }

  /** All packets a reader takes off a finished stream, and the error that ends its loop. */
  function ReadAll(stream: Bytes): (seq<Bytes>, FrameError)
    decreases |stream|
  {
    match ReceiveFrame(stream)
    case Err(e) => ([], e)
    case Ok((data, rest)) =>
      assert |rest| < |stream|;
      var (items, e) := ReadAll(rest);
      ([data] + items, e)
  }

  /** Sent lists are read back whole, in order, with nothing left over but the end of the stream. */
  lemma {:induction false} ReadAllOfFrames(items: seq<Bytes>)
    requires forall i :: 0 <= i < |items| ==> 0 < |items[i]| <= MAX_PACKET_SIZE
    ensures ReadAll(Frames(items)) == (items, EndOfStream)
  {
    if items != [] {
      ReceiveOfFrame(items[0], Frames(items[1..]));
      ReadAllOfFrames(items[1..]);
      assert [items[0]] + items[1..] == items;
    }
  }

  function EncodeAll(ps: seq<ClampPacket>): seq<Bytes> {
    seq(|ps|, i requires 0 <= i < |ps| => Encode(ps[i]))
  }

  predicate Sendable(p: ClampPacket) {
    p.WellFormed() && |p.ciphertext| <= MAX_CIPHERTEXT
  }

  /** A packet fits in a frame exactly when its ciphertext is at most 65473 bytes. */
  lemma SendableFits(p: ClampPacket)
    requires p.WellFormed()
    ensures Sendable(p) <==> |Encode(p)| <= MAX_PACKET_SIZE
  {}

  /** Characters of a padded base64 text (section 4 of RFC 4648). */
  function Base64Length(size: nat): nat { 4 * ((size + 2) / 3) }

  /**
   * The plaintext of a file is its base64 text among `overhead` characters of other fields, so its packet fits
   * in a frame exactly up to this many bytes - never above 49104, far below the documented five megabytes.
   */
  lemma FileFitsIff(p: ClampPacket, size: nat, overhead: nat)
    requires p.WellFormed() && |p.ciphertext| == overhead + Base64Length(size)
    ensures Sendable(p) <==> overhead <= MAX_CIPHERTEXT && size <= 3 * ((MAX_CIPHERTEXT - overhead) / 4)
    ensures size > 49104 ==> !Sendable(p)
  {
    assert overhead <= MAX_CIPHERTEXT ==> (Base64Length(size) <= MAX_CIPHERTEXT - overhead <==> (size + 2) / 3 <= (MAX_CIPHERTEXT - overhead) / 4);
    assert overhead <= MAX_CIPHERTEXT ==> (MAX_CIPHERTEXT - overhead) / 4 <= 16368;
  }

  /** Codec and stream together: any list of sendable packets survives framing, reading and decoding. */
  lemma StreamOfPackets(ps: seq<ClampPacket>)
    requires forall i :: 0 <= i < |ps| ==> Sendable(ps[i])
    ensures ReadAll(Frames(EncodeAll(ps))) == (EncodeAll(ps), EndOfStream)
    ensures forall i :: 0 <= i < |ps| ==> Decode(EncodeAll(ps)[i]) == Ok(ps[i])
  {
    ReadAllOfFrames(EncodeAll(ps));
    forall i | 0 <= i < |ps| ensures Decode(EncodeAll(ps)[i]) == Ok(ps[i]) {
      DecodeOfEncode(ps[i]);
    }
  }
}
