/**
 * When a node takes a packet in, why it refuses one, and what each verdict leaves behind: written out over any router
 * state and any bytes, in terms of scores, tokens, ids and MAC inputs.
 */
module Verdicts {
  import opened Bytes
  import opened Packets
  import opened Crypto
  import opened ReplayCache
  import opened Routing
  import opened Transport

  /** The MAC input determines id, hop counter and the four bytes of the node, and nothing more. */
  lemma MacInputIff(id1: PacketId, hop1: byte, node1: NodeId, id2: PacketId, hop2: byte, node2: NodeId)
    ensures |MacInput(id1, hop1, node1)| == 13
    ensures MacInput(id1, hop1, node1) == MacInput(id2, hop2, node2) <==> id1 == id2 && hop1 == hop2 && node1[..4] == node2[..4]
  {
    var a, b := MacInput(id1, hop1, node1), MacInput(id2, hop2, node2);
    assert a[..8] == id1 && a[8] == hop1 && a[9..] == node1[..4];
    assert b[..8] == id2 && b[8] == hop2 && b[9..] == node2[..4];
  }

  // ---- the router -----------------------------------------------------------------------------

  /** A new source, a token left, or 10 ms since the last refill. */
  predicate HasToken(st: RouterState, source: NodeId, now: nat) {
    source in st.buckets ==> st.buckets[source].tokens > 0 || now >= st.buckets[source].lastRefill + 10_000_000
  }

  function Score(st: RouterState, peer: NodeId): int { if peer in st.trust then st.trust[peer] else 200 }

  /** The tag is the MAC of packet id, hop counter and the first four bytes of the sending node. */
  predicate TagIsRight(key: MacKey, p: ClampPacket, node: NodeId) {
    p.hopAuth.macTag == ComputeMac(key, p.header.packetId + [p.hopAuth.hopCounter] + node[..4])
  }

  /** A packet is taken in exactly if source, score, id and tag are all in order. */
  lemma AcceptedIff(st: RouterState, p: ClampPacket, source: NodeId, now: nat)
    ensures !Handle(st, p, source, now).2.Drop? <==>
            && HasToken(st, source, now) && Score(st, source) >= 50
            && p.header.packetId !in st.cache
            && (p.header.packetType == Hello || TagIsRight(st.key, p, source))
  {}

  /** A score moved by `delta` and kept in 0..500; nobody else's moved. */
  ghost predicate ScoreMoved(st: RouterState, st': RouterState, source: NodeId, delta: int) {
    && (var sum := Score(st, source) + delta;
        (0 <= sum <= 500 ==> Score(st', source) == sum) && (sum < 0 ==> Score(st', source) == 0) && (sum > 500 ==> Score(st', source) == 500))
    && forall other :: other != source ==> Score(st', other) == Score(st, other)
  }

  /** The first check that fails names the reason and the penalty; what is refused changes neither cache nor packet. */
  lemma RefusedFor(st: RouterState, p: ClampPacket, source: NodeId, now: nat)
    requires Handle(st, p, source, now).2.Drop?
    ensures var (st', p', d) := Handle(st, p, source, now);
            && st'.cache == st.cache && st'.key == st.key && st'.me == st.me && p' == p
            && if !HasToken(st, source, now) then d.reason == RateLimitExceeded && ScoreMoved(st, st', source, -100)
               else if Score(st, source) < 50 then d.reason == PeerUntrusted && st'.trust == st.trust
               else if p.header.packetId in st.cache then d.reason == DuplicatePacket && st'.trust == st.trust
               else d.reason == InvalidHopMac && ScoreMoved(st, st', source, -50)
  {}

  /** A packet that is taken in is remembered, moves the score up by a hundredth and is passed on while TTL is left. */
  lemma AcceptedLeaves(st: RouterState, p: ClampPacket, source: NodeId, now: nat)
    requires !Handle(st, p, source, now).2.Drop?
    ensures var (st', p', d) := Handle(st, p, source, now);
            && st'.cache == Put(st.cache, p.header.packetId) && ScoreMoved(st, st', source, 1)
            && st'.key == st.key && st'.me == st.me
            && if p.header.ttl == 0 then d == DeliverToApp && p' == p
               else d == DeliverAndRelay && Stepped(p, p') && TagIsRight(st.key, p', st.me)
  {}

  /** One hop further: TTL down, hop counter up in a byte, and everything but the tag as it was. */
  ghost predicate Stepped(p: ClampPacket, q: ClampPacket) {
    && q.header == p.header.(ttl := q.header.ttl) && q.header.ttl + 1 == p.header.ttl
    && q.hopAuth.hopCounter == (if p.hopAuth.hopCounter == 255 then 0 else p.hopAuth.hopCounter + 1)
    && q.nonce == p.nonce && q.ciphertext == p.ciphertext && q.aeadTag == p.aeadTag
  }

  /** One source's packet charges that source alone, a token whether or not the packet is then refused. */
  lemma ChargedAlone(st: RouterState, p: ClampPacket, source: NodeId, now: nat)
    ensures var st' := Handle(st, p, source, now).0;
            && source in st'.buckets && st'.buckets.Keys == st.buckets.Keys + {source}
            && forall other :: other in st.buckets && other != source ==> st'.buckets[other] == st.buckets[other]
  {}

  // ---- frames ---------------------------------------------------------------------------------

  /** The bytes of a packet are handled as that packet. */
  lemma FrameIsPacket(st: RouterState, p: ClampPacket, source: NodeId, now: nat)
    requires p.WellFormed()
    ensures ProcessRaw(st, Encode(p), source, now) == Process(st, p, source, now)
  {
    DecodeOfEncode(p);
  }

  /** Nothing of a node changes, and nothing leaves it. */
  ghost predicate Untouched(st: RouterState, r: Reaction) { r.router == st && r.handed == None && r.relayed == None && r.dropped == None }

  /** Bytes that are no packet, and the bytes of sync and hello packets, never get to the router or the inbox. */
  lemma OtherFramesPass(st: RouterState, raw: Bytes, source: NodeId, now: nat)
    requires forall p: ClampPacket :: p.WellFormed() && raw == Encode(p) ==> p.header.packetType in {SyncReq, SyncResp, SyncData, Hello}
    ensures Untouched(st, ProcessRaw(st, raw, source, now))
  {
    if Decode(raw).Ok? {
      EncodeOfDecode(raw);
    }
  }

  /** Only the frame of a sync request is answered, to the channel of its sender. */
  lemma OnlyRequestsAreAnswered(raw: Bytes)
    ensures AsksForSync(raw) <==> exists p: ClampPacket :: p.WellFormed() && raw == Encode(p) && p.header.packetType == SyncReq
  {
    if AsksForSync(raw) {
      EncodeOfDecode(raw);
    }
    forall p: ClampPacket | p.WellFormed() && raw == Encode(p) ensures Decode(raw) == Ok(p) {
      DecodeOfEncode(p);
    }
  }

  /** What the application gets of a packet: its fields without the TTL. */
  ghost predicate ShowsPacket(a: AppPacket, p: ClampPacket) {
    && a.packetType == p.header.packetType && a.packetId == p.header.packetId
    && a.nonce == p.nonce && a.ciphertext == p.ciphertext && a.aeadTag == p.aeadTag && a.hopCounter == p.hopAuth.hopCounter
  }

  /**
   * The frame of a DM, file or channel packet: handed up exactly if it is taken in, and relayed exactly if TTL is left
   * too, one hop further under this node's tag. The hop counter shown is the stepped one.
   */
  lemma RoutedFrame(st: RouterState, p: ClampPacket, source: NodeId, now: nat)
    requires p.WellFormed() && p.header.packetType in {Dm, File, Channel}
    ensures var r := ProcessRaw(st, Encode(p), source, now);
            && r.router == Handle(st, p, source, now).0
            && (r.handed.Some? <==> HasToken(st, source, now) && Score(st, source) >= 50
                                    && p.header.packetId !in st.cache && TagIsRight(st.key, p, source))
            && (r.relayed.Some? <==> r.handed.Some? && p.header.ttl > 0)
            && (r.relayed.Some? ==> Stepped(p, r.relayed.value) && TagIsRight(st.key, r.relayed.value, st.me))
            && (r.handed.Some? ==> ShowsPacket(r.handed.value, if p.header.ttl > 0 then r.relayed.value else p))
            && (r.dropped.Some? <==> r.handed.None?)
  {
    FrameIsPacket(st, p, source, now);
    AcceptedIff(st, p, source, now);
    if Handle(st, p, source, now).2.Drop? {
      RefusedFor(st, p, source, now);
    } else {
      AcceptedLeaves(st, p, source, now);
    }
  }

  /**
   * The frame of a broadcast: remembered exactly if its id is new, handed up exactly if its payload parses as well, and
   * relayed exactly if TTL is left too, with the tag it came with. Buckets and scores play no part.
   */
  lemma BroadcastFrame(st: RouterState, p: ClampPacket, source: NodeId, now: nat)
    requires p.WellFormed() && p.header.packetType == Broadcast
    ensures var r, id := ProcessRaw(st, Encode(p), source, now), p.header.packetId;
            && r.router == (if id in st.cache then st else st.(cache := Put(st.cache, id)))
            && (r.handed.Some? <==> id !in st.cache && BroadcastParses(p.ciphertext))
            && (r.relayed.Some? <==> r.handed.Some? && p.header.ttl > 0)
            && (r.relayed.Some? ==> Stepped(p, r.relayed.value) && r.relayed.value.hopAuth.macTag == p.hopAuth.macTag)
            && (r.handed.Some? ==> ShowsPacket(r.handed.value, p))
            && r.dropped == (if id in st.cache then Some(DuplicatePacket) else None)
  {
    FrameIsPacket(st, p, source, now);
  }

  // ---- channels -------------------------------------------------------------------------------

  /** An offer appends the bytes to every channel but the excepted one that holds fewer than 64, and changes no other. */
  lemma OfferedTo(queues: map<NodeId, seq<Bytes>>, except: Option<NodeId>, data: Bytes)
    ensures var after := Offered(queues, except, data);
            && after.Keys == queues.Keys
            && forall v :: v in queues ==>
                 after[v] == if except == Some(v) || |queues[v]| >= 64 then queues[v] else queues[v] + [data]
  {}

  /** An answer goes to the asking peer's channel, if it is connected and its channel holds fewer than 64. */
  lemma AnsweredTo(queues: map<NodeId, seq<Bytes>>, peer: NodeId, data: Bytes)
    ensures var after := Answered(queues, peer, data);
            && after.Keys == queues.Keys
            && forall v :: v in queues ==>
                 after[v] == if v != peer || |queues[v]| >= 64 then queues[v] else queues[v] + [data]
  {}
}
