/** One node's routing engine: rate limit, trust, replay cache, hop MAC and TTL rewriting. */
module Routing {
  import opened Bytes
  import opened Packets
  import opened Crypto
  import opened RateLimit
  import opened ReplayCache

  // Trust scores in hundredths.
  const TRUST_INITIAL := 200
  const TRUST_THRESHOLD := 50
  const TRUST_VALID_DELTA := 1
  const TRUST_INVALID_MAC_DELTA := -50
  const TRUST_RATE_LIMIT_DELTA := -100
  const TRUST_MAX := 500

  datatype DropReason =
    | InvalidMagic | DuplicatePacket | InvalidHopMac | TtlExpired | TimestampInvalid | PeerUntrusted | RateLimitExceeded

  datatype RoutingDecision = DeliverToApp | Relay | DeliverAndRelay | Drop(reason: DropReason)

  datatype RouterState = RouterState(
    cache: Cache,
    trust: map<NodeId, int>,
    buckets: map<NodeId, Bucket>,
    key: MacKey,
    me: NodeId)

  function NewRouter(me: NodeId, key: MacKey): RouterState {
    RouterState([], map[], map[], key, me)
  }

  /** Packet id, hop counter and the first four bytes of the sending node's id. */
  function MacInput(id: PacketId, hop: byte, node: NodeId): Bytes {
    id + [hop] + node[..4]
  }

  function HopMac(key: MacKey, id: PacketId, hop: byte, node: NodeId): Bytes16 {
    ComputeMac(key, MacInput(id, hop, node))
  }

  function TrustOf(st: RouterState, peer: NodeId): int {
    if peer in st.trust then st.trust[peer] else TRUST_INITIAL
  }

  function Clamp(score: int): int {
    if score < 0 then 0 else if score > TRUST_MAX then TRUST_MAX else score
  }

  function UpdateTrust(st: RouterState, peer: NodeId, delta: int): RouterState {
    st.(trust := st.trust[peer := Clamp(TrustOf(st, peer) + delta)])
  }

  function BucketOf(st: RouterState, source: NodeId, now: nat): Bucket {
    if source in st.buckets then st.buckets[source] else NewBucket(now)
  }

  /** TTL down, hop counter up (in 8 bits), and the MAC recomputed with this node as sender. */
  function RewriteForRelay(st: RouterState, p: ClampPacket): ClampPacket
    requires p.header.ttl > 0
  {
    var hop := (p.hopAuth.hopCounter + 1) % 256;
    p.(header := p.header.(ttl := p.header.ttl - 1),
       hopAuth := HopAuth(hop, HopMac(st.key, p.header.packetId, hop, st.me)))
  }

  /** A packet that passed every check is remembered, rewarded, handed up and, with TTL left, relayed. */
  function Accept(st: RouterState, p: ClampPacket, source: NodeId): (RouterState, ClampPacket, RoutingDecision) {
    var st' := UpdateTrust(Register(st, p.header.packetId), source, TRUST_VALID_DELTA);
    if p.header.ttl > 0 then (st', RewriteForRelay(st', p), DeliverAndRelay) else (st', p, DeliverToApp)
  }

  /** What happens to a packet the rate limit lets through. */
  function Screen(st: RouterState, p: ClampPacket, source: NodeId): (RouterState, ClampPacket, RoutingDecision) {
    if TrustOf(st, source) < TRUST_THRESHOLD then
      (st, p, Drop(PeerUntrusted))
    else if p.header.packetId in st.cache then
      (st, p, Drop(DuplicatePacket))
    else if p.header.packetType != Hello &&
            !VerifyMac(st.key, MacInput(p.header.packetId, p.hopAuth.hopCounter, source), p.hopAuth.macTag) then
      (UpdateTrust(st, source, TRUST_INVALID_MAC_DELTA), p, Drop(InvalidHopMac))
    else Accept(st, p, source)
  }

  /** Router state, packet and decision after one incoming packet. */
  function Handle(st: RouterState, p: ClampPacket, source: NodeId, now: nat): (RouterState, ClampPacket, RoutingDecision) {
    var (allowed, bucket) := Consume(BucketOf(st, source, now), now);
    var st' := st.(buckets := st.buckets[source := bucket]);
    if allowed then Screen(st', p, source)
    else (UpdateTrust(st', source, TRUST_RATE_LIMIT_DELTA), p, Drop(RateLimitExceeded))
  }

  /** Registers an id without any check: own packets and accepted broadcasts. */
  function Register(st: RouterState, id: PacketId): RouterState {
    st.(cache := Put(st.cache, id))
  }

  /** A packet that is rewritten in place while it is processed. */
  class PacketBuffer {
    var packet: ClampPacket

    constructor (p: ClampPacket)
      ensures packet == p
    {
      packet := p;
    }
  }

  class Router {
    const packetCache: LruCache
    var trustScores: map<NodeId, int>
    var rateLimiters: map<NodeId, TokenBucket>
    var channelMacKey: MacKey
    const myNodeId: NodeId

    /** No two peers share a bucket. */
    ghost predicate Valid()
      reads this
    {
      forall a, b :: a in rateLimiters && b in rateLimiters && a != b ==> rateLimiters[a] != rateLimiters[b]
    }

    ghost function Repr(): set<object>
      reads this
    {
      {this, packetCache} + set s | s in rateLimiters :: rateLimiters[s]
    }

    ghost function State(): RouterState
      reads Repr()
    {
      RouterState(packetCache.entries, trustScores, map s | s in rateLimiters :: rateLimiters[s].Value(), channelMacKey, myNodeId)
    }

    constructor (me: NodeId)
      ensures Valid() && fresh(Repr())
      ensures State() == NewRouter(me, ZERO16)
    {
      packetCache := new LruCache();
      trustScores := map[];
      rateLimiters := map[];
      channelMacKey := ZERO16;
      myNodeId := me;
      new;
    }

    method SetChannelKey(key: MacKey)
      requires Valid()
      modifies this`channelMacKey
      ensures Valid() && Repr() == old(Repr())
      ensures State() == old(State()).(key := key)
    {
      channelMacKey := key;
    }

    method AdjustTrust(peer: NodeId, delta: int)
      requires Valid()
      modifies this`trustScores
      ensures Valid() && Repr() == old(Repr())
      ensures State() == UpdateTrust(old(State()), peer, delta)
    {
      var score := if peer in trustScores then trustScores[peer] else TRUST_INITIAL;
      trustScores := trustScores[peer := Clamp(score + delta)];
    }

    method EnsureBucket(source: NodeId, now: nat)
      requires Valid()
      modifies this`rateLimiters
      ensures Valid() && fresh(Repr() - old(Repr())) && source in rateLimiters
      ensures State() == old(State()).(buckets := old(State()).buckets[source := BucketOf(old(State()), source, now)])
    {
      if source !in rateLimiters {
        var created := new TokenBucket(now);
        rateLimiters := rateLimiters[source := created];
      }
    }

    method Charge(source: NodeId, now: nat) returns (allowed: bool)
      requires Valid() && source in rateLimiters
      modifies rateLimiters[source]
      ensures Valid() && Repr() == old(Repr())
      ensures var (ok, bucket) := Consume(old(State()).buckets[source], now);
              allowed == ok && State() == old(State()).(buckets := old(State()).buckets[source := bucket])
    {
      ghost var before := State();
      allowed := rateLimiters[source].ConsumeToken(now);
      assert State().buckets == before.buckets[source := rateLimiters[source].Value()];
    }

    /** The bucket of a source, created full on its first packet, charged for one packet. */
    method ConsumeFrom(source: NodeId, now: nat) returns (allowed: bool)
      requires Valid()
      modifies Repr()
      ensures Valid() && fresh(Repr() - old(Repr()))
      ensures var (ok, bucket) := Consume(BucketOf(old(State()), source, now), now);
              allowed == ok && State() == old(State()).(buckets := old(State()).buckets[source := bucket])
    {
      EnsureBucket(source, now);
      allowed := Charge(source, now);
    }

    method HandleIncoming(buffer: PacketBuffer, source: NodeId, now: nat) returns (decision: RoutingDecision)
      requires Valid() && buffer !in Repr()
      modifies Repr(), buffer
      ensures Valid() && fresh(Repr() - old(Repr()))
      ensures (State(), buffer.packet, decision) == Handle(old(State()), old(buffer.packet), source, now)
    {
      var allowed := ConsumeFrom(source, now);
      if !allowed {
        AdjustTrust(source, TRUST_RATE_LIMIT_DELTA);
        return Drop(RateLimitExceeded);
      }
      decision := ScreenIncoming(buffer, source);
    }

    method ScreenIncoming(buffer: PacketBuffer, source: NodeId) returns (decision: RoutingDecision)
      requires Valid() && buffer !in Repr()
      modifies this`trustScores, packetCache, buffer
      ensures Valid() && Repr() == old(Repr())
      ensures (State(), buffer.packet, decision) == Screen(old(State()), old(buffer.packet), source)
    {
      var trust := if source in trustScores then trustScores[source] else TRUST_INITIAL;
      if trust < TRUST_THRESHOLD {
        return Drop(PeerUntrusted);
      }
      var id := buffer.packet.header.packetId;
      var seen := packetCache.Contains(id);
      if seen {
        return Drop(DuplicatePacket);
      }
      if buffer.packet.header.packetType != Hello {
        var valid := CheckMac(channelMacKey, MacInput(id, buffer.packet.hopAuth.hopCounter, source), buffer.packet.hopAuth.macTag);
        if !valid {
          AdjustTrust(source, TRUST_INVALID_MAC_DELTA);
          return Drop(InvalidHopMac);
        }
      }
      decision := AcceptIncoming(buffer, source);
    }

    method AcceptIncoming(buffer: PacketBuffer, source: NodeId) returns (decision: RoutingDecision)
      requires Valid() && buffer !in Repr()
      modifies this`trustScores, packetCache, buffer
      ensures Valid() && Repr() == old(Repr())
      ensures (State(), buffer.packet, decision) == Accept(old(State()), old(buffer.packet), source)
    {
      RegisterId(buffer.packet.header.packetId);
      AdjustTrust(source, TRUST_VALID_DELTA);
      if buffer.packet.header.ttl > 0 {
        ghost var accepted := State();
        PrepareRelay(buffer);
        assert State() == accepted;
        return DeliverAndRelay;
      }
      return DeliverToApp;
    }

    /** Steps TTL and hop counter and replaces the MAC, field by field. */
    method PrepareRelay(buffer: PacketBuffer)
      requires buffer !in Repr() && buffer.packet.header.ttl > 0
      modifies buffer
      ensures buffer.packet == RewriteForRelay(State(), old(buffer.packet))
    {
      buffer.packet := buffer.packet.(header := buffer.packet.header.(ttl := buffer.packet.header.ttl - 1));
      buffer.packet := buffer.packet.(hopAuth := buffer.packet.hopAuth.(hopCounter := (buffer.packet.hopAuth.hopCounter + 1) % 256));
      var tag := HopMac(channelMacKey, buffer.packet.header.packetId, buffer.packet.hopAuth.hopCounter, myNodeId);
      buffer.packet := buffer.packet.(hopAuth := buffer.packet.hopAuth.(macTag := tag));
    }

    method RegisterId(id: PacketId)
      requires Valid()
      modifies packetCache
      ensures Valid() && Repr() == old(Repr())
      ensures State() == Register(old(State()), id)
    {
      packetCache.PutId(id);
    }
  }
}
