/** What a node does with the bytes a peer sends it: decode, route, hand up, relay. */
module Transport {
  import opened Bytes
  import opened Packets
  import opened Routing

  /** Whether a broadcast's plaintext parses as its JSON payload. */
  const BroadcastParses: Bytes -> bool

  /** What the application layer is given; the TTL on the wire is not part of it. */
  datatype AppPacket = AppPacket(
    packetType: PacketType, packetId: PacketId, nonce: Bytes16, ciphertext: Bytes, aeadTag: Bytes16, hopCounter: byte)

  function ForApp(p: ClampPacket): AppPacket {
    AppPacket(p.header.packetType, p.header.packetId, p.nonce, p.ciphertext, p.aeadTag, p.hopAuth.hopCounter)
  }

  /** The effect of one packet: the router afterwards, what is handed up, what is relayed, why it was dropped. */
  datatype Reaction = Reaction(
    router: RouterState, handed: Option<AppPacket>, relayed: Option<ClampPacket>, dropped: Option<DropReason>)

  function Nothing(st: RouterState): Reaction { Reaction(st, None, None, None) }

  function ReactTo(st: RouterState, p: ClampPacket, d: RoutingDecision): Reaction {
    match d
    case DeliverToApp => Reaction(st, Some(ForApp(p)), None, None)
    case Relay => Reaction(st, None, Some(p), None)
    case DeliverAndRelay => Reaction(st, Some(ForApp(p)), Some(p), None)
    case Drop(reason) => Reaction(st, None, None, Some(reason))
  }

  /** Broadcasts skip rate limit, trust and MAC: a replay check, the payload parser, and a relay that keeps the MAC field. */
  function ProcessBroadcast(st: RouterState, p: ClampPacket): Reaction {
    if p.header.packetId in st.cache then Reaction(st, None, None, Some(DuplicatePacket))
    else
      var st' := Register(st, p.header.packetId);
      if !BroadcastParses(p.ciphertext) then Nothing(st')
      else if p.header.ttl == 0 then Reaction(st', Some(ForApp(p)), None, None)
      else Reaction(st', Some(ForApp(p)), Some(StepBroadcast(p)), None)
  }

  function StepBroadcast(p: ClampPacket): ClampPacket
    requires p.header.ttl > 0
  {
    p.(header := p.header.(ttl := p.header.ttl - 1),
       hopAuth := p.hopAuth.(hopCounter := (p.hopAuth.hopCounter + 1) % 256))
  }

  /** Sync and hello packets are answered outside the router and never relayed. */
  function Process(st: RouterState, p: ClampPacket, source: NodeId, now: nat): Reaction {
    if p.header.packetType in {SyncReq, SyncResp, SyncData, Hello} then Nothing(st)
    else if p.header.packetType == Broadcast then ProcessBroadcast(st, p)
    else ProcessRouted(st, p, source, now)
  }

  function ProcessRouted(st: RouterState, p: ClampPacket, source: NodeId, now: nat): Reaction {
    var (st', p', d) := Handle(st, p, source, now);
    ReactTo(st', p', d)
  }

  /** Bytes that do not decode are ignored. */
  function ProcessRaw(st: RouterState, raw: Bytes, source: NodeId, now: nat): Reaction {
    match Decode(raw)
    case Err(_) => Nothing(st)
    case Ok(p) => Process(st, p, source, now)
  }

  const CHANNEL_CAPACITY: nat := 64

  /** Queues after one send attempt to every peer but `except`; a full queue loses the packet. */
  function Offered(queues: map<NodeId, seq<Bytes>>, except: Option<NodeId>, data: Bytes): map<NodeId, seq<Bytes>> {
    map p | p in queues :: if Some(p) != except && |queues[p]| < CHANNEL_CAPACITY then queues[p] + [data] else queues[p]
  }

  function Answered(queues: map<NodeId, seq<Bytes>>, peer: NodeId, data: Bytes): map<NodeId, seq<Bytes>> {
    if peer in queues && |queues[peer]| < CHANNEL_CAPACITY then queues[peer := queues[peer] + [data]] else queues
  }

  /** A sync request is answered to its sender alone. */
  predicate AsksForSync(raw: Bytes) { Decode(raw).Ok? && Decode(raw).value.header.packetType == SyncReq }

  /** The outgoing channel of every connected peer. */
  class PeerSenders {
    var queues: map<NodeId, seq<Bytes>>

    constructor ()
      ensures queues == map[]
    {
      queues := map[];
    }

    method Offer(data: Bytes, except: Option<NodeId>)
      modifies this
      ensures queues == Offered(old(queues), except, data)
    {
      var todo := queues.Keys;
      while todo != {}
        invariant todo <= queues.Keys == old(queues).Keys
        invariant forall p :: p in queues ==>
          queues[p] == if p in todo then old(queues)[p] else Offered(old(queues), except, data)[p]
        decreases |todo|
      {
        var peer :| peer in todo;
        if Some(peer) != except && |queues[peer]| < CHANNEL_CAPACITY {
          queues := queues[peer := queues[peer] + [data]];
        }
        todo := todo - {peer};
      }
    }

    /** Answers one peer, if it is connected and its channel has room. */
    method Answer(peer: NodeId, data: Bytes)
      modifies this
      ensures queues == Answered(old(queues), peer, data)
    {
      if peer in queues && |queues[peer]| < CHANNEL_CAPACITY {
        queues := queues[peer := queues[peer] + [data]];
      }
    }

    /** Forwards to every peer but the one the packet came from. */
    method RelayPacket(p: ClampPacket, sender: NodeId)
      modifies this
      ensures queues == Offered(old(queues), Some(sender), Encode(p))
    {
      Offer(Encode(p), Some(sender));
    }

    /** Sends an own packet to every peer. */
    method BroadcastPacket(p: ClampPacket)
      modifies this
      ensures queues == Offered(old(queues), None, Encode(p))
    {
      Offer(Encode(p), None);
    }
  }

  function HandedUp(inbox: seq<AppPacket>, r: Reaction): seq<AppPacket> {
    if r.handed.Some? then inbox + [r.handed.value] else inbox
  }

  /** A relayed packet goes to every peer but the one it came from. */
  function Forwarded(queues: map<NodeId, seq<Bytes>>, r: Reaction, sender: NodeId): map<NodeId, seq<Bytes>> {
    if r.relayed.Some? then Offered(queues, Some(sender), Encode(r.relayed.value)) else queues
  }

  /** One running node: its router, its peers' channels and what its application was handed, in order. */
  class Node {
    const router: Router
    const senders: PeerSenders
    var inbox: seq<AppPacket>

    ghost predicate Valid()
      reads this, router
    {
      router.Valid() && this !in router.Repr() && senders !in router.Repr()
    }

    ghost function Repr(): set<object>
      reads this, router
    {
      {this, senders} + router.Repr()
    }

    constructor (me: NodeId)
      ensures Valid() && fresh(Repr())
      ensures router.State() == NewRouter(me, ZERO16) && senders.queues == map[] && inbox == []
    {
      router := new Router(me);
      senders := new PeerSenders();
      inbox := [];
    }

    /**
     * The pipeline for one received frame. `answer` is the packet that lists our stored messages; it goes to the
     * sender of a sync request, and the whole other effect is the reaction of `ProcessRaw`.
     */
    method ProcessIncoming(raw: Bytes, sender: NodeId, now: nat, answer: ClampPacket)
      requires Valid()
      modifies Repr()
      ensures Valid() && fresh(Repr() - old(Repr()))
      ensures var r := ProcessRaw(old(router.State()), raw, sender, now);
              && router.State() == r.router && inbox == HandedUp(old(inbox), r)
              && senders.queues == if AsksForSync(raw) then Answered(old(senders.queues), sender, Encode(answer))
                                   else Forwarded(old(senders.queues), r, sender)
    {
      var decoded := Decode(raw);
      if decoded.Err? {
        return;
      }
      var p := decoded.value;
      if p.header.packetType == SyncReq {
        senders.Answer(sender, Encode(answer));
        return;
      }
      if p.header.packetType in {SyncResp, SyncData, Hello} {
        return;
      }
      if p.header.packetType == Broadcast {
        IncomingBroadcast(p, sender);
        return;
      }
      IncomingRouted(p, sender, now);
    }

    method IncomingRouted(p: ClampPacket, sender: NodeId, now: nat)
      requires Valid()
      modifies Repr()
      ensures Valid() && fresh(Repr() - old(Repr()))
      ensures var r := ProcessRouted(old(router.State()), p, sender, now);
              && router.State() == r.router
              && inbox == HandedUp(old(inbox), r) && senders.queues == Forwarded(old(senders.queues), r, sender)
    {
      var routed, decision := Route(p, sender, now);
      Act(routed, decision, sender);
    }

    /** The router's verdict, and the packet as the router has rewritten it. */
    method Route(p: ClampPacket, sender: NodeId, now: nat) returns (routed: ClampPacket, decision: RoutingDecision)
      requires Valid()
      modifies router.Repr()
      ensures Valid() && fresh(Repr() - old(Repr()))
      ensures (router.State(), routed, decision) == Handle(old(router.State()), p, sender, now)
      ensures inbox == old(inbox) && senders.queues == old(senders.queues)
    {
      var buffer := new PacketBuffer(p);
      decision := router.HandleIncoming(buffer, sender, now);
      routed := buffer.packet;
    }

    /** Carries out a routing decision. */
    method Act(p: ClampPacket, decision: RoutingDecision, sender: NodeId)
      requires Valid()
      modifies this`inbox, senders
      ensures Valid() && Repr() == old(Repr()) && router.State() == old(router.State())
      ensures var r := ReactTo(router.State(), p, decision);
              && inbox == HandedUp(old(inbox), r) && senders.queues == Forwarded(old(senders.queues), r, sender)
    {
      if decision.DeliverToApp? || decision.DeliverAndRelay? {
        inbox := inbox + [ForApp(p)];
      }
      if decision.Relay? || decision.DeliverAndRelay? {
        senders.RelayPacket(p, sender);
      }
    }

    method IncomingBroadcast(p: ClampPacket, sender: NodeId)
      requires Valid()
      modifies this`inbox, senders, router.packetCache
      ensures Valid() && Repr() == old(Repr())
      ensures var r := ProcessBroadcast(old(router.State()), p);
              && router.State() == r.router
              && inbox == HandedUp(old(inbox), r) && senders.queues == Forwarded(old(senders.queues), r, sender)
    {
      var seen := router.packetCache.Contains(p.header.packetId);
      if seen {
        return;
      }
      router.RegisterId(p.header.packetId);
      if BroadcastParses(p.ciphertext) {
        inbox := inbox + [ForApp(p)];
        RelayBroadcast(p, sender);
      }
    }

    method RelayBroadcast(p: ClampPacket, sender: NodeId)
      modifies senders
      ensures senders.queues == if p.header.ttl > 0 then Offered(old(senders.queues), Some(sender), Encode(StepBroadcast(p)))
                                else old(senders.queues)
    {
      if p.header.ttl > 0 {
        senders.RelayPacket(StepBroadcast(p), sender);
      }
    }
  }
}
