/**
 * The network as a state machine: nodes that all run the code, fixed symmetric links, and copies of packets
 * on the wire that arrive in any order or are lost.
 */
module Mesh {
  import opened Bytes
  import opened Packets
  import opened Framing
  import opened Crypto
  import opened Routing
  import opened Transport

  datatype Link = Link(from: NodeId, to: NodeId)

  /** Who is connected to whom, and the MAC key all routers share. */
  datatype Topology = Topology(nodes: set<NodeId>, links: set<Link>, key: MacKey)

  ghost predicate ValidTopology(m: Topology) {
    forall l :: l in m.links ==> l.from in m.nodes && l.to in m.nodes && l.from != l.to && Link(l.to, l.from) in m.links
  }

  /** One packet on its way from one node to a neighbour. */
  datatype Copy = Copy(from: NodeId, to: NodeId, pkt: ClampPacket)

  /** A packet id crossing a link in one direction. */
  datatype Crossing = Crossing(from: NodeId, to: NodeId, id: PacketId)

  function CrossingOf(c: Copy): Crossing { Crossing(c.from, c.to, c.pkt.header.packetId) }

  datatype Origin = Origin(node: NodeId, packet: ClampPacket)

  datatype Key = Key(node: NodeId, id: PacketId)

  /** That a node took a packet in: how many hops it had travelled, and from which neighbour it came. */
  datatype Visit = Visit(depth: nat, parent: NodeId)

  datatype Handed = Handed(node: NodeId, app: AppPacket)

  /**
   * The network: each node's router and the copies on the wire, followed by the record of the run - who
   * originated what, who took what in, which crossings were sent, received and lost, which of those received
   * were refused for another reason than replay, what was handed up, and why packets were dropped.
   */
  datatype Net = Net(
    routers: map<NodeId, RouterState>,
    flight: multiset<Copy>,
    origins: map<PacketId, Origin>,
    visits: map<Key, Visit>,
    sent: set<Crossing>,
    got: set<Crossing>,
    lost: set<Crossing>,
    refused: set<Crossing>,
    inbox: multiset<Handed>,
    drops: set<DropReason>)

  function Quiet(m: Topology): Net {
    Net(map v | v in m.nodes :: NewRouter(v, m.key), multiset{}, map[], map[], {}, {}, {}, {}, multiset{}, {})
  }

  /** Copies of `p` from `u` to every neighbour but `except`. */
  function Fan(m: Topology, u: NodeId, except: NodeId, p: ClampPacket): (r: set<Copy>)
    ensures forall c :: c in r <==> c.from == u && c.pkt == p && Link(u, c.to) in m.links && c.to != except
  {
    assert forall v :: Link(u, v) in m.links ==> Link(u, v).to == v;
    set l | l in m.links && l.from == u && l.to != except :: Copy(u, l.to, p)
  }

  function Crossings(copies: set<Copy>): set<Crossing> { set c | c in copies :: CrossingOf(c) }

  /** The bytes of a packet through frame, reader and decoder. */
  function Wire(p: ClampPacket): Option<ClampPacket> {
    match ReceiveFrame(Frame(Encode(p)))
    case Err(_) => None
    case Ok((raw, _)) =>
      match Decode(raw)
      case Err(_) => None
      case Ok(q) => Some(q)
  }

  lemma WireIsFaithful(p: ClampPacket)
    requires Sendable(p)
    ensures Wire(p) == Some(p)
  {
    SendableFits(p);
    assert Frame(Encode(p)) + [] == Frame(Encode(p));
    ReceiveOfFrame(Encode(p), []);
    DecodeOfEncode(p);
  }

  /**
   * The packets `send_dm`, `send_file` and `build_broadcast` make at node `u`: hop counter 0, full TTL, and
   * for DM and file the origin's MAC. Only those that fit in a frame reach a peer at all.
   */
  predicate Originated(m: Topology, u: NodeId, p: ClampPacket) {
    && Sendable(p)
    && p.hopAuth.hopCounter == 0
    && (p.header.packetType == Broadcast ==> p.header.ttl == TTL_BROADCAST && BroadcastParses(p.ciphertext))
    && (p.header.packetType != Broadcast ==>
          && p.header.packetType in {Dm, File}
          && p.header.ttl == TTL_MAX
          && p.hopAuth.macTag == HopMac(m.key, p.header.packetId, 0, u))
  }

  datatype Event =
    | Originate(node: NodeId, packet: ClampPacket)
    | Deliver(copy: Copy, now: nat)
    | Lose(copy: Copy)

  /** Packet ids are random, so an originated id is new; copies are delivered or lost only while on the wire. */
  ghost predicate Enabled(m: Topology, net: Net, e: Event) {
    match e
    case Originate(u, p) =>
      u in m.nodes && u in net.routers && p.header.packetId !in net.origins && Originated(m, u, p)
    case Deliver(c, _) => c in net.flight && c.to in net.routers
    case Lose(c) => c in net.flight
  }

  /** An own packet is registered in the router and sent to every neighbour. */
  function AfterOriginate(m: Topology, net: Net, u: NodeId, p: ClampPacket): Net
    requires u in net.routers
  {
    var id := p.header.packetId;
    var fan := Fan(m, u, u, p);
    net.(routers := net.routers[u := Register(net.routers[u], id)],
         flight := net.flight + multiset(fan),
         origins := net.origins[id := Origin(u, p)],
         visits := net.visits[Key(u, id) := Visit(0, u)],
         sent := net.sent + Crossings(fan))
  }

  /** The copies a reaction puts on the wire. */
  function Relays(m: Topology, c: Copy, r: Reaction): set<Copy> {
    if r.relayed.Some? then Fan(m, c.to, c.from, r.relayed.value) else {}
  }

  /** The receiving node's reaction to a copy, applied to the network. */
  function AfterReaction(m: Topology, net: Net, c: Copy, r: Reaction): Net {
    var id := c.pkt.header.packetId;
    var fan := Relays(m, c, r);
    net.(routers := net.routers[c.to := r.router],
         flight := net.flight - multiset{c} + multiset(fan),
         visits := if r.handed.Some? then net.visits[Key(c.to, id) := Visit(c.pkt.hopAuth.hopCounter + 1, c.from)] else net.visits,
         sent := net.sent + Crossings(fan),
         got := net.got + {CrossingOf(c)},
         refused := if r.dropped.Some? && r.dropped != Some(DuplicatePacket) then net.refused + {CrossingOf(c)} else net.refused,
         inbox := if r.handed.Some? then net.inbox + multiset{Handed(c.to, r.handed.value)} else net.inbox,
         drops := if r.dropped.Some? then net.drops + {r.dropped.value} else net.drops)
  }

  /** A node's outgoing channels: one to each neighbour, none of them full. */
  ghost predicate OpenQueues(m: Topology, u: NodeId, queues: map<NodeId, seq<Bytes>>) {
    && (forall v :: v in queues <==> Link(u, v) in m.links)
    && (forall v :: v in queues ==> |queues[v]| < CHANNEL_CAPACITY)
  }

  /** What a node puts into its channels is what the network puts on the wire: for a relay as for an own packet. */
  lemma QueuesAreCopies(m: Topology, c: Copy, r: Reaction, p: ClampPacket, queues: map<NodeId, seq<Bytes>>)
    requires ValidTopology(m) && OpenQueues(m, c.to, queues)
    ensures forall v :: v in queues ==>
              Forwarded(queues, r, c.from)[v] ==
              if r.relayed.Some? && Copy(c.to, v, r.relayed.value) in Relays(m, c, r) then queues[v] + [Encode(r.relayed.value)] else queues[v]
    ensures forall v :: v in queues ==> Copy(c.to, v, p) in Fan(m, c.to, c.to, p) && Offered(queues, None, Encode(p))[v] == queues[v] + [Encode(p)]
    ensures forall d :: d in Relays(m, c, r) + Fan(m, c.to, c.to, p) ==> d.from == c.to && d.to in queues
  {}

  function ReactionTo(net: Net, c: Copy, now: nat): Reaction
    requires c.to in net.routers
  {
    match Wire(c.pkt)
    case None => Nothing(net.routers[c.to])
    case Some(p) => Process(net.routers[c.to], p, c.from, now)
  }

  function AfterLoss(net: Net, c: Copy): Net {
    net.(flight := net.flight - multiset{c}, lost := net.lost + {CrossingOf(c)})
  }

  ghost function Apply(m: Topology, net: Net, e: Event): Net
    requires Enabled(m, net, e)
  {
    match e
    case Originate(u, p) => AfterOriginate(m, net, u, p)
    case Deliver(c, now) => AfterReaction(m, net, c, ReactionTo(net, c, now))
    case Lose(c) => AfterLoss(net, c)
  }

  // ---- runs -----------------------------------------------------------------------------

  ghost predicate IsRun(m: Topology, es: seq<Event>)
    decreases |es|, 0
  {
    es == [] || (IsRun(m, es[..|es| - 1]) && Enabled(m, NetAfter(m, es[..|es| - 1]), es[|es| - 1]))
  }

  /** The network after a run from the quiet state. */
  ghost function NetAfter(m: Topology, es: seq<Event>): Net
    requires IsRun(m, es)
    decreases |es|, 1
  {
    if es == [] then Quiet(m) else Apply(m, NetAfter(m, es[..|es| - 1]), es[|es| - 1])
  }

  lemma RunExtends(m: Topology, front: seq<Event>, e: Event)
    requires IsRun(m, front) && Enabled(m, NetAfter(m, front), e)
    ensures IsRun(m, front + [e]) && NetAfter(m, front + [e]) == Apply(m, NetAfter(m, front), e)
  {
    assert (front + [e])[..|front|] == front;
  }

  /** The run that only originates a packet. */
  lemma FirstEvent(m: Topology, u: NodeId, p: ClampPacket)
    requires u in m.nodes && Originated(m, u, p)
    ensures var es := [Originate(u, p)];
            IsRun(m, es) && u in Quiet(m).routers && NetAfter(m, es) == AfterOriginate(m, Quiet(m), u, p)
  {
    assert IsRun(m, []) && NetAfter(m, []) == Quiet(m);
    RunExtends(m, [], Originate(u, p));
    assert [] + [Originate(u, p)] == [Originate(u, p)];
  }

  // ---- the hop invariant ----------------------------------------------------------------

  /** A copy that only honest nodes can have put on the wire from `u`. */
  ghost predicate HonestPacket(m: Topology, u: NodeId, p: ClampPacket) {
    && Sendable(p)
    && p.header.packetType in {Dm, File, Broadcast}
    && (p.header.packetType == Broadcast ==> p.header.ttl + p.hopAuth.hopCounter == TTL_BROADCAST && BroadcastParses(p.ciphertext))
    && (p.header.packetType != Broadcast ==>
          && p.header.ttl + p.hopAuth.hopCounter == TTL_MAX
          && p.hopAuth.macTag == HopMac(m.key, p.header.packetId, p.hopAuth.hopCounter, u))
  }

  ghost predicate RoutersOk(m: Topology, routers: map<NodeId, RouterState>) {
    routers.Keys == m.nodes && forall v :: v in routers ==> routers[v].me == v && routers[v].key == m.key
  }

  ghost predicate HonestFlight(m: Topology, flight: multiset<Copy>) {
    forall c :: c in flight ==> Link(c.from, c.to) in m.links && HonestPacket(m, c.from, c.pkt)
  }

  /** What a router makes of an honest packet it relays is honest again, one hop further. */
  lemma HonestRelay(m: Topology, st: RouterState, u: NodeId, p: ClampPacket, now: nat)
    requires st.key == m.key && HonestPacket(m, u, p)
    ensures var r := Process(st, p, u, now);
            && r.router.me == st.me && r.router.key == st.key
            && (r.relayed.Some? ==>
                  && HonestPacket(m, st.me, r.relayed.value)
                  && r.relayed.value.header.packetId == p.header.packetId
                  && r.relayed.value.hopAuth.hopCounter == p.hopAuth.hopCounter + 1
                  && r.relayed.value.header.ttl == p.header.ttl - 1)
            && r.dropped != Some(InvalidHopMac)
  {}

  lemma HonestAfterOriginate(m: Topology, net: Net, u: NodeId, p: ClampPacket)
    requires ValidTopology(m) && u in net.routers && Originated(m, u, p)
    requires RoutersOk(m, net.routers) && HonestFlight(m, net.flight)
    ensures var n := AfterOriginate(m, net, u, p); RoutersOk(m, n.routers) && HonestFlight(m, n.flight)
  {
    FlightGrows(net.flight, Fan(m, u, u, p));
    assert HonestPacket(m, u, p);
  }

  lemma RoutersAfterReaction(m: Topology, net: Net, c: Copy, r: Reaction)
    requires c.to in net.routers && r.router.me == c.to && r.router.key == m.key
    requires RoutersOk(m, net.routers)
    ensures RoutersOk(m, AfterReaction(m, net, c, r).routers)
  {}

  lemma HonestFlightAfterReaction(m: Topology, net: Net, c: Copy, r: Reaction)
    requires ValidTopology(m) && c in net.flight
    requires r.relayed.Some? ==> HonestPacket(m, c.to, r.relayed.value)
    requires HonestFlight(m, net.flight)
    ensures HonestFlight(m, net.flight - multiset{c} + multiset(Relays(m, c, r)))
  {}

  lemma HonestStep(m: Topology, net: Net, e: Event)
    requires ValidTopology(m) && Enabled(m, net, e)
    requires RoutersOk(m, net.routers) && HonestFlight(m, net.flight)
    ensures RoutersOk(m, Apply(m, net, e).routers) && HonestFlight(m, Apply(m, net, e).flight)
  {
    match e
    case Originate(u, p) =>
      HonestAfterOriginate(m, net, u, p);
    case Lose(c) =>
      assert forall d :: d in AfterLoss(net, c).flight ==> d in net.flight;
    case Deliver(c, now) =>
      WireIsFaithful(c.pkt);
      HonestRelay(m, net.routers[c.to], c.from, c.pkt, now);
      var r := ReactionTo(net, c, now);
      RoutersAfterReaction(m, net, c, r);
      HonestFlightAfterReaction(m, net, c, r);
  }

  lemma FlightGrows(flight: multiset<Copy>, fan: set<Copy>)
    ensures forall d :: d in flight + multiset(fan) <==> d in flight || d in fan
    ensures forall d :: d in fan && d !in flight ==> (flight + multiset(fan))[d] == 1
    ensures forall d :: d !in fan ==> (flight + multiset(fan))[d] == flight[d]
  {}

  /**
   * In every state any run can reach, each copy on the wire from `u` has TTL and hop counter adding up to
   * the origin's TTL and carries `u`'s MAC, so no relay under- or overflows either byte.
   */
  lemma {:induction false} HopInvariant(m: Topology, es: seq<Event>)
    requires ValidTopology(m) && IsRun(m, es)
    ensures RoutersOk(m, NetAfter(m, es).routers) && HonestFlight(m, NetAfter(m, es).flight)
    ensures forall c :: c in NetAfter(m, es).flight ==> c.pkt.header.ttl > 0 ==> c.pkt.hopAuth.hopCounter + 1 <= TTL_MAX
  {
    if es != [] {
      HopInvariant(m, es[..|es| - 1]);
      HonestStep(m, NetAfter(m, es[..|es| - 1]), es[|es| - 1]);
    }
  }
}
