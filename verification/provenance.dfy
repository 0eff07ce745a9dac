/**
 * What holds in every run, with any number of ids and whatever the caches forget: everything on the wire and in
 * the inboxes is the originator's packet, no further from its origin than its hop counter says.
 */
module Provenance {
  import opened Bytes
  import opened Packets
  import opened ReplayCache
  import opened Routing
  import opened Transport
  import opened Mesh
  import opened Paths

  function Reach(net: Net, id: PacketId): nat
    requires id in net.origins
  {
    net.origins[id].packet.header.ttl
  }

  ghost predicate Reached(net: Net, v: NodeId, id: PacketId) { Key(v, id) in net.visits }

  predicate SameContents(a: AppPacket, p: ClampPacket) {
    a.packetType == p.header.packetType && a.packetId == p.header.packetId
    && a.nonce == p.nonce && a.ciphertext == p.ciphertext && a.aeadTag == p.aeadTag
  }

  /** What node `v` was handed under this id. */
  ghost function HandedTo(inbox: multiset<Handed>, v: NodeId, id: PacketId): set<Handed> {
    set e | e in inbox && e.node == v && e.app.packetId == id
  }

  /** The same packet as far as relays leave it alone, and as far from its origin's TTL as it has hopped. */
  predicate SamePacket(q: ClampPacket, o: ClampPacket) {
    && q.header.packetType == o.header.packetType && q.header.packetId == o.header.packetId
    && q.nonce == o.nonce && q.ciphertext == o.ciphertext && q.aeadTag == o.aeadTag
    && q.header.ttl + q.hopAuth.hopCounter == o.header.ttl
  }

  /** The two reactions to an honest packet: take it in and pass it on, or ignore it. */
  lemma HonestReaction(m: Topology, st: RouterState, u: NodeId, p: ClampPacket, now: nat)
    requires st.key == m.key && HonestPacket(m, u, p)
    ensures var r, id := Process(st, p, u, now), p.header.packetId;
            && r.router.me == st.me && r.router.key == st.key
            && (r.handed.Some? ==>
                  && id !in st.cache && r.router.cache == Put(st.cache, id) && r.dropped == None
                  && SameContents(r.handed.value, p) && (r.relayed.Some? <==> p.header.ttl > 0)
                  && (r.relayed.Some? ==>
                        && HonestPacket(m, st.me, r.relayed.value) && SameContents(ForApp(r.relayed.value), p)
                        && r.relayed.value.hopAuth.hopCounter == p.hopAuth.hopCounter + 1
                        && r.relayed.value.header.ttl == p.header.ttl - 1))
            && (r.handed.None? ==>
                  && r.router.cache == st.cache && r.relayed == None && r.dropped.Some?
                  && (r.dropped.value == DuplicatePacket ==> id in st.cache)
                  && (r.dropped.value != DuplicatePacket ==> p.header.packetType != Broadcast))
  {}

  // ---- the invariant --------------------------------------------------------------------------

  ghost predicate OriginKnown(m: Topology, origins: map<PacketId, Origin>, visits: map<Key, Visit>, id: PacketId)
    requires id in origins
  {
    var o := origins[id];
    o.packet.header.packetId == id && Originated(m, o.node, o.packet) && o.node in m.nodes && Key(o.node, id) in visits
  }

  ghost predicate OriginsKnown(m: Topology, origins: map<PacketId, Origin>, visits: map<Key, Visit>) {
    forall id {:trigger OriginKnown(m, origins, visits, id)} :: id in origins ==> OriginKnown(m, origins, visits, id)
  }

  ghost predicate CopyGenuine(m: Topology, origins: map<PacketId, Origin>, sent: set<Crossing>, c: Copy) {
    var id := c.pkt.header.packetId;
    && id in origins && SamePacket(c.pkt, origins[id].packet) && CrossingOf(c) in sent
    && Link(c.from, c.to) in m.links && HonestPacket(m, c.from, c.pkt)
    && Within(m, origins[id].node, c.from, c.pkt.hopAuth.hopCounter)
  }

  ghost predicate FlightGenuine(m: Topology, origins: map<PacketId, Origin>, sent: set<Crossing>, flight: multiset<Copy>) {
    forall c {:trigger CopyGenuine(m, origins, sent, c)} :: c in flight ==> CopyGenuine(m, origins, sent, c)
  }

  ghost predicate VisitGenuine(m: Topology, origins: map<PacketId, Origin>, visits: map<Key, Visit>, k: Key)
    requires k in visits
  {
    && k.id in origins && visits[k].depth <= origins[k.id].packet.header.ttl + 1
    && k.node in m.nodes && Within(m, origins[k.id].node, k.node, visits[k].depth)
  }

  ghost predicate VisitsGenuine(m: Topology, origins: map<PacketId, Origin>, visits: map<Key, Visit>) {
    forall k {:trigger VisitGenuine(m, origins, visits, k)} :: k in visits ==> VisitGenuine(m, origins, visits, k)
  }

  ghost predicate EntryGenuine(origins: map<PacketId, Origin>, visits: map<Key, Visit>, e: Handed) {
    && e.app.packetId in origins && SameContents(e.app, origins[e.app.packetId].packet)
    && Key(e.node, e.app.packetId) in visits
  }

  ghost predicate InboxGenuine(origins: map<PacketId, Origin>, visits: map<Key, Visit>, inbox: multiset<Handed>) {
    forall e {:trigger EntryGenuine(origins, visits, e)} :: e in inbox ==> EntryGenuine(origins, visits, e)
  }

  /** Only what a node has taken in is in its cache. */
  ghost predicate CachesGenuine(visits: map<Key, Visit>, routers: map<NodeId, RouterState>) {
    forall v, id :: v in routers && id in routers[v].cache ==> Key(v, id) in visits
  }

  ghost predicate CrossingsGenuine(m: Topology, origins: map<PacketId, Origin>, sent: set<Crossing>) {
    forall x :: x in sent ==> Link(x.from, x.to) in m.links && x.id in origins
  }

  ghost predicate RefusedGenuine(origins: map<PacketId, Origin>, refused: set<Crossing>) {
    forall x :: x in refused ==> x.id in origins && origins[x.id].packet.header.packetType != Broadcast
  }

  ghost predicate Genuine(m: Topology, net: Net) {
    && RoutersOk(m, net.routers)
    && OriginsKnown(m, net.origins, net.visits)
    && FlightGenuine(m, net.origins, net.sent, net.flight)
    && VisitsGenuine(m, net.origins, net.visits)
    && InboxGenuine(net.origins, net.visits, net.inbox)
    && CachesGenuine(net.visits, net.routers)
    && CrossingsGenuine(m, net.origins, net.sent) && net.got <= net.sent && net.lost <= net.sent
    && RefusedGenuine(net.origins, net.refused)
  }

  // ---- growth ---------------------------------------------------------------------------------

  /** Nothing recorded is dropped, and no origin changes. */
  ghost predicate Later(net: Net, n: Net) {
    && (forall id :: id in net.origins ==> id in n.origins && n.origins[id] == net.origins[id])
    && (forall k :: k in net.visits ==> k in n.visits)
    && net.sent <= n.sent
  }

  lemma OriginsStay(m: Topology, net: Net, n: Net, id: PacketId)
    requires Later(net, n) && OriginsKnown(m, net.origins, net.visits) && id in net.origins
    ensures id in n.origins && OriginKnown(m, n.origins, n.visits, id)
  {
    assert OriginKnown(m, net.origins, net.visits, id);
  }

  lemma CopiesStay(m: Topology, net: Net, n: Net, c: Copy)
    requires Later(net, n) && CopyGenuine(m, net.origins, net.sent, c)
    ensures CopyGenuine(m, n.origins, n.sent, c)
  {}

  lemma EntriesStay(net: Net, n: Net, e: Handed)
    requires Later(net, n) && EntryGenuine(net.origins, net.visits, e)
    ensures EntryGenuine(n.origins, n.visits, e)
  {}

  lemma VisitsStay(m: Topology, net: Net, n: Net, k: Key)
    requires Later(net, n) && k in net.visits && VisitGenuine(m, net.origins, net.visits, k) && n.visits[k] == net.visits[k]
    ensures VisitGenuine(m, n.origins, n.visits, k)
  {}

  /** Copies from one node that are genuine join those on the wire. */
  lemma FlightAfter(m: Topology, net: Net, n: Net, fan: set<Copy>)
    requires Later(net, n) && FlightGenuine(m, net.origins, net.sent, net.flight)
    requires forall c :: c in n.flight ==> c in net.flight || c in fan
    requires forall c :: c in fan ==> CopyGenuine(m, n.origins, n.sent, c)
    ensures FlightGenuine(m, n.origins, n.sent, n.flight)
  {
    forall c | c in n.flight ensures CopyGenuine(m, n.origins, n.sent, c) {
      if c !in fan {
        CopiesStay(m, net, n, c);
      }
    }
  }

  // ---- originate ------------------------------------------------------------------------------

  lemma OriginateLater(m: Topology, net: Net, u: NodeId, p: ClampPacket)
    requires Enabled(m, net, Originate(u, p))
    ensures Later(net, AfterOriginate(m, net, u, p))
  {}

  lemma OriginateFlight(m: Topology, net: Net, u: NodeId, p: ClampPacket)
    requires Genuine(m, net) && Enabled(m, net, Originate(u, p))
    ensures var n := AfterOriginate(m, net, u, p); FlightGenuine(m, n.origins, n.sent, n.flight)
  {
    var n, fan := AfterOriginate(m, net, u, p), Fan(m, u, u, p);
    OriginateLater(m, net, u, p);
    FlightGrows(net.flight, fan);
    WithinSelf(m, u);
    forall c | c in fan ensures CopyGenuine(m, n.origins, n.sent, c) {
      assert CrossingOf(c) in Crossings(fan);
    }
    FlightAfter(m, net, n, fan);
  }

  lemma OriginateRecords(m: Topology, net: Net, u: NodeId, p: ClampPacket)
    requires Genuine(m, net) && Enabled(m, net, Originate(u, p))
    ensures var n := AfterOriginate(m, net, u, p);
            OriginsKnown(m, n.origins, n.visits) && VisitsGenuine(m, n.origins, n.visits) && InboxGenuine(n.origins, n.visits, n.inbox)
  {
    var n, id := AfterOriginate(m, net, u, p), p.header.packetId;
    OriginateLater(m, net, u, p);
    WithinSelf(m, u);
    forall j | j in n.origins ensures OriginKnown(m, n.origins, n.visits, j) {
      if j != id { OriginsStay(m, net, n, j); }
    }
    forall k | k in n.visits ensures VisitGenuine(m, n.origins, n.visits, k) {
      if k != Key(u, id) { VisitsStay(m, net, n, k); }
    }
    forall e | e in n.inbox ensures EntryGenuine(n.origins, n.visits, e) {
      assert EntryGenuine(net.origins, net.visits, e);
      EntriesStay(net, n, e);
    }
  }

  lemma OriginateRest(m: Topology, net: Net, u: NodeId, p: ClampPacket)
    requires Genuine(m, net) && Enabled(m, net, Originate(u, p))
    ensures var n := AfterOriginate(m, net, u, p);
            && RoutersOk(m, n.routers) && CachesGenuine(n.visits, n.routers)
            && CrossingsGenuine(m, n.origins, n.sent) && n.got <= n.sent && n.lost <= n.sent && RefusedGenuine(n.origins, n.refused)
  {}

  // ---- deliver --------------------------------------------------------------------------------

  /** A delivered copy is genuine, and the reaction to it is one of the two. */
  ghost predicate Reacts(m: Topology, net: Net, c: Copy, r: Reaction) {
    var id := c.pkt.header.packetId;
    && CopyGenuine(m, net.origins, net.sent, c) && c in net.flight && c.to in net.routers
    && r.router.me == c.to && r.router.key == m.key
    && (r.handed.Some? ==>
          && id !in net.routers[c.to].cache && r.router.cache == Put(net.routers[c.to].cache, id) && r.dropped == None
          && SameContents(r.handed.value, c.pkt)
          && (r.relayed.Some? ==> CarriesOn(m, c, r.relayed.value)))
    && (r.handed.None? ==>
          && r.router.cache == net.routers[c.to].cache && r.relayed == None && r.dropped.Some?
          && (r.dropped.value == DuplicatePacket ==> id in net.routers[c.to].cache)
          && (r.dropped.value != DuplicatePacket ==> c.pkt.header.packetType != Broadcast))
  }

  /** The same packet one hop further, stamped by the node that received it. */
  ghost predicate CarriesOn(m: Topology, c: Copy, q: ClampPacket) {
    && HonestPacket(m, c.to, q) && SameContents(ForApp(q), c.pkt)
    && q.hopAuth.hopCounter == c.pkt.hopAuth.hopCounter + 1 && q.header.ttl + 1 == c.pkt.header.ttl
  }

  lemma DeliveryReacts(m: Topology, net: Net, c: Copy, now: nat)
    requires Genuine(m, net) && Enabled(m, net, Deliver(c, now))
    ensures Reacts(m, net, c, ReactionTo(net, c, now))
    ensures ReactionTo(net, c, now) == Process(net.routers[c.to], c.pkt, c.from, now)
  {
    assert CopyGenuine(m, net.origins, net.sent, c);
    WireIsFaithful(c.pkt);
    HonestReaction(m, net.routers[c.to], c.from, c.pkt, now);
  }

  lemma DeliverLater(m: Topology, net: Net, c: Copy, r: Reaction)
    ensures Later(net, AfterReaction(m, net, c, r))
  {}

  lemma DeliverFlight(m: Topology, net: Net, c: Copy, r: Reaction)
    requires ValidTopology(m) && FlightGenuine(m, net.origins, net.sent, net.flight) && Reacts(m, net, c, r)
    ensures var n := AfterReaction(m, net, c, r); FlightGenuine(m, n.origins, n.sent, n.flight)
  {
    var n, fan, id := AfterReaction(m, net, c, r), Relays(m, c, r), c.pkt.header.packetId;
    DeliverLater(m, net, c, r);
    FlightGrows(net.flight - multiset{c}, fan);
    WithinExtends(m, net.origins[id].node, c.from, c.to, c.pkt.hopAuth.hopCounter);
    forall d | d in fan ensures CopyGenuine(m, n.origins, n.sent, d) {
      assert CrossingOf(d) in Crossings(fan);
    }
    FlightAfter(m, net, n, fan);
  }

  lemma DeliverRecords(m: Topology, net: Net, c: Copy, r: Reaction)
    requires ValidTopology(m) && Reacts(m, net, c, r)
    requires OriginsKnown(m, net.origins, net.visits) && VisitsGenuine(m, net.origins, net.visits)
    ensures var n := AfterReaction(m, net, c, r);
            OriginsKnown(m, n.origins, n.visits) && VisitsGenuine(m, n.origins, n.visits)
  {
    var n, id := AfterReaction(m, net, c, r), c.pkt.header.packetId;
    DeliverLater(m, net, c, r);
    WithinExtends(m, net.origins[id].node, c.from, c.to, c.pkt.hopAuth.hopCounter);
    forall j | j in n.origins ensures OriginKnown(m, n.origins, n.visits, j) { OriginsStay(m, net, n, j); }
    forall k | k in n.visits ensures VisitGenuine(m, n.origins, n.visits, k) {
      if k != Key(c.to, id) || r.handed.None? { VisitsStay(m, net, n, k); }
    }
  }

  lemma DeliverInbox(m: Topology, net: Net, c: Copy, r: Reaction)
    requires Reacts(m, net, c, r) && InboxGenuine(net.origins, net.visits, net.inbox)
    ensures var n := AfterReaction(m, net, c, r); InboxGenuine(n.origins, n.visits, n.inbox)
  {
    var n := AfterReaction(m, net, c, r);
    DeliverLater(m, net, c, r);
    forall e | e in n.inbox ensures EntryGenuine(n.origins, n.visits, e) {
      if e in net.inbox {
        assert EntryGenuine(net.origins, net.visits, e);
        EntriesStay(net, n, e);
      }
    }
  }

  lemma DeliverCaches(m: Topology, net: Net, c: Copy, r: Reaction)
    requires Reacts(m, net, c, r) && CachesGenuine(net.visits, net.routers)
    ensures var n := AfterReaction(m, net, c, r); CachesGenuine(n.visits, n.routers)
  {
    var n := AfterReaction(m, net, c, r);
    forall v, id | v in n.routers && id in n.routers[v].cache ensures Key(v, id) in n.visits {
      assert v != c.to ==> n.routers[v] == net.routers[v];
      assert v == c.to && r.handed.None? ==> id in net.routers[v].cache;
    }
  }

  lemma DeliverCrossings(m: Topology, net: Net, c: Copy, r: Reaction)
    requires Reacts(m, net, c, r) && RefusedGenuine(net.origins, net.refused)
    requires CrossingsGenuine(m, net.origins, net.sent) && net.got <= net.sent && net.lost <= net.sent
    ensures var n := AfterReaction(m, net, c, r);
            CrossingsGenuine(m, n.origins, n.sent) && n.got <= n.sent && n.lost <= n.sent && RefusedGenuine(n.origins, n.refused)
  {}

  lemma GenuineDelivery(m: Topology, net: Net, c: Copy, now: nat)
    requires ValidTopology(m) && Genuine(m, net) && Enabled(m, net, Deliver(c, now))
    ensures Genuine(m, Apply(m, net, Deliver(c, now)))
  {
    DeliveryReacts(m, net, c, now);
    var r := ReactionTo(net, c, now);
    RoutersAfterReaction(m, net, c, r);
    DeliverFlight(m, net, c, r);
    DeliverRecords(m, net, c, r);
    DeliverInbox(m, net, c, r);
    DeliverCaches(m, net, c, r);
    DeliverCrossings(m, net, c, r);
  }

  lemma GenuineLoss(m: Topology, net: Net, c: Copy)
    requires Genuine(m, net) && c in net.flight
    ensures Genuine(m, AfterLoss(net, c))
  {
    assert CopyGenuine(m, net.origins, net.sent, c);
    FlightAfter(m, net, AfterLoss(net, c), {});
  }

  lemma GenuineStep(m: Topology, net: Net, e: Event)
    requires ValidTopology(m) && Genuine(m, net) && Enabled(m, net, e)
    ensures Genuine(m, Apply(m, net, e))
  {
    match e
    case Originate(u, p) =>
      OriginateFlight(m, net, u, p);
      OriginateRecords(m, net, u, p);
      OriginateRest(m, net, u, p);
    case Lose(c) => GenuineLoss(m, net, c);
    case Deliver(c, now) => GenuineDelivery(m, net, c, now);
  }

  /** The invariant holds in every state any run can reach. */
  lemma {:induction false} RunIsGenuine(m: Topology, es: seq<Event>)
    requires ValidTopology(m) && IsRun(m, es)
    ensures Genuine(m, NetAfter(m, es))
  {
    if es != [] {
      RunIsGenuine(m, es[..|es| - 1]);
      GenuineStep(m, NetAfter(m, es[..|es| - 1]), es[|es| - 1]);
    }
  }

  // ---- what it says ---------------------------------------------------------------------------

  /** Whatever an application is handed under an id is what the id's originator sent. */
  lemma HandedIsOriginal(m: Topology, es: seq<Event>, e: Handed)
    requires ValidTopology(m) && IsRun(m, es) && e in NetAfter(m, es).inbox
    ensures var net := NetAfter(m, es);
            && e.app.packetId in net.origins && SameContents(e.app, net.origins[e.app.packetId].packet)
            && Reached(net, e.node, e.app.packetId)
  {
    RunIsGenuine(m, es);
    assert EntryGenuine(NetAfter(m, es).origins, NetAfter(m, es).visits, e);
  }

  /** In no run does a flood reach a node further than TTL + 1 links away. */
  lemma NothingBeyondRange(m: Topology, es: seq<Event>, id: PacketId, v: NodeId)
    requires ValidTopology(m) && IsRun(m, es)
    requires var net := NetAfter(m, es);
             id in net.origins && Reached(net, v, id)
    ensures var net := NetAfter(m, es);
            Within(m, net.origins[id].node, v, Reach(net, id) + 1)
  {
    var net := NetAfter(m, es);
    RunIsGenuine(m, es);
    assert VisitGenuine(m, net.origins, net.visits, Key(v, id));
    var p :| Joins(m, p, net.origins[id].node, v) && |p| <= net.visits[Key(v, id)].depth + 1;
  }

  /** No copy of the id was dropped for rate or trust. */
  ghost predicate NoneRefused(net: Net, id: PacketId) { forall x :: x in net.refused ==> x.id != id }

  /** Broadcasts never meet the rate limit, trust or MAC. */
  lemma BroadcastIsNotRefused(m: Topology, es: seq<Event>, id: PacketId)
    requires ValidTopology(m) && IsRun(m, es)
    requires id in NetAfter(m, es).origins && NetAfter(m, es).origins[id].packet.header.packetType == Broadcast
    ensures NoneRefused(NetAfter(m, es), id)
  {
    RunIsGenuine(m, es);
  }
}
