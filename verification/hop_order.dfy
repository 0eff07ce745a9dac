/**
 * Deliveries in hop order: when no copy of an id overtakes one that has travelled fewer hops, and none is lost
 * or refused, its settled flood has reached exactly the nodes within TTL + 1 links of the origin, in a network
 * of any size and shape and whatever happens to other ids.
 */
module HopOrder {
  import opened Bytes
  import opened Packets
  import opened ReplayCache
  import opened Routing
  import opened Transport
  import opened Mesh
  import opened Paths
  import opened Provenance
  import opened Termination
  import opened Flood
  import opened Projection
  import opened Coverage

  /** The delivered copy has a smallest hop counter among the copies of its id on the wire. */
  ghost predicate NextInOrder(flight: multiset<Copy>, c: Copy) {
    forall d :: d in flight && d.pkt.header.packetId == c.pkt.header.packetId ==> c.pkt.hopAuth.hopCounter <= d.pkt.hopAuth.hopCounter
  }

  ghost predicate OrderedEvent(net: Net, e: Event, id: PacketId) {
    e.Deliver? && e.copy.pkt.header.packetId == id ==> NextInOrder(net.flight, e.copy)
  }

  /** The copies of this id are delivered in hop order; copies of other ids in any. */
  ghost predicate InHopOrder(m: Topology, es: seq<Event>, id: PacketId)
    requires IsRun(m, es)
  {
    es == [] || (InHopOrder(m, es[..|es| - 1], id) && OrderedEvent(NetAfter(m, es[..|es| - 1]), es[|es| - 1], id))
  }

  /** Nothing of the id on the wire lags more than one hop behind any visit. */
  ghost predicate Abreast(v: map<Key, Visit>, flight: multiset<Copy>, id: PacketId) {
    forall u, c :: Key(u, id) in v && c in flight && c.pkt.header.packetId == id ==> v[Key(u, id)].depth <= c.pkt.hopAuth.hopCounter + 1
  }

  /** A neighbour of a visited node that has TTL left is at most one deeper, or its copy is still to come. */
  ghost predicate Served(ttl: nat, v: map<Key, Visit>, sent: set<Crossing>, got: set<Crossing>, k: Key, w: NodeId)
    requires k in v
  {
    v[k].depth <= ttl ==>
      || (Key(w, k.id) in v && v[Key(w, k.id)].depth <= v[k].depth + 1)
      || (Crossing(k.node, w, k.id) in sent && Crossing(k.node, w, k.id) !in got)
  }

  function ReachOrZero(origins: map<PacketId, Origin>, id: PacketId): nat {
    if id in origins then origins[id].packet.header.ttl else 0
  }

  ghost predicate AllServed(m: Topology, net: Net, id: PacketId) {
    forall u, w :: Key(u, id) in net.visits && Link(u, w) in m.links ==>
      Served(ReachOrZero(net.origins, id), net.visits, net.sent, net.got, Key(u, id), w)
  }

  ghost predicate Ordered(m: Topology, net: Net, id: PacketId) {
    Abreast(net.visits, net.flight, id) && AllServed(m, net, id)
  }

  /** No copy of the id was lost or refused so far. */
  ghost predicate Whole(net: Net, id: PacketId) {
    (forall x :: x in net.lost ==> x.id != id) && NoneRefused(net, id)
  }

  lemma WholeBefore(m: Topology, net: Net, e: Event, id: PacketId)
    requires Enabled(m, net, e) && Whole(Apply(m, net, e), id)
    ensures Whole(net, id) && (e.Lose? ==> e.copy.pkt.header.packetId != id)
  {
    var n := Apply(m, net, e);
    assert net.lost <= n.lost && net.refused <= n.refused;
    if e.Lose? {
      assert CrossingOf(e.copy) in n.lost;
    }
  }

  /** While a crossing is pending its copy is on the wire with the sender's depth as hop counter. */
  lemma PendingHop(m: Topology, net: Net, x: Crossing) returns (d: Copy)
    requires OriginsOk(m, net.origins, net.visits)
    requires PendingOk(m, net.origins, net.visits, LedgerOf(net), net.flight)
    requires x in net.sent && x !in net.got && x !in net.lost
    ensures d in net.flight && CrossingOf(d) == x && Key(x.from, x.id) in net.visits
    ensures d.pkt.hopAuth.hopCounter == net.visits[Key(x.from, x.id)].depth
  {
    d := CopyOn(m, net.origins, net.visits, x);
    assert OriginOk(m, net.origins, net.visits, x.id);
  }

  // ---- runs of one id -----------------------------------------------------------------------

  lemma OriginateOrdered(m: Topology, net: Net, u: NodeId, p: ClampPacket)
    requires ValidTopology(m) && Tracked(m, net) && Enabled(m, net, Originate(u, p))
    ensures Ordered(m, AfterOriginate(m, net, u, p), p.header.packetId)
  {
    var n := AfterOriginate(m, net, u, p);
    var id := p.header.packetId;
    FlightGrows(net.flight, Fan(m, u, u, p));
    VisitsAreOfOrigins(m, net.origins, net.visits);
    forall c | c in net.flight ensures c.pkt.header.packetId != id {
      assert Due(m, net.origins, net.visits, CrossingOf(c));
    }
    forall w | Link(u, w) in m.links ensures Crossing(u, w, id) in n.sent && Crossing(u, w, id) !in n.got {
      assert Copy(u, w, p) in Fan(m, u, u, p) && CrossingOf(Copy(u, w, p)) == Crossing(u, w, id);
      assert !Due(m, net.origins, net.visits, Crossing(u, w, id));
    }
  }

  /** The front of a delivery in hop order: nothing known or pending is behind the delivered copy. */
  lemma AbreastDelivery(m: Topology, net: Net, c: Copy, r: Reaction)
    requires Abreast(net.visits, net.flight, c.pkt.header.packetId) && c in net.flight && NextInOrder(net.flight, c)
    requires r.relayed.Some? ==> r.relayed.value.header.packetId == c.pkt.header.packetId
                                 && r.relayed.value.hopAuth.hopCounter == c.pkt.hopAuth.hopCounter + 1
    ensures var n := AfterReaction(m, net, c, r); Abreast(n.visits, n.flight, c.pkt.header.packetId)
  {
    var n, id := AfterReaction(m, net, c, r), c.pkt.header.packetId;
    FlightGrows(net.flight - multiset{c}, Relays(m, c, r));
    forall u, d | Key(u, id) in n.visits && d in n.flight && d.pkt.header.packetId == id
      ensures n.visits[Key(u, id)].depth <= d.pkt.hopAuth.hopCounter + 1
    {
      assert d in net.flight || d in Relays(m, c, r);
    }
  }

  /** An already reached node is shallow enough for the copy it ignores. */
  lemma ServedIgnore(m: Topology, net: Net, c: Copy, r: Reaction)
    requires AllServed(m, net, c.pkt.header.packetId) && Abreast(net.visits, net.flight, c.pkt.header.packetId)
    requires r.handed.None? && r.relayed.None?
    requires c in net.flight && Key(c.to, c.pkt.header.packetId) in net.visits
    requires Key(c.from, c.pkt.header.packetId) in net.visits
    requires net.visits[Key(c.from, c.pkt.header.packetId)].depth == c.pkt.hopAuth.hopCounter
    ensures AllServed(m, AfterReaction(m, net, c, r), c.pkt.header.packetId)
  {
    var n, id := AfterReaction(m, net, c, r), c.pkt.header.packetId;
    IgnoredCopy(m, net, c, r);
    forall u, w | Key(u, id) in net.visits && Link(u, w) in m.links
      ensures Served(ReachOrZero(n.origins, id), n.visits, n.sent, n.got, Key(u, id), w)
    {
      assert Served(ReachOrZero(net.origins, id), net.visits, net.sent, net.got, Key(u, id), w);
    }
  }

  lemma ServedAccept(m: Topology, net: Net, c: Copy, r: Reaction)
    requires Tracked(m, net) && Whole(net, c.pkt.header.packetId) && AllServed(m, net, c.pkt.header.packetId)
    requires ValidTopology(m) && TakesIn(m, net, c, r) && NextInOrder(net.flight, c)
    ensures AllServed(m, AfterReaction(m, net, c, r), c.pkt.header.packetId)
  {
    var n, id := AfterReaction(m, net, c, r), c.pkt.header.packetId;
    TakenInBy(m, net, c, r);
    forall u, w | Key(u, id) in n.visits && Link(u, w) in m.links
      ensures Served(ReachOrZero(n.origins, id), n.visits, n.sent, n.got, Key(u, id), w)
    {
      if u != c.to {
        ServedStill(m, net, c, r, u, w);
      }
    }
  }

  lemma RelayedTo(m: Topology, net: Net, c: Copy, r: Reaction, w: NodeId)
    requires Tracked(m, net) && TakesIn(m, net, c, r) && r.relayed.Some?
    requires Key(c.to, c.pkt.header.packetId) !in net.visits && Link(c.to, w) in m.links && w != c.from
    ensures var n, x := AfterReaction(m, net, c, r), Crossing(c.to, w, c.pkt.header.packetId); x in n.sent && x !in n.got
  {
    var d, x := Copy(c.to, w, r.relayed.value), Crossing(c.to, w, c.pkt.header.packetId);
    assert OriginOk(m, net.origins, net.visits, c.pkt.header.packetId);
    assert d in Relays(m, c, r) && CrossingOf(d) == x;
    assert !Due(m, net.origins, net.visits, x);
  }

  /** The new visit is one deeper than its parent's, and its copies are on their way to every other neighbour. */
  lemma TakenInBy(m: Topology, net: Net, c: Copy, r: Reaction)
    requires Tracked(m, net) && TakesIn(m, net, c, r)
    ensures var n, id, h := AfterReaction(m, net, c, r), c.pkt.header.packetId, c.pkt.hopAuth.hopCounter;
            && Key(c.from, id) in net.visits && net.visits[Key(c.from, id)].depth == h && Key(c.to, id) !in net.visits
            && c.from != c.to && n.visits == net.visits[Key(c.to, id) := Visit(h + 1, c.from)]
            && (h < net.origins[id].packet.header.ttl ==>
                  forall w :: Link(c.to, w) in m.links && w != c.from ==>
                    Crossing(c.to, w, id) in n.sent && Crossing(c.to, w, id) !in n.got)
  {
    var n, id, h := AfterReaction(m, net, c, r), c.pkt.header.packetId, c.pkt.hopAuth.hopCounter;
    assert Due(m, net.origins, net.visits, CrossingOf(c)) && c == CopyOn(m, net.origins, net.visits, CrossingOf(c));
    if h < net.origins[id].packet.header.ttl {
      forall w | Link(c.to, w) in m.links && w != c.from
        ensures Crossing(c.to, w, id) in n.sent && Crossing(c.to, w, id) !in n.got
      {
        RelayedTo(m, net, c, r, w);
      }
    }
  }

  /** A neighbour of the accepting node with TTL left has a copy under way to it, so the accepted one is no deeper. */
  lemma AcceptedIsShallow(m: Topology, net: Net, c: Copy, u: NodeId)
    requires Tracked(m, net) && Whole(net, c.pkt.header.packetId) && NextInOrder(net.flight, c)
    requires Key(u, c.pkt.header.packetId) in net.visits && Key(c.to, c.pkt.header.packetId) !in net.visits
    requires var id := c.pkt.header.packetId;
             Served(ReachOrZero(net.origins, id), net.visits, net.sent, net.got, Key(u, id), c.to)
             && net.visits[Key(u, id)].depth <= ReachOrZero(net.origins, id)
    ensures c.pkt.hopAuth.hopCounter <= net.visits[Key(u, c.pkt.header.packetId)].depth
  {
    var d := PendingHop(m, net, Crossing(u, c.to, c.pkt.header.packetId));
  }

  /** A node served before stays so. */
  lemma ServedStill(m: Topology, net: Net, c: Copy, r: Reaction, u: NodeId, w: NodeId)
    requires Tracked(m, net) && Whole(net, c.pkt.header.packetId) && AllServed(m, net, c.pkt.header.packetId)
    requires TakesIn(m, net, c, r) && NextInOrder(net.flight, c)
    requires u != c.to && Key(u, c.pkt.header.packetId) in net.visits && Link(u, w) in m.links
    ensures var n, id := AfterReaction(m, net, c, r), c.pkt.header.packetId;
            Served(ReachOrZero(n.origins, id), n.visits, n.sent, n.got, Key(u, id), w)
  {
    var id := c.pkt.header.packetId;
    assert Served(ReachOrZero(net.origins, id), net.visits, net.sent, net.got, Key(u, id), w);
    if w == c.to && net.visits[Key(u, id)].depth <= ReachOrZero(net.origins, id) {
      AcceptedIsShallow(m, net, c, u);
    }
  }

  lemma DeliveryOrdered(m: Topology, net: Net, c: Copy, now: nat)
    requires ValidTopology(m) && Tracked(m, net) && Enabled(m, net, Deliver(c, now)) && |net.origins| <= CACHE_SIZE
    requires Ordered(m, net, c.pkt.header.packetId) && NextInOrder(net.flight, c)
    requires Whole(Apply(m, net, Deliver(c, now)), c.pkt.header.packetId)
    ensures Ordered(m, Apply(m, net, Deliver(c, now)), c.pkt.header.packetId)
  {
    DeliveryIs(m, net, c, now);
    var id, h := c.pkt.header.packetId, c.pkt.hopAuth.hopCounter;
    var r := ReactionTo(net, c, now);
    WholeBefore(m, net, Deliver(c, now), id);
    ReactionToStamped(m, net.routers[c.to], net.origins[id].node, net.origins[id].packet, h, c.from, now);
    AbreastDelivery(m, net, c, r);
    if r.handed.Some? {
      ServedAccept(m, net, c, r);
    } else {
      assert CrossingOf(c) in AfterReaction(m, net, c, r).refused || r.dropped == Some(DuplicatePacket);
      ServedIgnore(m, net, c, r);
    }
  }

  lemma StepOrdered(m: Topology, net: Net, e: Event, id: PacketId)
    requires ValidTopology(m) && Tracked(m, net) && Enabled(m, net, e) && |net.origins| <= CACHE_SIZE && IdOf(e) == id
    requires Ordered(m, net, id) && OrderedEvent(net, e, id) && Whole(Apply(m, net, e), id)
    ensures Ordered(m, Apply(m, net, e), id)
  {
    WholeBefore(m, net, e, id);
    match e
    case Originate(u, p) => OriginateOrdered(m, net, u, p);
    case Deliver(c, now) => DeliveryOrdered(m, net, c, now);
  }

  /** All events of a run are about one id. */
  predicate AllOf(es: seq<Event>, id: PacketId) { forall i :: 0 <= i < |es| ==> IdOf(es[i]) == id }

  lemma {:induction false} RunIsOrdered(m: Topology, es: seq<Event>, id: PacketId)
    requires ValidTopology(m) && IsRun(m, es) && |NetAfter(m, es).origins| <= CACHE_SIZE && AllOf(es, id)
    requires InHopOrder(m, es, id) && Whole(NetAfter(m, es), id)
    ensures Ordered(m, NetAfter(m, es), id)
  {
    if es != [] {
      var front, e := es[..|es| - 1], es[|es| - 1];
      var net := NetAfter(m, front);
      OriginsOnlyGrow(m, net, e);
      WholeBefore(m, net, e, id);
      RunIsOrdered(m, front, id);
      RunIsTracked(m, front);
      StepOrdered(m, net, e, id);
    }
  }

  lemma OrderExtends(m: Topology, ps: seq<Event>, part: seq<Event>, id: PacketId)
    requires IsRun(m, ps) && IsRun(m, ps + part) && InHopOrder(m, ps, id) && AllOf(ps, id) && |part| <= 1
    requires forall x :: x in part ==> IdOf(x) == id && OrderedEvent(NetAfter(m, ps), x, id)
    ensures InHopOrder(m, ps + part, id) && AllOf(ps + part, id)
  {
    var more := ps + part;
    if part == [] {
      assert more == ps;
    } else {
      assert more[..|more| - 1] == ps && more[|more| - 1] == part[0] && part[0] in part;
    }
  }

  /** The lowest copy of the id stays the lowest when only that id is looked at. */
  lemma PartIsOrdered(m: Topology, net: Net, n: Net, e: Event, id: PacketId)
    requires Enabled(m, net, e) && SameFlight(net.flight, n.flight, id) && OrderedEvent(net, e, id)
    ensures |Part(m, net, e, id)| <= 1 && forall x :: x in Part(m, net, e, id) ==> IdOf(x) == id && OrderedEvent(n, x, id)
  {
    assert n.flight <= net.flight;
  }

  lemma {:induction false} ProjectKeepsOrder(m: Topology, es: seq<Event>, id: PacketId)
    requires ValidTopology(m) && IsRun(m, es) && Remembered(m, es, id) && InHopOrder(m, es, id)
    ensures IsRun(m, Project(m, es, id)) && InHopOrder(m, Project(m, es, id), id) && AllOf(Project(m, es, id), id)
  {
    ProjectionMirrors(m, es, id);
    if es != [] {
      var front, e := es[..|es| - 1], es[|es| - 1];
      ProjectKeepsOrder(m, front, id);
      ProjectionMirrors(m, front, id);
      var ps := Project(m, front, id);
      PartIsOrdered(m, NetAfter(m, front), NetAfter(m, ps), e, id);
      OrderExtends(m, ps, Part(m, NetAfter(m, front), e, id), id);
    }
  }

  /** Along any path from the origin the i-th node is reached at depth at most i. */
  lemma {:induction false} ReachedAlong(m: Topology, net: Net, id: PacketId, p: seq<NodeId>)
    requires OriginsOk(m, net.origins, net.visits) && AllServed(m, net, id) && SettledWhole(net, id)
    requires PendingOk(m, net.origins, net.visits, LedgerOf(net), net.flight)
    requires id in net.origins && IsPath(m, p) && p[0] == net.origins[id].node && |p| <= Reach(net, id) + 2
    ensures Reached(net, p[|p| - 1], id) && net.visits[Key(p[|p| - 1], id)].depth <= |p| - 1
  {
    assert OriginOk(m, net.origins, net.visits, id);
    if |p| > 1 {
      var u, w := p[|p| - 2], p[|p| - 1];
      ReachedAlong(m, net, id, p[..|p| - 1]);
      assert Served(Reach(net, id), net.visits, net.sent, net.got, Key(u, id), w);
      if Crossing(u, w, id) in net.sent && Crossing(u, w, id) !in net.got {
        var d := PendingHop(m, net, Crossing(u, w, id));
      }
    }
  }

  /**
   * Delivered in hop order, a whole settled flood reaches a node exactly when some path of at most TTL + 1 links
   * joins it to the origin, and at a depth no greater than the length of any such path.
   */
  lemma HopOrderCoverage(m: Topology, es: seq<Event>, id: PacketId, v: NodeId)
    requires ValidTopology(m) && IsRun(m, es) && Remembered(m, es, id)
    requires InHopOrder(m, es, id) && id in NetAfter(m, es).origins && SettledWhole(NetAfter(m, es), id)
    ensures var net := NetAfter(m, es);
            Reached(net, v, id) <==> Within(m, net.origins[id].node, v, Reach(net, id) + 1)
    ensures var net := NetAfter(m, es);
            forall p :: Joins(m, p, net.origins[id].node, v) && |p| <= Reach(net, id) + 2 ==>
              Reached(net, v, id) && net.visits[Key(v, id)].depth <= |p| - 1
  {
    var net := NetAfter(m, es);
    var n := SettledProjection(m, es, id);
    ProjectKeepsOrder(m, es, id);
    RunIsOrdered(m, Project(m, es, id), id);
    if Reached(net, v, id) {
      NothingBeyondRange(m, es, id, v);
    }
    forall p | Joins(m, p, net.origins[id].node, v) && |p| <= Reach(net, id) + 2
      ensures Reached(net, v, id) && net.visits[Key(v, id)].depth <= |p| - 1
    {
      ReachedAlong(m, n, id, p);
    }
  }

  // ---- such deliveries exist ------------------------------------------------------------------

  lemma {:induction false} LowestCopy(s: multiset<Copy>) returns (c: Copy)
    requires s != multiset{}
    ensures c in s && forall d :: d in s ==> c.pkt.hopAuth.hopCounter <= d.pkt.hopAuth.hopCounter
    decreases |s|
  {
    c :| c in s;
    var rest := s - multiset{c};
    if rest != multiset{} {
      var d := LowestCopy(rest);
      if d.pkt.hopAuth.hopCounter < c.pkt.hopAuth.hopCounter {
        c := d;
      }
    }
  }

  lemma LowestNext(m: Topology, es: seq<Event>, id: PacketId) returns (more: seq<Event>)
    requires ValidTopology(m) && IsRun(m, es) && InHopOrder(m, es, id) && NetAfter(m, es).flight != multiset{}
    ensures es <= more && IsRun(m, more) && InHopOrder(m, more, id)
    ensures NetAfter(m, more).origins == NetAfter(m, es).origins && NetAfter(m, more).lost == NetAfter(m, es).lost
    ensures Left(|m.links|, NetAfter(m, more).flight) < Left(|m.links|, NetAfter(m, es).flight)
  {
    var c := LowestCopy(NetAfter(m, es).flight);
    more := DeliverNext(m, es, c);
    assert more[..|more| - 1] == es;
  }

  /** Always delivering a copy that has hopped least completes any run in hop order. */
  lemma {:induction false} SettlesInOrder(m: Topology, es: seq<Event>, id: PacketId) returns (all: seq<Event>)
    requires ValidTopology(m) && IsRun(m, es) && InHopOrder(m, es, id)
    ensures es <= all && IsRun(m, all) && InHopOrder(m, all, id) && NetAfter(m, all).flight == multiset{}
    ensures NetAfter(m, all).origins == NetAfter(m, es).origins && NetAfter(m, all).lost == NetAfter(m, es).lost
    decreases Left(|m.links|, NetAfter(m, es).flight)
  {
    if NetAfter(m, es).flight == multiset{} {
      all := es;
    } else {
      var more := LowestNext(m, es, id);
      all := SettlesInOrder(m, more, id);
    }
  }

  /** Every packet sent into a quiet network has a whole flood that settles in hop order. */
  lemma OrderedFloodExists(m: Topology, u: NodeId, p: ClampPacket) returns (es: seq<Event>)
    requires ValidTopology(m) && u in m.nodes && Originated(m, u, p)
    ensures IsRun(m, es) && [Originate(u, p)] <= es && InHopOrder(m, es, p.header.packetId) && Remembered(m, es, p.header.packetId)
    ensures NetAfter(m, es).origins == map[p.header.packetId := Origin(u, p)] && SettledWhole(NetAfter(m, es), p.header.packetId)
  {
    var id, start := p.header.packetId, [Originate(u, p)];
    FirstEvent(m, u, p);
    assert start[..0] == [] && InHopOrder(m, [], id);
    assert NetAfter(m, start).origins == map[id := Origin(u, p)] && NetAfter(m, start).lost == {};
    es := SettlesInOrder(m, start, id);
    assert |NetAfter(m, es).origins| == 1;
    FewIdsAreNotRefused(m, es, id);
    FewIdsAreRemembered(m, es, id);
  }
}
