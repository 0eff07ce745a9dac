/**
 * Which floods are possible: the records that settled floods of a packet can leave behind are exactly the trees of
 * first receptions described by `IsOutcome`. Whom a packet always reaches is thereby decided by the network alone.
 */
module Outcomes {
  import opened Packets
  import opened RateLimit
  import opened Mesh
  import opened Flood
  import opened CleanRun
  import opened Provenance
  import opened Projection
  import opened Coverage
  import opened Termination

  /** A node other than the origin hangs off a neighbour, one deeper, within reach. */
  ghost predicate HangsOff(m: Topology, ttl: nat, t: map<NodeId, Visit>, v: NodeId)
    requires v in t
  {
    var w := t[v];
    w.parent in t && Link(w.parent, v) in m.links && w.depth == t[w.parent].depth + 1 <= ttl + 1
  }

  /** A tree of links from the origin that leaves out no neighbour of a node with TTL left. */
  ghost predicate IsOutcome(m: Topology, o: NodeId, ttl: nat, t: map<NodeId, Visit>) {
    && o in t && t[o] == Visit(0, o)
    && (forall v {:trigger HangsOff(m, ttl, t, v)} :: v in t && v != o ==> HangsOff(m, ttl, t, v))
    && (forall u, v :: u in t && t[u].depth <= ttl && Link(u, v) in m.links ==> v in t)
  }

  /** Who took an id in, at which depth and from whom. */
  ghost function Record(m: Topology, net: Net, id: PacketId): map<NodeId, Visit> {
    map v | v in m.nodes && Reached(net, v, id) :: net.visits[Key(v, id)]
  }

  /** A run in which the flood of `p` from `o` was remembered and has settled, nothing of it lost or refused. */
  ghost predicate FloodOf(m: Topology, es: seq<Event>, o: NodeId, p: ClampPacket) {
    && IsRun(m, es) && Remembered(m, es, p.header.packetId)
    && (var net, id := NetAfter(m, es), p.header.packetId;
        id in net.origins && net.origins[id] == Origin(o, p) && SettledWhole(net, id))
  }

  // ---- every flood leaves such a tree ----------------------------------------------------------

  lemma FloodLeavesOutcome(m: Topology, es: seq<Event>, o: NodeId, p: ClampPacket)
    requires ValidTopology(m) && FloodOf(m, es, o, p)
    ensures IsOutcome(m, o, p.header.ttl, Record(m, NetAfter(m, es), p.header.packetId))
  {
    var n := SettledProjection(m, es, p.header.packetId);
    RecordIsOutcome(m, n, p.header.packetId);
    SameRecord(m, NetAfter(m, es), n, p.header.packetId);
  }

  lemma SameRecord(m: Topology, net: Net, n: Net, id: PacketId)
    requires SameRecords(net, n, id)
    ensures Record(m, net, id) == Record(m, n, id)
  {}

  lemma RecordIsOutcome(m: Topology, net: Net, id: PacketId)
    requires ValidTopology(m) && Tracked(m, net) && id in net.origins && SettledWhole(net, id)
    ensures IsOutcome(m, net.origins[id].node, Reach(net, id), Record(m, net, id))
  {
    var t := Record(m, net, id);
    assert OriginOk(m, net.origins, net.visits, id);
    forall v | v in t && v != net.origins[id].node ensures HangsOff(m, Reach(net, id), t, v) {
      assert VisitOk(m, net.origins, net.visits, Key(v, id));
      assert VisitOk(m, net.origins, net.visits, Key(net.visits[Key(v, id)].parent, id));
    }
    forall u, v | u in t && t[u].depth <= Reach(net, id) && Link(u, v) in m.links ensures v in t {
      NeighbourReached(m, net, id, u, v);
    }
  }

  // ---- every such tree is left by some flood -----------------------------------------------------

  /** In a clean state a delivery adds the receiver's visit unless it has one, and changes no other. */
  lemma DeliveryVisits(m: Topology, net: Net, c: Copy)
    requires Tracked(m, net) && Clean(m, net) && Enabled(m, net, Deliver(c, 0)) && |net.origins| <= RATE_BURST
    ensures var n, k := Apply(m, net, Deliver(c, 0)), Key(c.to, c.pkt.header.packetId);
            && n.origins == net.origins && n.lost == net.lost
            && n.visits == if k in net.visits then net.visits else net.visits[k := Visit(c.pkt.hopAuth.hopCounter + 1, c.from)]
  {
    DeliveryIs(m, net, c, 0);
    var id, h := c.pkt.header.packetId, c.pkt.hopAuth.hopCounter;
    CleanArrival(m, net, c, 0);
    ReactionToStamped(m, net.routers[c.to], net.origins[id].node, net.origins[id].packet, h, c.from, 0);
    assert id in net.routers[c.to].cache <==> Key(c.to, id) in net.visits;
  }

  /** Part of the tree has been built: its nodes and no others have the packet, as the tree says. */
  ghost predicate Grown(m: Topology, net: Net, o: NodeId, p: ClampPacket, t: map<NodeId, Visit>, done: set<NodeId>) {
    var id := p.header.packetId;
    && net.origins == map[id := Origin(o, p)] && net.lost == {}
    && o in done && done <= t.Keys && Matches(net.visits, id, t, done)
  }

  /** The visits of an id are those the tree gives to the done nodes. */
  ghost predicate Matches(visits: map<Key, Visit>, id: PacketId, t: map<NodeId, Visit>, done: set<NodeId>)
    requires done <= t.Keys
  {
    && (forall v :: Key(v, id) in visits <==> v in done)
    && (forall v :: v in done ==> visits[Key(v, id)] == t[v])
  }

  ghost predicate CanGrow(m: Topology, o: NodeId, p: ClampPacket, t: map<NodeId, Visit>, done: set<NodeId>) {
    exists es :: IsRun(m, es) && Grown(m, NetAfter(m, es), o, p, t, done)
  }

  /** Going up the tree from a node that is not done leads to one whose parent is. */
  lemma {:induction false} Frontier(m: Topology, o: NodeId, ttl: nat, t: map<NodeId, Visit>, done: set<NodeId>, v: NodeId) returns (x: NodeId)
    requires IsOutcome(m, o, ttl, t) && o in done && v in t && v !in done
    ensures x in t && x !in done && t[x].parent in done
    decreases t[v].depth
  {
    assert HangsOff(m, ttl, t, v);
    if t[v].parent in done {
      x := v;
    } else {
      x := Frontier(m, o, ttl, t, done, t[v].parent);
    }
  }

  /** The copy from a done node to one that is not done is still on the wire. */
  lemma EdgeIsPending(m: Topology, net: Net, o: NodeId, p: ClampPacket, t: map<NodeId, Visit>, done: set<NodeId>, x: NodeId) returns (c: Copy)
    requires ValidTopology(m) && Tracked(m, net) && Clean(m, net) && Grown(m, net, o, p, t, done)
    requires IsOutcome(m, o, p.header.ttl, t) && x in t && x !in done && t[x].parent in done
    ensures c in net.flight && c.from == t[x].parent && c.to == x && c.pkt.header.packetId == p.header.packetId
    ensures c.pkt.hopAuth.hopCounter + 1 == t[x].depth && Enabled(m, net, Deliver(c, 0))
  {
    var id, u := p.header.packetId, t[x].parent;
    assert HangsOff(m, p.header.ttl, t, x);
    assert VisitOk(m, net.origins, net.visits, Key(u, id));
    assert OriginOk(m, net.origins, net.visits, id);
    assert u == o || Reached(net, t[u].parent, id);
    var y := Crossing(u, x, id);
    assert Due(m, net.origins, net.visits, y);
    assert !Reached(net, x, id);
    c := CopyOn(m, net.origins, net.visits, y);
  }

  lemma GrowStarts(m: Topology, o: NodeId, p: ClampPacket, t: map<NodeId, Visit>)
    requires o in m.nodes && Originated(m, o, p) && IsOutcome(m, o, p.header.ttl, t)
    ensures CanGrow(m, o, p, t, {o})
  {
    FirstEvent(m, o, p);
    var es := [Originate(o, p)];
    assert NetAfter(m, es).origins == map[p.header.packetId := Origin(o, p)];
    assert Grown(m, NetAfter(m, es), o, p, t, {o});
  }

  /** A visit added as the tree says. */
  lemma GrownBy(m: Topology, net: Net, n: Net, o: NodeId, p: ClampPacket, t: map<NodeId, Visit>, done: set<NodeId>, x: NodeId)
    requires Grown(m, net, o, p, t, done) && x in t && x !in done
    requires n.visits == net.visits[Key(x, p.header.packetId) := t[x]] && n.origins == net.origins && n.lost == net.lost
    ensures Grown(m, n, o, p, t, done + {x})
  {
    MatchesMore(net.visits, p.header.packetId, t, done, x);
  }

  lemma MatchesMore(visits: map<Key, Visit>, id: PacketId, t: map<NodeId, Visit>, done: set<NodeId>, x: NodeId)
    requires done <= t.Keys && x in t && Matches(visits, id, t, done)
    ensures Matches(visits[Key(x, id) := t[x]], id, t, done + {x})
  {}

  lemma GrowStep(m: Topology, o: NodeId, p: ClampPacket, t: map<NodeId, Visit>, done: set<NodeId>, x: NodeId)
    requires ValidTopology(m) && IsOutcome(m, o, p.header.ttl, t) && CanGrow(m, o, p, t, done)
    requires x in t && x !in done && t[x].parent in done
    ensures CanGrow(m, o, p, t, done + {x})
  {
    var es :| IsRun(m, es) && Grown(m, NetAfter(m, es), o, p, t, done);
    var more := GrowRun(m, es, o, p, t, done, x);
  }

  lemma GrowRun(m: Topology, es: seq<Event>, o: NodeId, p: ClampPacket, t: map<NodeId, Visit>, done: set<NodeId>, x: NodeId)
    returns (more: seq<Event>)
    requires ValidTopology(m) && IsOutcome(m, o, p.header.ttl, t) && IsRun(m, es) && Grown(m, NetAfter(m, es), o, p, t, done)
    requires x in t && x !in done && t[x].parent in done
    ensures IsRun(m, more) && Grown(m, NetAfter(m, more), o, p, t, done + {x})
  {
    var net := NetAfter(m, es);
    assert |net.origins| == 1;
    RunIsClean(m, es);
    var c := EdgeIsPending(m, net, o, p, t, done, x);
    assert Key(x, p.header.packetId) !in net.visits;
    DeliveryVisits(m, net, c);
    GrownBy(m, net, Apply(m, net, Deliver(c, 0)), o, p, t, done, x);
    RunExtends(m, es, Deliver(c, 0));
    more := es + [Deliver(c, 0)];
  }

  lemma {:induction false} GrowAll(m: Topology, o: NodeId, p: ClampPacket, t: map<NodeId, Visit>, done: set<NodeId>)
    requires ValidTopology(m) && IsOutcome(m, o, p.header.ttl, t) && CanGrow(m, o, p, t, done) && o in done && done <= t.Keys
    ensures CanGrow(m, o, p, t, t.Keys)
    decreases |t.Keys - done|
  {
    if t.Keys <= done {
      assert done == t.Keys;
    } else {
      var v :| v in t.Keys && v !in done;
      var x := Frontier(m, o, p.header.ttl, t, done, v);
      GrowStep(m, o, p, t, done, x);
      assert t.Keys - done == (t.Keys - (done + {x})) + {x};
      GrowAll(m, o, p, t, done + {x});
    }
  }

  /** When the tree is complete every copy left on the wire is a duplicate where it goes. */
  lemma CompleteStays(m: Topology, net: Net, o: NodeId, p: ClampPacket, t: map<NodeId, Visit>, c: Copy)
    requires Tracked(m, net) && Clean(m, net) && Grown(m, net, o, p, t, t.Keys) && IsOutcome(m, o, p.header.ttl, t)
    requires Enabled(m, net, Deliver(c, 0))
    ensures Grown(m, Apply(m, net, Deliver(c, 0)), o, p, t, t.Keys)
  {
    assert |net.origins| == 1;
    assert Due(m, net.origins, net.visits, CrossingOf(c));
    assert Reached(net, c.from, p.header.packetId) && Reached(net, c.to, p.header.packetId);
    DeliveryVisits(m, net, c);
  }

  lemma {:induction false} CompleteSettles(m: Topology, es: seq<Event>, o: NodeId, p: ClampPacket, t: map<NodeId, Visit>)
    returns (all: seq<Event>)
    requires ValidTopology(m) && IsRun(m, es)
    requires Grown(m, NetAfter(m, es), o, p, t, t.Keys) && IsOutcome(m, o, p.header.ttl, t)
    ensures IsRun(m, all) && NetAfter(m, all).flight == multiset{} && Grown(m, NetAfter(m, all), o, p, t, t.Keys)
    decreases Left(|m.links|, NetAfter(m, es).flight)
  {
    if NetAfter(m, es).flight == multiset{} {
      all := es;
    } else {
      assert |NetAfter(m, es).origins| == 1;
      RunIsClean(m, es);
      var c, more := OneMoreDelivery(m, es);
      CompleteStays(m, NetAfter(m, es), o, p, t, c);
      all := CompleteSettles(m, more, o, p, t);
    }
  }

  /** Every such tree is the record of some settled flood, of this packet alone. */
  lemma OutcomeHasFlood(m: Topology, o: NodeId, p: ClampPacket, t: map<NodeId, Visit>) returns (es: seq<Event>)
    requires ValidTopology(m) && o in m.nodes && Originated(m, o, p) && IsOutcome(m, o, p.header.ttl, t)
    ensures FloodOf(m, es, o, p) && Record(m, NetAfter(m, es), p.header.packetId) == t
  {
    GrowStarts(m, o, p, t);
    GrowAll(m, o, p, t, {o});
    var front :| IsRun(m, front) && Grown(m, NetAfter(m, front), o, p, t, t.Keys);
    es := CompleteSettles(m, front, o, p, t);
    GrownIsRecord(m, es, o, p, t);
  }

  lemma GrownIsRecord(m: Topology, es: seq<Event>, o: NodeId, p: ClampPacket, t: map<NodeId, Visit>)
    requires ValidTopology(m) && IsRun(m, es) && NetAfter(m, es).flight == multiset{}
    requires Grown(m, NetAfter(m, es), o, p, t, t.Keys)
    ensures FloodOf(m, es, o, p) && Record(m, NetAfter(m, es), p.header.packetId) == t
  {
    var net, id := NetAfter(m, es), p.header.packetId;
    assert |net.origins| == 1;
    assert NoneRefused(net, id) by { FewIdsAreNotRefused(m, es, id); }
    FewIdsAreRemembered(m, es, id);
    assert VisitsOk(m, net.origins, net.visits) by { RunIsTracked(m, es); }
    RecordOfMatch(m, net, id, t);
  }

  lemma RecordOfMatch(m: Topology, net: Net, id: PacketId, t: map<NodeId, Visit>)
    requires VisitsOk(m, net.origins, net.visits) && Matches(net.visits, id, t, t.Keys)
    ensures Record(m, net, id) == t
  {
    forall v | v in t ensures v in m.nodes {
      assert VisitOk(m, net.origins, net.visits, Key(v, id));
    }
  }

  // ---- whom a packet always reaches ------------------------------------------------------------

  /** In every run whose flood of `p` from `o` settles, nothing lost or refused, node `w` has the packet. */
  ghost predicate AlwaysReached(m: Topology, o: NodeId, p: ClampPacket, w: NodeId) {
    forall es :: FloodOf(m, es, o, p) ==> Reached(NetAfter(m, es), w, p.header.packetId)
  }

  /** Some tree of the network avoids `w`: a condition on links, origin and TTL only. */
  ghost predicate Avoidable(m: Topology, o: NodeId, ttl: nat, w: NodeId) {
    exists t :: IsOutcome(m, o, ttl, t) && w !in t
  }

  /** A packet reaches a node for certain exactly if no such tree of the network avoids it. */
  lemma AlwaysReachedIff(m: Topology, o: NodeId, p: ClampPacket, w: NodeId)
    requires ValidTopology(m) && o in m.nodes && w in m.nodes && Originated(m, o, p)
    ensures AlwaysReached(m, o, p, w) <==> !Avoidable(m, o, p.header.ttl, w)
  {
    var id := p.header.packetId;
    if Avoidable(m, o, p.header.ttl, w) {
      var t :| IsOutcome(m, o, p.header.ttl, t) && w !in t;
      var es := OutcomeHasFlood(m, o, p, t);
      assert w !in Record(m, NetAfter(m, es), id);
    } else {
      forall es | FloodOf(m, es, o, p) ensures Reached(NetAfter(m, es), w, id) {
        FloodLeavesOutcome(m, es, o, p);
        assert w in Record(m, NetAfter(m, es), id);
      }
    }
  }

  /** It reaches everyone for certain exactly if every such tree spans the network. */
  lemma CoverageIff(m: Topology, o: NodeId, p: ClampPacket)
    requires ValidTopology(m) && o in m.nodes && Originated(m, o, p)
    ensures (forall w :: w in m.nodes ==> AlwaysReached(m, o, p, w)) <==>
            (forall t :: IsOutcome(m, o, p.header.ttl, t) ==> m.nodes <= t.Keys)
  {
    forall w | w in m.nodes ensures AlwaysReached(m, o, p, w) <==> !Avoidable(m, o, p.header.ttl, w) {
      AlwaysReachedIff(m, o, p, w);
    }
    if t :| IsOutcome(m, o, p.header.ttl, t) && !(m.nodes <= t.Keys) {
      var w :| w in m.nodes && w !in t.Keys;
      assert Avoidable(m, o, p.header.ttl, w);
    }
  }
}
