/**
 * One flood seen on its own. As long as no node that has taken an id in forgets it before another copy of it
 * arrives, the events of that id alone make up a run - a copy refused for rate or trust counting as lost - that
 * leaves the same visits, copies, crossings and inbox entries of the id, whatever else the network carries.
 */
module Projection {
  import opened Bytes
  import opened Packets
  import opened ReplayCache
  import opened Routing
  import opened Transport
  import opened Mesh
  import opened Provenance
  import opened Flood
  import opened CleanRun

  /** A copy that comes to a node which has taken its id in finds the id still cached. */
  ghost predicate Remembers(net: Net, e: Event, id: PacketId) {
    e.Deliver? && e.copy.pkt.header.packetId == id && Reached(net, e.copy.to, id) && e.copy.to in net.routers ==>
      id in net.routers[e.copy.to].cache
  }

  /** Throughout a run no such copy finds its id evicted. */
  ghost predicate Remembered(m: Topology, es: seq<Event>, id: PacketId)
    requires IsRun(m, es)
  {
    es == [] || (Remembered(m, es[..|es| - 1], id) && Remembers(NetAfter(m, es[..|es| - 1]), es[|es| - 1], id))
  }

  /** With at most 512 ids nothing is ever evicted. */
  lemma {:induction false} FewIdsAreRemembered(m: Topology, es: seq<Event>, id: PacketId)
    requires ValidTopology(m) && IsRun(m, es) && |NetAfter(m, es).origins| <= CACHE_SIZE
    ensures Remembered(m, es, id)
  {
    if es != [] {
      var front := es[..|es| - 1];
      OriginsOnlyGrow(m, NetAfter(m, front), es[|es| - 1]);
      FewIdsAreRemembered(m, front, id);
      RunIsTracked(m, front);
    }
  }

  predicate Refuses(r: Reaction) { r.dropped.Some? && r.dropped != Some(DuplicatePacket) }

  function IdOf(e: Event): PacketId {
    match e
    case Originate(_, p) => p.header.packetId
    case Deliver(c, _) => c.pkt.header.packetId
    case Lose(c) => c.pkt.header.packetId
  }

  /** What is left of an event when only one id is looked at. */
  ghost function Part(m: Topology, net: Net, e: Event, id: PacketId): seq<Event>
    requires Enabled(m, net, e)
  {
    if IdOf(e) != id then []
    else if e.Deliver? && Refuses(ReactionTo(net, e.copy, e.now)) then [Lose(e.copy)]
    else [e]
  }

  /** The events of one id. */
  ghost function Project(m: Topology, es: seq<Event>, id: PacketId): seq<Event>
    requires IsRun(m, es)
  {
    if es == [] then []
    else Project(m, es[..|es| - 1], id) + Part(m, NetAfter(m, es[..|es| - 1]), es[|es| - 1], id)
  }

  // ---- agreement about one id -----------------------------------------------------------------

  ghost predicate SameRecords(net: Net, n: Net, id: PacketId) {
    && (forall j :: j in n.origins <==> j == id && j in net.origins)
    && (id in net.origins ==> n.origins[id] == net.origins[id])
    && (forall k :: k in n.visits <==> k.id == id && k in net.visits)
    && (forall k :: k in n.visits ==> n.visits[k] == net.visits[k])
    && (forall e: Handed :: n.inbox[e] == if e.app.packetId == id then net.inbox[e] else 0)
  }

  ghost predicate SameFlight(flight: multiset<Copy>, own: multiset<Copy>, id: PacketId) {
    forall c: Copy :: own[c] == if c.pkt.header.packetId == id then flight[c] else 0
  }

  ghost predicate SameCrossings(net: Net, n: Net, id: PacketId) {
    && (forall x: Crossing :: x in n.sent <==> x.id == id && x in net.sent)
    && (forall x: Crossing :: x in n.got <==> x.id == id && x in net.got && x !in net.refused)
    && (forall x: Crossing :: x in n.lost <==> x.id == id && (x in net.lost || x in net.refused))
  }

  /** `n` is what `net` looks like to one who sees only this id. */
  ghost predicate Mirrors(net: Net, n: Net, id: PacketId) {
    SameRecords(net, n, id) && SameFlight(net.flight, n.flight, id) && SameCrossings(net, n, id)
  }

  lemma MirrorHasOneId(net: Net, n: Net, id: PacketId)
    requires SameRecords(net, n, id)
    ensures |n.origins| <= 1
  {
    assert n.origins.Keys <= {id};
    assert |n.origins| == |n.origins.Keys|;
    if n.origins.Keys != {} {
      assert n.origins.Keys == {id};
    }
  }

  // ---- events of other ids --------------------------------------------------------------------

  lemma OtherOriginate(m: Topology, net: Net, n: Net, u: NodeId, p: ClampPacket, id: PacketId)
    requires Mirrors(net, n, id) && u in net.routers && p.header.packetId != id
    ensures Mirrors(AfterOriginate(m, net, u, p), n, id)
  {
    FlightGrows(net.flight, Fan(m, u, u, p));
  }

  lemma OtherDelivery(m: Topology, net: Net, n: Net, c: Copy, r: Reaction, id: PacketId)
    requires Mirrors(net, n, id) && c.pkt.header.packetId != id
    requires r.handed.Some? ==> r.handed.value.packetId != id
    requires r.relayed.Some? ==> r.relayed.value.header.packetId != id
    ensures Mirrors(AfterReaction(m, net, c, r), n, id)
  {
    OtherRecords(m, net, n, c, r, id);
    OtherFlight(net.flight, n.flight, c, Relays(m, c, r), id);
    OtherCrossings(m, net, n, c, r, id);
  }

  lemma OtherRecords(m: Topology, net: Net, n: Net, c: Copy, r: Reaction, id: PacketId)
    requires SameRecords(net, n, id) && c.pkt.header.packetId != id
    requires r.handed.Some? ==> r.handed.value.packetId != id
    ensures SameRecords(AfterReaction(m, net, c, r), n, id)
  {}

  lemma OtherFlight(flight: multiset<Copy>, own: multiset<Copy>, c: Copy, fan: set<Copy>, id: PacketId)
    requires SameFlight(flight, own, id) && c.pkt.header.packetId != id
    requires forall d :: d in fan ==> d.pkt.header.packetId != id
    ensures SameFlight(flight - multiset{c} + multiset(fan), own, id)
  {}

  lemma OtherCrossings(m: Topology, net: Net, n: Net, c: Copy, r: Reaction, id: PacketId)
    requires SameCrossings(net, n, id) && c.pkt.header.packetId != id
    requires r.relayed.Some? ==> r.relayed.value.header.packetId != id
    ensures SameCrossings(AfterReaction(m, net, c, r), n, id)
  {
    assert forall x :: x in Crossings(Relays(m, c, r)) ==> x.id != id;
  }

  lemma OtherLoss(net: Net, n: Net, c: Copy, id: PacketId)
    requires Mirrors(net, n, id) && c.pkt.header.packetId != id
    ensures Mirrors(AfterLoss(net, c), n, id)
  {}

  // ---- events of the id -----------------------------------------------------------------------

  lemma OwnOriginate(m: Topology, net: Net, n: Net, u: NodeId, p: ClampPacket)
    requires Mirrors(net, n, p.header.packetId) && u in net.routers && u in n.routers
    ensures Mirrors(AfterOriginate(m, net, u, p), AfterOriginate(m, n, u, p), p.header.packetId)
  {}

  lemma OwnLoss(net: Net, n: Net, c: Copy)
    requires Mirrors(net, n, c.pkt.header.packetId) && CrossingOf(c) !in n.got
    ensures Mirrors(AfterLoss(net, c), AfterLoss(n, c), c.pkt.header.packetId)
  {}

  lemma OwnRefusal(m: Topology, net: Net, n: Net, c: Copy, r: Reaction)
    requires Mirrors(net, n, c.pkt.header.packetId) && r.handed == None && r.relayed == None && Refuses(r)
    requires CrossingOf(c) !in n.got
    ensures Mirrors(AfterReaction(m, net, c, r), AfterLoss(n, c), c.pkt.header.packetId)
  {
    IgnoredCopy(m, net, c, r);
  }

  /** Both networks react to a copy in the same way. */
  ghost predicate Agree(r: Reaction, q: Reaction, id: PacketId) {
    && q.handed == r.handed && q.relayed == r.relayed && q.dropped == r.dropped && !Refuses(r)
    && (r.handed.Some? ==> r.handed.value.packetId == id)
    && (r.relayed.Some? ==> r.relayed.value.header.packetId == id)
  }

  lemma OwnDelivery(m: Topology, net: Net, n: Net, c: Copy, r: Reaction, q: Reaction)
    requires Mirrors(net, n, c.pkt.header.packetId) && Agree(r, q, c.pkt.header.packetId) && CrossingOf(c) !in n.lost
    ensures Mirrors(AfterReaction(m, net, c, r), AfterReaction(m, n, c, q), c.pkt.header.packetId)
  {
    assert Relays(m, c, q) == Relays(m, c, r);
    OwnRecords(m, net, n, c, r, q);
    OwnFlight(net.flight, n.flight, c, Relays(m, c, r), c.pkt.header.packetId);
    OwnCrossings(m, net, n, c, r, q);
  }

  lemma OwnRecords(m: Topology, net: Net, n: Net, c: Copy, r: Reaction, q: Reaction)
    requires SameRecords(net, n, c.pkt.header.packetId) && Agree(r, q, c.pkt.header.packetId)
    ensures SameRecords(AfterReaction(m, net, c, r), AfterReaction(m, n, c, q), c.pkt.header.packetId)
  {}

  lemma OwnFlight(flight: multiset<Copy>, own: multiset<Copy>, c: Copy, fan: set<Copy>, id: PacketId)
    requires SameFlight(flight, own, id) && c.pkt.header.packetId == id && forall d :: d in fan ==> d.pkt.header.packetId == id
    ensures SameFlight(flight - multiset{c} + multiset(fan), own - multiset{c} + multiset(fan), id)
  {}

  lemma OwnCrossings(m: Topology, net: Net, n: Net, c: Copy, r: Reaction, q: Reaction)
    requires SameCrossings(net, n, c.pkt.header.packetId) && Agree(r, q, c.pkt.header.packetId) && CrossingOf(c) !in n.lost
    ensures SameCrossings(AfterReaction(m, net, c, r), AfterReaction(m, n, c, q), c.pkt.header.packetId)
  {
    assert Relays(m, c, q) == Relays(m, c, r);
    assert forall x :: x in Crossings(Relays(m, c, r)) ==> x.id == c.pkt.header.packetId;
  }

  /** A copy that is not refused: a node takes it in exactly if it has not done so before, in both networks. */
  lemma ReactionsAgree(m: Topology, net: Net, n: Net, c: Copy, now: nat)
    requires Genuine(m, net) && Enabled(m, net, Deliver(c, now)) && Remembers(net, Deliver(c, now), c.pkt.header.packetId)
    requires Tracked(m, n) && Clean(m, n) && Enabled(m, n, Deliver(c, now)) && |n.origins| <= 1
    requires Mirrors(net, n, c.pkt.header.packetId) && !Refuses(ReactionTo(net, c, now))
    ensures Agree(ReactionTo(net, c, now), ReactionTo(n, c, now), c.pkt.header.packetId)
  {
    var id, h := c.pkt.header.packetId, c.pkt.hopAuth.hopCounter;
    DeliveryIs(m, n, c, now);
    DeliveryReacts(m, net, c, now);
    var o := n.origins[id];
    ReactionToStamped(m, net.routers[c.to], o.node, o.packet, h, c.from, now);
    ReactionToStamped(m, n.routers[c.to], o.node, o.packet, h, c.from, now);
    CleanArrival(m, n, c, now);
    CachedIffReached(m, net, n, c, id);
  }

  lemma CachedIffReached(m: Topology, net: Net, n: Net, c: Copy, id: PacketId)
    requires CachesGenuine(net.visits, net.routers) && CachesOk(n.visits, n.routers) && SameRecords(net, n, id)
    requires c.to in net.routers && c.to in n.routers && (Reached(net, c.to, id) ==> id in net.routers[c.to].cache)
    ensures id in net.routers[c.to].cache <==> id in n.routers[c.to].cache
  {}

  // ---- the projected run ----------------------------------------------------------------------

  lemma StepMirrors(m: Topology, net: Net, ps: seq<Event>, e: Event, id: PacketId)
    requires ValidTopology(m) && Genuine(m, net) && Enabled(m, net, e) && Remembers(net, e, id)
    requires IsRun(m, ps) && Mirrors(net, NetAfter(m, ps), id)
    ensures var more := ps + Part(m, net, e, id); IsRun(m, more) && Mirrors(Apply(m, net, e), NetAfter(m, more), id)
  {
    if IdOf(e) != id {
      assert ps + [] == ps;
      OtherMirrors(m, net, NetAfter(m, ps), e, id);
    } else {
      OwnMirrors(m, net, ps, e, id);
    }
  }

  lemma OtherMirrors(m: Topology, net: Net, n: Net, e: Event, id: PacketId)
    requires Genuine(m, net) && Enabled(m, net, e) && IdOf(e) != id && Mirrors(net, n, id)
    ensures Mirrors(Apply(m, net, e), n, id)
  {
    match e
    case Originate(u, p) => OtherOriginate(m, net, n, u, p, id);
    case Lose(c) => OtherLoss(net, n, c, id);
    case Deliver(c, now) =>
      DeliveryReacts(m, net, c, now);
      OtherDelivery(m, net, n, c, ReactionTo(net, c, now), id);
  }

  lemma OwnMirrors(m: Topology, net: Net, ps: seq<Event>, e: Event, id: PacketId)
    requires ValidTopology(m) && Genuine(m, net) && Enabled(m, net, e) && Remembers(net, e, id) && IdOf(e) == id
    requires IsRun(m, ps) && Mirrors(net, NetAfter(m, ps), id)
    ensures var more := ps + Part(m, net, e, id); IsRun(m, more) && Mirrors(Apply(m, net, e), NetAfter(m, more), id)
  {
    var n := NetAfter(m, ps);
    MirrorHasOneId(net, n, id);
    RunIsClean(m, ps);
    match e
    case Originate(u, p) =>
      RunExtends(m, ps, e);
      OwnOriginate(m, net, n, u, p);
    case Lose(c) =>
      StillPending(m, net, n, c, id);
      RunExtends(m, ps, e);
      OwnLoss(net, n, c);
    case Deliver(c, now) =>
      StillPending(m, net, n, c, id);
      OwnDelivered(m, net, ps, c, now);
  }

  lemma StillPending(m: Topology, net: Net, n: Net, c: Copy, id: PacketId)
    requires Tracked(m, n) && Mirrors(net, n, id) && c in net.flight && c.pkt.header.packetId == id
    ensures c in n.flight && CrossingOf(c) !in n.got && CrossingOf(c) !in n.lost
  {
    assert n.flight[c] == net.flight[c];
  }

  lemma OwnDelivered(m: Topology, net: Net, ps: seq<Event>, c: Copy, now: nat)
    requires ValidTopology(m) && Genuine(m, net) && Enabled(m, net, Deliver(c, now))
    requires Remembers(net, Deliver(c, now), c.pkt.header.packetId)
    requires IsRun(m, ps) && Mirrors(net, NetAfter(m, ps), c.pkt.header.packetId) && |NetAfter(m, ps).origins| <= 1
    requires var n := NetAfter(m, ps);
             Tracked(m, n) && Clean(m, n) && c in n.flight && CrossingOf(c) !in n.got && CrossingOf(c) !in n.lost
    ensures var id := c.pkt.header.packetId; var more := ps + Part(m, net, Deliver(c, now), id);
            IsRun(m, more) && Mirrors(Apply(m, net, Deliver(c, now)), NetAfter(m, more), id)
  {
    var n, r := NetAfter(m, ps), ReactionTo(net, c, now);
    if Refuses(r) {
      DeliveryReacts(m, net, c, now);
      RunExtends(m, ps, Lose(c));
      OwnRefusal(m, net, n, c, r);
    } else {
      RunExtends(m, ps, Deliver(c, now));
      ReactionsAgree(m, net, n, c, now);
      OwnDelivery(m, net, n, c, r, ReactionTo(n, c, now));
    }
  }

  /** The events of a remembered id form a run, and it leaves what the whole run leaves of that id. */
  lemma {:induction false} ProjectionMirrors(m: Topology, es: seq<Event>, id: PacketId)
    requires ValidTopology(m) && IsRun(m, es) && Remembered(m, es, id)
    ensures var ps := Project(m, es, id);
            IsRun(m, ps) && Mirrors(NetAfter(m, es), NetAfter(m, ps), id) && |NetAfter(m, ps).origins| <= 1
  {
    if es != [] {
      var front, e := es[..|es| - 1], es[|es| - 1];
      ProjectionMirrors(m, front, id);
      RunIsGenuine(m, front);
      StepMirrors(m, NetAfter(m, front), Project(m, front, id), e, id);
    }
    MirrorHasOneId(NetAfter(m, es), NetAfter(m, Project(m, es, id)), id);
  }

  /** So the state of the projected run is clean and accounted for. */
  lemma ProjectionIsClean(m: Topology, es: seq<Event>, id: PacketId) returns (n: Net)
    requires ValidTopology(m) && IsRun(m, es) && Remembered(m, es, id)
    ensures IsRun(m, Project(m, es, id)) && n == NetAfter(m, Project(m, es, id))
    ensures Mirrors(NetAfter(m, es), n, id) && Tracked(m, n) && Clean(m, n) && |n.origins| <= 1
  {
    ProjectionMirrors(m, es, id);
    n := NetAfter(m, Project(m, es, id));
    RunIsClean(m, Project(m, es, id));
  }
}
