/** What a flood costs: one crossing per link and id, 2|E| - (n-1) copies, and a bound on the length of every run. */
module FloodCost {
  import opened Packets
  import opened Mesh
  import opened Paths
  import opened Provenance
  import opened Flood
  import opened Projection
  import opened Termination

  /** The copies an event puts on the wire. */
  ghost function PutOn(m: Topology, net: Net, e: Event): set<Copy>
    requires Enabled(m, net, e)
  {
    match e
    case Originate(u, p) => Fan(m, u, u, p)
    case Deliver(c, now) => Relays(m, c, ReactionTo(net, c, now))
    case Lose(_) => {}
  }

  /** The copy an event takes off the wire. */
  function TakenOff(e: Event): set<Crossing> {
    match e
    case Originate(_, _) => {}
    case Deliver(c, _) => {CrossingOf(c)}
    case Lose(c) => {CrossingOf(c)}
  }

  /** How often a run sends an id over a link. */
  ghost function TimesSent(m: Topology, es: seq<Event>, x: Crossing): nat
    requires IsRun(m, es)
  {
    if es == [] then 0
    else
      TimesSent(m, es[..|es| - 1], x) +
      if x in Crossings(PutOn(m, NetAfter(m, es[..|es| - 1]), es[|es| - 1])) then 1 else 0
  }

  lemma StepLedger(m: Topology, net: Net, e: Event)
    requires Enabled(m, net, e)
    ensures var n := Apply(m, net, e);
            && n.sent == net.sent + Crossings(PutOn(m, net, e))
            && n.got + n.lost == net.got + net.lost + TakenOff(e)
  {
    assert Crossings({}) == {};
  }

  /** Only a node that has not seen the id before can put it on the wire. */
  lemma PutOnIsNew(m: Topology, net: Net, n: Net, e: Event, x: Crossing)
    requires Genuine(m, net) && Enabled(m, net, e) && Remembers(net, e, x.id)
    requires Tracked(m, n) && Mirrors(net, n, x.id) && x in Crossings(PutOn(m, net, e))
    ensures x !in net.sent
  {
    if e.Deliver? {
      DeliveryReacts(m, net, e.copy, e.now);
      assert x.from == e.copy.to && !Reached(net, x.from, x.id);
      assert !Due(m, n.origins, n.visits, x);
    }
  }

  /** Every directed link carries a remembered id at most once. */
  lemma {:induction false} SentAtMostOnce(m: Topology, es: seq<Event>, x: Crossing)
    requires ValidTopology(m) && IsRun(m, es) && Remembered(m, es, x.id)
    ensures TimesSent(m, es, x) == if x in NetAfter(m, es).sent then 1 else 0
  {
    if es != [] {
      var front, e := es[..|es| - 1], es[|es| - 1];
      var net := NetAfter(m, front);
      SentAtMostOnce(m, front, x);
      StepLedger(m, net, e);
      if x in Crossings(PutOn(m, net, e)) {
        var n := ProjectionIsClean(m, front, x.id);
        RunIsGenuine(m, front);
        PutOnIsNew(m, net, n, e, x);
      }
    }
  }

  ghost function Progress(net: Net): nat { |net.origins| + |net.got + net.lost| }

  lemma ProgressStep(m: Topology, net: Net, e: Event)
    requires Enabled(m, net, e) && (!e.Originate? ==> CrossingOf(e.copy) !in net.got + net.lost)
    ensures Progress(Apply(m, net, e)) == Progress(net) + 1
  {
    StepLedger(m, net, e);
    if e.Originate? {
      assert |net.origins[e.packet.header.packetId := Origin(e.node, e.packet)]| == |net.origins| + 1;
    } else {
      OneMoreEnded(net.got + net.lost, CrossingOf(e.copy));
    }
  }

  lemma OneMoreEnded(xs: set<Crossing>, x: Crossing)
    requires x !in xs
    ensures |xs + {x}| == |xs| + 1
  {}

  /** No id is evicted anywhere while copies of it still arrive. */
  ghost predicate NothingForgotten(m: Topology, es: seq<Event>)
    requires IsRun(m, es)
  {
    forall id :: Remembered(m, es, id)
  }

  /** A copy on the wire is the only one of its crossing. */
  lemma CrossingIsOpen(m: Topology, es: seq<Event>, c: Copy)
    requires ValidTopology(m) && IsRun(m, es) && Remembered(m, es, c.pkt.header.packetId) && c in NetAfter(m, es).flight
    ensures CrossingOf(c) !in NetAfter(m, es).got + NetAfter(m, es).lost
  {
    var n := ProjectionIsClean(m, es, c.pkt.header.packetId);
    StillPending(m, NetAfter(m, es), n, c, c.pkt.header.packetId);
  }

  /** Every event either originates a new id or ends a crossing of its own. */
  lemma {:induction false} EventsAreCounted(m: Topology, es: seq<Event>)
    requires ValidTopology(m) && IsRun(m, es) && NothingForgotten(m, es)
    ensures |es| == Progress(NetAfter(m, es))
  {
    if es != [] {
      var front, e := es[..|es| - 1], es[|es| - 1];
      forall id ensures Remembered(m, front, id) { assert Remembered(m, es, id); }
      EventsAreCounted(m, front);
      if !e.Originate? {
        CrossingIsOpen(m, front, e.copy);
      }
      ProgressStep(m, NetAfter(m, front), e);
    } else {
      assert NetAfter(m, es).got + NetAfter(m, es).lost == {};
    }
  }

  // ---- the number of copies ---------------------------------------------------------------

  ghost function Of(xs: set<Crossing>, id: PacketId): set<Crossing> { set x | x in xs && x.id == id }

  /** A link out of `v` that the id never crosses. */
  ghost predicate IsSpare(m: Topology, sent: set<Crossing>, id: PacketId, v: NodeId, l: Link) {
    l in m.links && l.from == v && Crossing(l.from, l.to, id) !in sent
  }

  /** Every node but the origin has such a link: back to its parent, or any link if it was not reached. */
  lemma SpareLink(m: Topology, net: Net, id: PacketId, v: NodeId) returns (l: Link)
    requires ValidTopology(m) && Connected(m) && VisitsOk(m, net.origins, net.visits)
    requires SentOk(m, net.origins, net.visits, net.sent)
    requires id in net.origins && v in m.nodes && v != net.origins[id].node && net.origins[id].node in m.nodes
    ensures IsSpare(m, net.sent, id, v, l)
  {
    if Reached(net, v, id) {
      l := ParentLink(m, net, id, v);
    } else {
      assert Linked(m, v, net.origins[id].node);
      var p :| Joins(m, p, v, net.origins[id].node);
      l := PathLeaves(m, p, {v});
      assert !Due(m, net.origins, net.visits, Crossing(v, l.to, id));
    }
  }

  lemma ParentLink(m: Topology, net: Net, id: PacketId, v: NodeId) returns (l: Link)
    requires ValidTopology(m) && VisitsOk(m, net.origins, net.visits)
    requires SentOk(m, net.origins, net.visits, net.sent)
    requires id in net.origins && Reached(net, v, id) && v != net.origins[id].node
    ensures IsSpare(m, net.sent, id, v, l)
  {
    assert VisitOk(m, net.origins, net.visits, Key(v, id));
    l := Link(v, net.visits[Key(v, id)].parent);
    assert !Due(m, net.origins, net.visits, Crossing(l.from, l.to, id));
  }

  lemma {:induction false} SpareLinks(m: Topology, sent: set<Crossing>, id: PacketId, some: set<NodeId>) returns (spare: set<Link>)
    requires forall v :: v in some ==> exists l :: IsSpare(m, sent, id, v, l)
    ensures |spare| == |some|
    ensures forall l :: l in spare ==> l.from in some && IsSpare(m, sent, id, l.from, l)
  {
    if some == {} {
      spare := {};
    } else {
      var v :| v in some;
      var others := SpareLinks(m, sent, id, some - {v});
      var l :| IsSpare(m, sent, id, v, l);
      assert l !in others;
      spare := others + {l};
    }
  }

  lemma {:induction false} CrossingsAreLinks(m: Topology, xs: set<Crossing>, id: PacketId, links: set<Link>)
    requires forall x :: x in xs ==> x.id == id && Link(x.from, x.to) in links
    ensures |xs| <= |links|
  {
    if xs != {} {
      var x :| x in xs;
      CrossingsAreLinks(m, xs - {x}, id, links - {Link(x.from, x.to)});
    }
  }

  /**
   * In a connected network of n nodes and |E| links (2|E| directed ones) one id is sent at most
   * 2|E| - (n-1) times, whether its flood reaches every node or not.
   */
  lemma CopiesBound(m: Topology, es: seq<Event>, id: PacketId)
    requires ValidTopology(m) && Connected(m) && IsRun(m, es) && Remembered(m, es, id)
    requires id in NetAfter(m, es).origins
    ensures |Of(NetAfter(m, es).sent, id)| + |m.nodes| - 1 <= |m.links|
  {
    var n := ProjectionIsClean(m, es, id);
    SameSent(NetAfter(m, es), n, id);
    CopiesBoundTracked(m, n, id);
  }

  lemma SameSent(net: Net, n: Net, id: PacketId)
    requires SameCrossings(net, n, id)
    ensures Of(net.sent, id) == Of(n.sent, id)
  {}

  lemma CopiesBoundTracked(m: Topology, net: Net, id: PacketId)
    requires ValidTopology(m) && Connected(m) && Tracked(m, net) && id in net.origins
    ensures |Of(net.sent, id)| + |m.nodes| - 1 <= |m.links|
  {
    var origin := net.origins[id].node;
    assert OriginOk(m, net.origins, net.visits, id);
    forall v | v in m.nodes - {origin} ensures exists l :: IsSpare(m, net.sent, id, v, l) {
      var l := SpareLink(m, net, id, v);
    }
    var spare := SpareLinks(m, net.sent, id, m.nodes - {origin});
    SentOverOtherLinks(m, net, id, spare);
    OneLess(m.nodes, origin);
  }

  lemma SentOverOtherLinks(m: Topology, net: Net, id: PacketId, spare: set<Link>)
    requires SentOk(m, net.origins, net.visits, net.sent)
    requires forall l :: l in spare ==> IsSpare(m, net.sent, id, l.from, l)
    ensures |Of(net.sent, id)| + |spare| <= |m.links|
  {
    forall x | x in Of(net.sent, id) ensures x.id == id && Link(x.from, x.to) in m.links - spare {
      assert Due(m, net.origins, net.visits, x);
    }
    CrossingsAreLinks(m, Of(net.sent, id), id, m.links - spare);
    assert m.links == (m.links - spare) + spare;
    assert |m.links| == |m.links - spare| + |spare|;
  }

  lemma OneLess<T>(s: set<T>, x: T)
    requires x in s
    ensures |s - {x}| == |s| - 1
  {}

  lemma WithoutId(xs: set<Crossing>, id: PacketId)
    ensures |xs| == |Of(xs, id)| + |xs - Of(xs, id)|
  {
    assert xs == Of(xs, id) + (xs - Of(xs, id));
  }

  lemma {:induction false} CrossingsByIds(xs: set<Crossing>, ids: set<PacketId>, each: int)
    requires forall x :: x in xs ==> x.id in ids
    requires forall id :: id in ids ==> |Of(xs, id)| <= each
    ensures |xs| <= Total(|ids|, each)
  {
    if ids != {} {
      var id :| id in ids;
      var others := xs - Of(xs, id);
      assert forall j :: j in ids - {id} ==> Of(others, j) == Of(xs, j);
      CrossingsByIds(others, ids - {id}, each);
      WithoutId(xs, id);
      OneLess(ids, id);
    } else {
      assert xs == {};
    }
  }

  /** All copies ever sent, if each id has at most `each`. */
  lemma SentTotal(m: Topology, net: Net, each: int)
    requires CrossingsGenuine(m, net.origins, net.sent)
    requires forall id :: id in net.origins.Keys ==> |Of(net.sent, id)| <= each
    ensures |net.sent| <= Total(|net.origins|, each)
  {
    CrossingsByIds(net.sent, net.origins.Keys, each);
    assert |net.origins.Keys| == |net.origins|;
  }

  lemma RunWithin(m: Topology, es: seq<Event>, each: int)
    requires ValidTopology(m) && IsRun(m, es) && NothingForgotten(m, es)
    requires forall id :: id in NetAfter(m, es).origins.Keys ==> |Of(NetAfter(m, es).sent, id)| <= each
    ensures |es| <= |NetAfter(m, es).origins| + Total(|NetAfter(m, es).origins|, each)
  {
    var net := NetAfter(m, es);
    RunIsGenuine(m, es);
    EventsAreCounted(m, es);
    SubsetCard(net.got + net.lost, net.sent);
    SentTotal(m, net, each);
  }

  /**
   * While nothing is forgotten the number of events is small: k to originate k ids, and k |E| deliveries and
   * losses, where |E| counts directed links.
   */
  lemma RunLength(m: Topology, es: seq<Event>, k: nat)
    requires ValidTopology(m) && IsRun(m, es) && NothingForgotten(m, es) && k == |NetAfter(m, es).origins|
    ensures |es| <= k + k * |m.links|
  {
    var net := NetAfter(m, es);
    assert CrossingsGenuine(m, net.origins, net.sent) by { RunIsGenuine(m, es); }
    forall id | id in net.origins.Keys ensures |Of(net.sent, id)| <= |m.links| {
      CrossingsAreLinks(m, Of(net.sent, id), id, m.links);
    }
    RunWithin(m, es, |m.links|);
    TotalIsProduct(k, |m.links|);
  }

  /** In a connected network of n nodes, k |E| sharpens to k (|E| - (n-1)). */
  lemma RunLengthConnected(m: Topology, es: seq<Event>, k: nat, each: int)
    requires ValidTopology(m) && Connected(m) && IsRun(m, es) && NothingForgotten(m, es) && k == |NetAfter(m, es).origins|
    requires each == |m.links| - (|m.nodes| - 1)
    ensures |es| <= k + k * each
  {
    forall id | id in NetAfter(m, es).origins.Keys ensures |Of(NetAfter(m, es).sent, id)| <= each {
      assert Remembered(m, es, id);
      CopiesBound(m, es, id);
    }
    RunWithin(m, es, each);
    TotalIsProduct(k, each);
  }

  // ---- what the applications get ------------------------------------------------------------

  /**
   * Each application is handed a remembered id at most once - exactly once if another node's packet reached it -
   * and what it is handed has the originator's type, nonce, ciphertext and tag.
   */
  lemma HandedOnce(m: Topology, es: seq<Event>, v: NodeId, id: PacketId)
    requires ValidTopology(m) && IsRun(m, es) && Remembered(m, es, id)
    ensures var net := NetAfter(m, es);
            var entries := HandedTo(net.inbox, v, id);
            && |entries| <= 1
            && (forall e :: e in entries ==> net.inbox[e] == 1 && id in net.origins && SameContents(e.app, net.origins[id].packet))
            && (entries != {} <==> id in net.origins && Reached(net, v, id) && v != net.origins[id].node)
  {
    var net := NetAfter(m, es);
    var n := ProjectionIsClean(m, es, id);
    OneEntryPerVisit(m, n, v, id);
    SameEntries(net, n, v, id);
  }

  lemma SameEntries(net: Net, n: Net, v: NodeId, id: PacketId)
    requires SameRecords(net, n, id)
    ensures HandedTo(net.inbox, v, id) == HandedTo(n.inbox, v, id)
  {
    forall e: Handed ensures e in HandedTo(net.inbox, v, id) <==> e in HandedTo(n.inbox, v, id) {
      assert n.inbox[e] == if e.app.packetId == id then net.inbox[e] else 0;
    }
  }

  lemma OneEntryPerVisit(m: Topology, net: Net, v: NodeId, id: PacketId)
    requires OriginsOk(m, net.origins, net.visits) && VisitsOk(m, net.origins, net.visits)
    requires InboxOk(net.origins, net.visits, net.inbox)
    ensures var entries := HandedTo(net.inbox, v, id);
            && |entries| <= 1
            && (forall e :: e in entries ==> net.inbox[e] == 1 && id in net.origins && SameContents(e.app, net.origins[id].packet))
            && (entries != {} <==> id in net.origins && Reached(net, v, id) && v != net.origins[id].node)
  {
    var entries := HandedTo(net.inbox, v, id);
    var k := Key(v, id);
    assert id in net.origins ==> OriginOk(m, net.origins, net.visits, id);
    assert k in net.visits ==> VisitOk(m, net.origins, net.visits, k);
    if HandsUp(net.origins, net.visits, k) {
      var e := EntryOf(net.origins, net.visits, k);
      assert e in entries;
      forall d | d in entries ensures d == e { assert KeyOf(d) == k; }
      assert entries == {e};
    } else {
      assert forall d :: d in entries ==> KeyOf(d) == k;
    }
  }
}
