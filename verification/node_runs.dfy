/**
 * Each node of the network runs the code: what its own pipeline makes of the frames delivered to it, one after another,
 * is its router and its inbox in the network's state, and what it offers to its channels is what the network carries.
 */
module NodeRuns {
  import opened Bytes
  import opened Packets
  import opened Routing
  import opened Transport
  import opened Mesh
  import opened Verdicts

  /** In every run the frame of a delivered copy gets the reaction that the network applies. */
  lemma FrameIsReaction(m: Topology, es: seq<Event>, c: Copy, now: nat)
    requires ValidTopology(m) && IsRun(m, es) && c in NetAfter(m, es).flight
    ensures c.to in NetAfter(m, es).routers
    ensures ProcessRaw(NetAfter(m, es).routers[c.to], Encode(c.pkt), c.from, now) == ReactionTo(NetAfter(m, es), c, now)
  {
    HopInvariant(m, es);
    assert HonestPacket(m, c.from, c.pkt);
    WireIsFaithful(c.pkt);
    FrameIsPacket(NetAfter(m, es).routers[c.to], c.pkt, c.from, now);
  }

  /** Entries of one node's inbox, as the network records them. */
  function HandedAll(v: NodeId, news: seq<AppPacket>): multiset<Handed> {
    multiset(seq(|news|, i requires 0 <= i < |news| => Handed(v, news[i])))
  }

  /** What one frame does to a node's inbox. */
  lemma InboxFollows(m: Topology, es: seq<Event>, c: Copy, now: nat, inbox: seq<AppPacket>) returns (news: seq<AppPacket>)
    requires ValidTopology(m) && IsRun(m, es) && c in NetAfter(m, es).flight && c.to in NetAfter(m, es).routers
    ensures HandedUp(inbox, ProcessRaw(NetAfter(m, es).routers[c.to], Encode(c.pkt), c.from, now)) == inbox + news
    ensures Enabled(m, NetAfter(m, es), Deliver(c, now)) && |news| <= 1
    ensures Apply(m, NetAfter(m, es), Deliver(c, now)).inbox == NetAfter(m, es).inbox + HandedAll(c.to, news)
  {
    FrameIsReaction(m, es, c, now);
    var r := ReactionTo(NetAfter(m, es), c, now);
    news := if r.handed.Some? then [r.handed.value] else [];
    if r.handed.Some? {
      assert seq(1, i requires 0 <= i < 1 => Handed(c.to, news[i])) == [Handed(c.to, r.handed.value)];
    }
  }

  /** The bytes of the copy on its way to `v` are appended to the channel of `v`; a channel without one stays. */
  ghost predicate ChannelsCarry(queues: map<NodeId, seq<Bytes>>, after: map<NodeId, seq<Bytes>>, u: NodeId, sent: set<Copy>) {
    && after.Keys == queues.Keys
    && (forall d :: d in sent ==> d.from == u && d.to in queues && after[d.to] == queues[d.to] + [Encode(d.pkt)])
    && (forall v :: v in queues && (forall d :: d in sent ==> d.to != v) ==> after[v] == queues[v])
  }

  lemma RelaysAreCarried(m: Topology, c: Copy, r: Reaction, queues: map<NodeId, seq<Bytes>>)
    requires ValidTopology(m) && OpenQueues(m, c.to, queues)
    ensures ChannelsCarry(queues, Forwarded(queues, r, c.from), c.to, Relays(m, c, r))
  {
    if r.relayed.Some? {
      OfferedTo(queues, Some(c.from), Encode(r.relayed.value));
      forall v | v in queues && v != c.from ensures exists d :: d in Relays(m, c, r) && d.to == v {
        assert Copy(c.to, v, r.relayed.value) in Relays(m, c, r);
      }
    }
  }

  /**
   * What one frame does to a node's channels, as long as none is full: the bytes appended are those of the copies that
   * the network puts on the wire - to every neighbour but the sender, or to none.
   */
  lemma ChannelsFollow(m: Topology, es: seq<Event>, c: Copy, now: nat, queues: map<NodeId, seq<Bytes>>) returns (sent: set<Copy>)
    requires ValidTopology(m) && IsRun(m, es) && c in NetAfter(m, es).flight && c.to in NetAfter(m, es).routers
    requires OpenQueues(m, c.to, queues)
    ensures var r := ProcessRaw(NetAfter(m, es).routers[c.to], Encode(c.pkt), c.from, now);
            && ChannelsCarry(queues, Forwarded(queues, r, c.from), c.to, sent)
            && (if r.relayed.Some? then forall v :: Link(c.to, v) in m.links && v != c.from ==> Copy(c.to, v, r.relayed.value) in sent
                else sent == {})
    ensures Enabled(m, NetAfter(m, es), Deliver(c, now)) && forall d :: d in sent ==> d.to != c.from
    ensures Apply(m, NetAfter(m, es), Deliver(c, now)).flight == NetAfter(m, es).flight - multiset{c} + multiset(sent)
  {
    FrameIsReaction(m, es, c, now);
    var r := ReactionTo(NetAfter(m, es), c, now);
    sent := Relays(m, c, r);
    RelaysAreCarried(m, c, r, queues);
  }

  // ---- whole runs -----------------------------------------------------------------------------

  /** One node on its own. */
  datatype Local = Local(router: RouterState, inbox: seq<AppPacket>)

  function AfterFrame(n: Local, raw: Bytes, source: NodeId, now: nat): Local {
    var r := ProcessRaw(n.router, raw, source, now);
    Local(r.router, HandedUp(n.inbox, r))
  }

  /** Node `v` after its share of an event: an own packet is registered, a frame for it is processed. */
  function LocalStep(n: Local, v: NodeId, e: Event): Local {
    match e
    case Originate(u, p) => if u == v then n.(router := Register(n.router, p.header.packetId)) else n
    case Deliver(c, now) => if c.to == v then AfterFrame(n, Encode(c.pkt), c.from, now) else n
    case Lose(_) => n
  }

  function LocalAfter(key: Bytes16, v: NodeId, es: seq<Event>): Local {
    if es == [] then Local(NewRouter(v, key), []) else LocalStep(LocalAfter(key, v, es[..|es| - 1]), v, es[|es| - 1])
  }

  ghost predicate Agrees(net: Net, v: NodeId, n: Local) {
    && v in net.routers && net.routers[v] == n.router
    && forall a: AppPacket :: net.inbox[Handed(v, a)] == multiset(n.inbox)[a]
  }

  lemma DeliveryAgrees(m: Topology, net: Net, v: NodeId, n: Local, c: Copy, r: Reaction)
    requires Agrees(net, v, n) && c.to in net.routers
    ensures Agrees(AfterReaction(m, net, c, r), v, if c.to == v then Local(r.router, HandedUp(n.inbox, r)) else n)
  {}

  /** The router and the inbox of every node, in every run, are what its code makes of its own frames and packets. */
  lemma {:induction false} NodesRunTheCode(m: Topology, es: seq<Event>, v: NodeId)
    requires ValidTopology(m) && IsRun(m, es) && v in m.nodes
    ensures Agrees(NetAfter(m, es), v, LocalAfter(m.key, v, es))
  {
    if es != [] {
      var front, e := es[..|es| - 1], es[|es| - 1];
      NodesRunTheCode(m, front, v);
      if e.Deliver? {
        FrameIsReaction(m, front, e.copy, e.now);
        DeliveryAgrees(m, NetAfter(m, front), v, LocalAfter(m.key, v, front), e.copy, ReactionTo(NetAfter(m, front), e.copy, e.now));
      }
    }
  }

  lemma DropsGrow(m: Topology, net: Net, e: Event)
    requires Enabled(m, net, e)
    ensures net.drops <= Apply(m, net, e).drops
  {}

  lemma {:induction false} DropsStay(m: Topology, es: seq<Event>, k: nat)
    requires IsRun(m, es) && k <= |es|
    ensures IsRun(m, es[..k]) && NetAfter(m, es[..k]).drops <= NetAfter(m, es).drops
  {
    if k < |es| {
      var front, pre := es[..|es| - 1], es[..k];
      assert front[..k] == pre;
      DropsStay(m, front, k);
      DropsGrow(m, NetAfter(m, front), es[|es| - 1]);
    } else {
      assert es[..k] == es;
    }
  }

  lemma DropIsRecorded(m: Topology, es: seq<Event>, c: Copy, now: nat)
    requires ValidTopology(m) && IsRun(m, es) && Enabled(m, NetAfter(m, es), Deliver(c, now))
    ensures var r := ProcessRaw(NetAfter(m, es).routers[c.to], Encode(c.pkt), c.from, now);
            r.dropped.Some? ==> r.dropped.value in Apply(m, NetAfter(m, es), Deliver(c, now)).drops
  {
    FrameIsReaction(m, es, c, now);
  }

  /** Whatever reason any node had in a run to drop a frame is on the network's record. */
  lemma DropsAreRecorded(m: Topology, es: seq<Event>, k: nat, c: Copy, now: nat)
    requires ValidTopology(m) && IsRun(m, es) && k < |es| && es[k] == Deliver(c, now)
    ensures IsRun(m, es[..k]) && c.to in NetAfter(m, es[..k]).routers
    ensures var r := ProcessRaw(NetAfter(m, es[..k]).routers[c.to], Encode(c.pkt), c.from, now);
            r.dropped.Some? ==> r.dropped.value in NetAfter(m, es).drops
  {
    var front, upTo := es[..k], es[..k + 1];
    assert upTo[..k] == front && upTo[k] == es[k];
    DropsStay(m, es, k + 1);
    DropIsRecorded(m, front, c, now);
    assert NetAfter(m, upTo) == Apply(m, NetAfter(m, front), Deliver(c, now));
  }
}
