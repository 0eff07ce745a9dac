/**
 * Honest runs of at most 200 ids are clean: no router ever drops anything but a duplicate. Each link carries
 * an id at most once, so 200 ids never exhaust a bucket of 200 tokens, MACs verify, and trust never falls.
 */
module CleanRun {
  import opened Bytes
  import opened Packets
  import opened RateLimit
  import opened Routing
  import opened Transport
  import opened Mesh
  import opened NodeRuns
  import opened Flood

  /** The crossings of one link, in one direction. */
  ghost function Over(got: set<Crossing>, u: NodeId, v: NodeId): set<Crossing> {
    set x | x in got && x.from == u && x.to == v
  }

  ghost predicate BucketsOk(routers: map<NodeId, RouterState>, got: set<Crossing>) {
    forall v, u :: v in routers && u in routers[v].buckets ==>
      routers[v].buckets[u].tokens <= RATE_BURST <= routers[v].buckets[u].tokens + |Over(got, u, v)|
  }

  ghost predicate TrustOk(routers: map<NodeId, RouterState>) {
    forall v, u :: v in routers && u in routers[v].trust ==> TRUST_INITIAL <= routers[v].trust[u] <= TRUST_MAX
  }

  /** Nothing that arrived was dropped for any reason but having been taken in already. */
  ghost predicate ArrivalsOk(net: Net) {
    net.drops <= {DuplicatePacket} && net.refused == {}
  }

  ghost predicate Clean(m: Topology, net: Net) {
    BucketsOk(net.routers, net.got) && TrustOk(net.routers) && ArrivalsOk(net)
  }

  lemma {:induction false} OneCrossingPerId(xs: set<Crossing>, u: NodeId, v: NodeId, ids: set<PacketId>)
    requires forall x :: x in xs ==> x.from == u && x.to == v && x.id in ids
    ensures |xs| <= |ids|
  {
    if xs != {} {
      var x :| x in xs;
      OneCrossingPerId(xs - {x}, u, v, ids - {x.id});
    }
  }

  lemma ConsumeKeepsPace(b: Bucket, now: nat)
    requires 0 < b.tokens <= RATE_BURST
    ensures Consume(b, now).0 && b.tokens - 1 <= Consume(b, now).1.tokens <= RATE_BURST
  {}

  /** While the source has a token and is trusted, an honest copy is taken in, or is a duplicate. */
  lemma CleanReaction(m: Topology, st: RouterState, origin: NodeId, o: ClampPacket, h: nat, u: NodeId, now: nat)
    requires Originated(m, origin, o) && h <= o.header.ttl && st.key == m.key
    requires 0 < BucketOf(st, u, now).tokens <= RATE_BURST && TRUST_INITIAL <= TrustOf(st, u) <= TRUST_MAX
    ensures var r := Process(st, Stamped(m.key, o, h, u), u, now);
            && (r.handed.None? <==> o.header.packetId in st.cache)
            && (r.handed.None? ==> r.dropped == Some(DuplicatePacket))
            && (r.handed.Some? ==> r.dropped == None)
            && r.router.buckets == (if o.header.packetType == Broadcast then st.buckets else st.buckets[u := Consume(BucketOf(st, u, now), now).1])
            && (r.router.trust == st.trust || r.router.trust == st.trust[u := Clamp(TrustOf(st, u) + TRUST_VALID_DELTA)])
  {
    ConsumeKeepsPace(BucketOf(st, u, now), now);
  }

  lemma OverGrows(got: set<Crossing>, x: Crossing, u: NodeId, v: NodeId)
    requires x !in got
    ensures |Over(got + {x}, u, v)| == |Over(got, u, v)| + if x.from == u && x.to == v then 1 else 0
  {
    assert Over(got + {x}, u, v) == Over(got, u, v) + if x.from == u && x.to == v then {x} else {};
  }

  lemma BucketsStep(routers: map<NodeId, RouterState>, got: set<Crossing>, x: Crossing, st: RouterState, now: nat)
    requires BucketsOk(routers, got) && x.to in routers && x !in got
    requires 0 < BucketOf(routers[x.to], x.from, now).tokens <= RATE_BURST
    requires st.buckets == routers[x.to].buckets
             || st.buckets == routers[x.to].buckets[x.from := Consume(BucketOf(routers[x.to], x.from, now), now).1]
    ensures BucketsOk(routers[x.to := st], got + {x})
  {
    ConsumeKeepsPace(BucketOf(routers[x.to], x.from, now), now);
    forall v, u | v in routers[x.to := st] && u in routers[x.to := st][v].buckets
      ensures var b := routers[x.to := st][v].buckets[u];
              b.tokens <= RATE_BURST <= b.tokens + |Over(got + {x}, u, v)|
    {
      OverGrows(got, x, u, v);
    }
  }

  /** A link that still has a copy to deliver has been used by fewer ids than there are. */
  lemma SourceHasToken(m: Topology, net: Net, c: Copy, now: nat)
    requires Tracked(m, net) && BucketsOk(net.routers, net.got) && c in net.flight && c.to in net.routers
    requires |net.origins| <= RATE_BURST
    ensures 0 < BucketOf(net.routers[c.to], c.from, now).tokens <= RATE_BURST
  {
    var xs := Over(net.got, c.from, c.to);
    forall x | x in xs ensures x.id in net.origins.Keys - {c.pkt.header.packetId} {
      assert Due(m, net.origins, net.visits, x);
      assert CrossingOf(c) !in net.got;
    }
    OneCrossingPerId(xs, c.from, c.to, net.origins.Keys - {c.pkt.header.packetId});
    assert Due(m, net.origins, net.visits, CrossingOf(c));
    assert |net.origins.Keys - {c.pkt.header.packetId}| == |net.origins.Keys| - 1;
  }

  /** What a delivery does in a clean state: the source's token and trust suffice, so only replay can drop it. */
  lemma CleanArrival(m: Topology, net: Net, c: Copy, now: nat)
    requires Tracked(m, net) && Clean(m, net) && Enabled(m, net, Deliver(c, now)) && |net.origins| <= RATE_BURST
    ensures var st, r := net.routers[c.to], ReactionTo(net, c, now);
            && CrossingOf(c) !in net.got && 0 < BucketOf(st, c.from, now).tokens <= RATE_BURST
            && (r.router.buckets == st.buckets
                || r.router.buckets == st.buckets[c.from := Consume(BucketOf(st, c.from, now), now).1])
            && (r.router.trust == st.trust
                || r.router.trust == st.trust[c.from := Clamp(TrustOf(st, c.from) + TRUST_VALID_DELTA)])
            && (r.dropped.Some? ==> r.dropped == Some(DuplicatePacket))
  {
    DeliveryIs(m, net, c, now);
    var id, h := c.pkt.header.packetId, c.pkt.hopAuth.hopCounter;
    SourceHasToken(m, net, c, now);
    TrustIsHigh(net.routers, c.to, c.from);
    CleanReaction(m, net.routers[c.to], net.origins[id].node, net.origins[id].packet, h, c.from, now);
  }

  lemma CleanDelivery(m: Topology, net: Net, c: Copy, now: nat)
    requires Tracked(m, net) && Clean(m, net) && Enabled(m, net, Deliver(c, now)) && |net.origins| <= RATE_BURST
    ensures Clean(m, Apply(m, net, Deliver(c, now)))
  {
    var r := ReactionTo(net, c, now);
    CleanArrival(m, net, c, now);
    BucketsStep(net.routers, net.got, CrossingOf(c), r.router, now);
    TrustStep(net.routers, c.to, c.from, r.router);
    ArrivalsStep(m, net, c, r);
  }

  lemma TrustIsHigh(routers: map<NodeId, RouterState>, v: NodeId, u: NodeId)
    requires TrustOk(routers) && v in routers
    ensures TRUST_INITIAL <= TrustOf(routers[v], u) <= TRUST_MAX
  {}

  lemma TrustStep(routers: map<NodeId, RouterState>, v: NodeId, u: NodeId, st: RouterState)
    requires TrustOk(routers) && v in routers
    requires st.trust == routers[v].trust || st.trust == routers[v].trust[u := Clamp(TrustOf(routers[v], u) + TRUST_VALID_DELTA)]
    ensures TrustOk(routers[v := st])
  {}

  lemma ArrivalsStep(m: Topology, net: Net, c: Copy, r: Reaction)
    requires ArrivalsOk(net) && (r.dropped.Some? ==> r.dropped == Some(DuplicatePacket))
    ensures ArrivalsOk(AfterReaction(m, net, c, r))
  {}

  lemma CleanStep(m: Topology, net: Net, e: Event)
    requires Tracked(m, net) && Clean(m, net) && Enabled(m, net, e) && |net.origins| <= RATE_BURST
    ensures Clean(m, Apply(m, net, e))
  {
    match e
    case Originate(u, p) => CleanOriginate(m, net, u, p);
    case Lose(c) =>
    case Deliver(c, now) => CleanDelivery(m, net, c, now);
  }

  lemma CleanOriginate(m: Topology, net: Net, u: NodeId, p: ClampPacket)
    requires Clean(m, net) && u in net.routers
    ensures Clean(m, AfterOriginate(m, net, u, p))
  {}

  /**
   * In every run of nodes that follow the code, with at most 200 ids originated and any order of deliveries
   * and losses, the only reason a packet is ever dropped is that its id was taken in before.
   */
  lemma {:induction false} RunIsClean(m: Topology, es: seq<Event>)
    requires ValidTopology(m) && IsRun(m, es) && |NetAfter(m, es).origins| <= 200
    ensures Tracked(m, NetAfter(m, es)) && Clean(m, NetAfter(m, es))
    ensures NetAfter(m, es).drops <= {DuplicatePacket} && NetAfter(m, es).refused == {}
  {
    RunIsTracked(m, es);
    if es != [] {
      var front := es[..|es| - 1];
      OriginsOnlyGrow(m, NetAfter(m, front), es[|es| - 1]);
      RunIsClean(m, front);
      CleanStep(m, NetAfter(m, front), es[|es| - 1]);
    }
  }

  lemma OnlyDuplicatesOnRecord(m: Topology, es: seq<Event>)
    requires ValidTopology(m) && IsRun(m, es) && |NetAfter(m, es).origins| <= 200
    ensures forall reason :: reason in NetAfter(m, es).drops ==> reason == DuplicatePacket
  {
    RunIsClean(m, es);
  }

  /** So whatever a node is handed in such a run, its pipeline refuses no frame but for a replayed id. */
  lemma FramesOfCleanRun(m: Topology, es: seq<Event>, k: nat, c: Copy, now: nat)
    requires ValidTopology(m) && IsRun(m, es) && |NetAfter(m, es).origins| <= 200
    requires k < |es| && es[k] == Deliver(c, now)
    ensures IsRun(m, es[..k]) && c.to in NetAfter(m, es[..k]).routers
    ensures var dropped := ProcessRaw(NetAfter(m, es[..k]).routers[c.to], Encode(c.pkt), c.from, now).dropped;
            dropped.Some? ==> dropped.value == DuplicatePacket
  {
    OnlyDuplicatesOnRecord(m, es);
    DropsAreRecorded(m, es, k, c, now);
  }
}
