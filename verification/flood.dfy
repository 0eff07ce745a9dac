/**
 * Controlled flooding over any run in which no replay cache evicts (at most 512 ids originated): every copy,
 * every acceptance and every crossing is accounted for, whatever the order of deliveries and losses.
 */
module Flood {
  import opened Bytes
  import opened Packets
  import opened Crypto
  import opened ReplayCache
  import opened Routing
  import opened Transport
  import opened Mesh

  /** The packet `o` as sent by a node `u` that took it in after `h` hops. */
  function Stamped(key: MacKey, o: ClampPacket, h: nat, u: NodeId): ClampPacket
    requires h <= o.header.ttl
  {
    o.(header := o.header.(ttl := o.header.ttl - h),
       hopAuth := HopAuth(h, if o.header.packetType == Broadcast then o.hopAuth.macTag else HopMac(key, o.header.packetId, h, u)))
  }

  /** What the application gets from a copy of `o` that travelled with hop counter `h`. */
  function HandedAt(o: ClampPacket, h: nat): AppPacket
    requires h <= o.header.ttl
  {
    var shown := if o.header.packetType != Broadcast && h < o.header.ttl then h + 1 else h;
    AppPacket(o.header.packetType, o.header.packetId, o.nonce, o.ciphertext, o.aeadTag, shown)
  }

  /** The only two reactions a router can have to an honest copy, and the reasons it can drop one. */
  lemma ReactionToStamped(m: Topology, st: RouterState, origin: NodeId, o: ClampPacket, h: nat, u: NodeId, now: nat)
    requires Originated(m, origin, o) && h <= o.header.ttl && st.key == m.key
    ensures var r := Process(st, Stamped(m.key, o, h, u), u, now);
            var id := o.header.packetId;
            && r.router.me == st.me && r.router.key == st.key
            && (r.handed.Some? ==>
                  && id !in st.cache && r.router.cache == Put(st.cache, id)
                  && r.handed == Some(HandedAt(o, h))
                  && r.relayed == (if h < o.header.ttl then Some(Stamped(m.key, o, h + 1, st.me)) else None)
                  && r.dropped == None)
            && (r.handed.None? ==>
                  && r.router.cache == st.cache && r.relayed == None && r.dropped.Some?
                  && r.dropped.value in {RateLimitExceeded, PeerUntrusted, DuplicatePacket}
                  && (r.dropped.value == DuplicatePacket ==> id in st.cache)
                  && (r.dropped.value != DuplicatePacket ==> o.header.packetType != Broadcast))
  {}

  // ---- the invariant --------------------------------------------------------------------

  ghost predicate OriginOk(m: Topology, origins: map<PacketId, Origin>, visits: map<Key, Visit>, id: PacketId)
    requires id in origins
  {
    var o := origins[id];
    && o.packet.header.packetId == id && Originated(m, o.node, o.packet) && o.node in m.nodes
    && Key(o.node, id) in visits && visits[Key(o.node, id)] == Visit(0, o.node)
  }

  ghost predicate OriginsOk(m: Topology, origins: map<PacketId, Origin>, visits: map<Key, Visit>) {
    forall id :: id in origins ==> OriginOk(m, origins, visits, id)
  }

  /** A visit at depth d > 0 hangs off a neighbour's visit at depth d-1; only the origin is at depth 0. */
  ghost predicate VisitOk(m: Topology, origins: map<PacketId, Origin>, visits: map<Key, Visit>, k: Key)
    requires k in visits
  {
    var w := visits[k];
    && k.node in m.nodes && k.id in origins
    && w.depth <= origins[k.id].packet.header.ttl + 1
    && (w.depth == 0 <==> k.node == origins[k.id].node)
    && (w.depth > 0 ==>
          && Link(w.parent, k.node) in m.links
          && Key(w.parent, k.id) in visits
          && visits[Key(w.parent, k.id)].depth + 1 == w.depth)
  }

  ghost predicate VisitsOk(m: Topology, origins: map<PacketId, Origin>, visits: map<Key, Visit>) {
    forall k {:trigger VisitOk(m, origins, visits, k)} :: k in visits ==> VisitOk(m, origins, visits, k)
  }

  lemma VisitsAreOfOrigins(m: Topology, origins: map<PacketId, Origin>, visits: map<Key, Visit>)
    requires VisitsOk(m, origins, visits)
    ensures forall k :: k in visits ==> k.id in origins
  {
    forall k | k in visits ensures k.id in origins { assert VisitOk(m, origins, visits, k); }
  }

  /** With no eviction a cache holds exactly the ids its node has taken in. */
  ghost predicate CachesOk(visits: map<Key, Visit>, routers: map<NodeId, RouterState>) {
    forall v :: v in routers ==>
      NoDup(routers[v].cache) && forall id :: id in routers[v].cache <==> Key(v, id) in visits
  }

  /** The crossings a run owes: from every visited node with TTL left to every neighbour but its parent. */
  ghost predicate Due(m: Topology, origins: map<PacketId, Origin>, visits: map<Key, Visit>, x: Crossing) {
    var k := Key(x.from, x.id);
    && x.id in origins && k in visits
    && visits[k].depth <= origins[x.id].packet.header.ttl
    && Link(x.from, x.to) in m.links && x.to != visits[k].parent
  }

  ghost predicate SentOk(m: Topology, origins: map<PacketId, Origin>, visits: map<Key, Visit>, sent: set<Crossing>) {
    forall x :: x in sent <==> Due(m, origins, visits, x)
  }

  /** The one copy a due crossing carries: the original, stamped by the node that forwards it. */
  ghost function CopyOn(m: Topology, origins: map<PacketId, Origin>, visits: map<Key, Visit>, x: Crossing): Copy
    requires Due(m, origins, visits, x)
  {
    Copy(x.from, x.to, Stamped(m.key, origins[x.id].packet, visits[Key(x.from, x.id)].depth, x.from))
  }

  /** The crossings of a run: all that were sent, those that were received, those that were lost. */
  datatype Ledger = Ledger(sent: set<Crossing>, got: set<Crossing>, lost: set<Crossing>)

  /** Every copy on the wire is the only copy of a crossing that was sent and has not ended. */
  ghost predicate FlightOk(m: Topology, o: map<PacketId, Origin>, v: map<Key, Visit>, g: Ledger, flight: multiset<Copy>) {
    forall c :: c in flight ==>
      && flight[c] == 1
      && CrossingOf(c) in g.sent && CrossingOf(c) !in g.got && CrossingOf(c) !in g.lost
      && Due(m, o, v, CrossingOf(c))
      && c == CopyOn(m, o, v, CrossingOf(c))
  }

  /** Every sent crossing is on the wire, received or lost, and only one of these. */
  ghost predicate PendingOk(m: Topology, o: map<PacketId, Origin>, v: map<Key, Visit>, g: Ledger, flight: multiset<Copy>) {
    && g.got <= g.sent && g.lost <= g.sent && g.got !! g.lost
    && forall x :: x in g.sent && x !in g.got && x !in g.lost ==>
         Due(m, o, v, x) && CopyOn(m, o, v, x) in flight
  }

  /** A visit that came over a link, and so was handed to the application. */
  ghost predicate HandsUp(o: map<PacketId, Origin>, v: map<Key, Visit>, k: Key) {
    && k in v && k.id in o && o[k.id].packet.header.packetId == k.id
    && 0 < v[k].depth <= o[k.id].packet.header.ttl + 1
  }

  ghost function EntryOf(o: map<PacketId, Origin>, v: map<Key, Visit>, k: Key): Handed
    requires HandsUp(o, v, k)
  {
    Handed(k.node, HandedAt(o[k.id].packet, v[k].depth - 1))
  }

  function KeyOf(e: Handed): Key { Key(e.node, e.app.packetId) }

  /** The applications hold exactly one packet for each such visit: the original's contents. */
  ghost predicate InboxOk(o: map<PacketId, Origin>, v: map<Key, Visit>, inbox: multiset<Handed>) {
    && (forall e :: e in inbox ==> inbox[e] == 1 && HandsUp(o, v, KeyOf(e)) && e == EntryOf(o, v, KeyOf(e)))
    && (forall k :: HandsUp(o, v, k) ==> EntryOf(o, v, k) in inbox)
  }

  /** Whoever received a copy has taken its id in, or refused it for rate or trust - a broadcast never. */
  ghost predicate ArrivedOk(o: map<PacketId, Origin>, v: map<Key, Visit>, got: set<Crossing>, refused: set<Crossing>) {
    && (forall x {:trigger x in got} :: x in got ==> Key(x.to, x.id) in v || x in refused)
    && (forall x {:trigger x in refused} :: x in refused ==> x.id in o && o[x.id].packet.header.packetType != Broadcast)
  }

  function LedgerOf(net: Net): Ledger { Ledger(net.sent, net.got, net.lost) }

  ghost predicate Tracked(m: Topology, net: Net) {
    && RoutersOk(m, net.routers)
    && OriginsOk(m, net.origins, net.visits)
    && VisitsOk(m, net.origins, net.visits)
    && CachesOk(net.visits, net.routers)
    && SentOk(m, net.origins, net.visits, net.sent)
    && FlightOk(m, net.origins, net.visits, LedgerOf(net), net.flight)
    && PendingOk(m, net.origins, net.visits, LedgerOf(net), net.flight)
    && InboxOk(net.origins, net.visits, net.inbox)
    && ArrivedOk(net.origins, net.visits, net.got, net.refused)
  }

  // ---- growth: both kinds of step add one visit and keep every earlier fact -------------------

  ghost predicate Kept<K, V>(a: map<K, V>, b: map<K, V>) {
    forall k :: k in a ==> k in b && b[k] == a[k]
  }

  lemma VisitOkGrows(m: Topology, o: map<PacketId, Origin>, v: map<Key, Visit>, o': map<PacketId, Origin>, v': map<Key, Visit>, k: Key)
    requires Kept(o, o') && Kept(v, v') && k in v && VisitOk(m, o, v, k)
    ensures VisitOk(m, o', v', k)
  {}

  lemma OriginOkGrows(m: Topology, o: map<PacketId, Origin>, v: map<Key, Visit>, o': map<PacketId, Origin>, v': map<Key, Visit>, id: PacketId)
    requires Kept(o, o') && Kept(v, v') && id in o && OriginOk(m, o, v, id)
    ensures OriginOk(m, o', v', id)
  {}

  lemma DueGrows(m: Topology, o: map<PacketId, Origin>, v: map<Key, Visit>, o': map<PacketId, Origin>, v': map<Key, Visit>, x: Crossing)
    requires Kept(o, o') && Kept(v, v')
    ensures Due(m, o, v, x) ==> Due(m, o', v', x) && CopyOn(m, o', v', x) == CopyOn(m, o, v, x)
    ensures Key(x.from, x.id) in v && x.id in o ==> (Due(m, o, v, x) <==> Due(m, o', v', x))
  {}

  /** The new visit of a growth step, and that it fits. */
  ghost predicate Grows(m: Topology, o: map<PacketId, Origin>, v: map<Key, Visit>, o': map<PacketId, Origin>, v': map<Key, Visit>, k: Key) {
    && Kept(o, o') && Kept(v, v')
    && k !in v && v'.Keys == v.Keys + {k} && VisitOk(m, o', v', k)
    && o'.Keys == o.Keys + {k.id} && OriginOk(m, o', v', k.id)
  }

  lemma OriginsAndVisitsGrow(m: Topology, o: map<PacketId, Origin>, v: map<Key, Visit>, o': map<PacketId, Origin>, v': map<Key, Visit>, k: Key)
    requires Grows(m, o, v, o', v', k) && OriginsOk(m, o, v) && VisitsOk(m, o, v)
    ensures OriginsOk(m, o', v') && VisitsOk(m, o', v')
  {
    forall j | j in v' ensures VisitOk(m, o', v', j) {
      if j != k { VisitOkGrows(m, o, v, o', v', j); }
    }
    forall id | id in o' ensures OriginOk(m, o', v', id) {
      if id != k.id { OriginOkGrows(m, o, v, o', v', id); }
    }
  }

  /** After growth the due crossings are the old ones and those from the new visit. */
  lemma SentGrows(m: Topology, o: map<PacketId, Origin>, v: map<Key, Visit>, o': map<PacketId, Origin>, v': map<Key, Visit>, k: Key,
                  sent: set<Crossing>, added: set<Crossing>)
    requires Grows(m, o, v, o', v', k) && VisitsOk(m, o, v) && SentOk(m, o, v, sent)
    requires forall x :: x in added <==> x.from == k.node && x.id == k.id && Due(m, o', v', x)
    ensures SentOk(m, o', v', sent + added) && sent !! added
  {
    forall x ensures x in sent + added <==> Due(m, o', v', x) {
      DueGrows(m, o, v, o', v', x);
      if Key(x.from, x.id) in v {
        assert VisitOk(m, o, v, Key(x.from, x.id));
      }
    }
    forall x | x in sent ensures x !in added {
      assert Due(m, o, v, x);
    }
  }

  /** A copy leaves the wire and its crossing is closed. */
  lemma CopyEnds(m: Topology, o: map<PacketId, Origin>, v: map<Key, Visit>, g: Ledger, flight: multiset<Copy>, c: Copy, g': Ledger)
    requires OriginsOk(m, o, v)
    requires FlightOk(m, o, v, g, flight) && PendingOk(m, o, v, g, flight) && c in flight
    requires g' == g.(got := g.got + {CrossingOf(c)}) || g' == g.(lost := g.lost + {CrossingOf(c)})
    ensures FlightOk(m, o, v, g', flight - multiset{c}) && PendingOk(m, o, v, g', flight - multiset{c})
  {
    var left := flight - multiset{c};
    forall d | d in left
      ensures left[d] == 1 && CrossingOf(d) != CrossingOf(c)
    {
      assert d in flight;
    }
    forall x | x in g'.sent && x !in g'.got && x !in g'.lost ensures Due(m, o, v, x) && CopyOn(m, o, v, x) in left {
      assert CopyOn(m, o, v, x) in flight;
      assert OriginOk(m, o, v, x.id);
      assert CrossingOf(CopyOn(m, o, v, x)) == x;
    }
  }

  /** New copies go on the wire, one for each newly due crossing. */
  lemma CopiesStart(m: Topology, o: map<PacketId, Origin>, v: map<Key, Visit>, o': map<PacketId, Origin>, v': map<Key, Visit>,
                    g: Ledger, flight: multiset<Copy>, fan: set<Copy>)
    requires Kept(o, o') && Kept(v, v')
    requires FlightOk(m, o, v, g, flight) && PendingOk(m, o, v, g, flight)
    requires g.sent !! Crossings(fan)
    requires forall c :: c in fan ==> Due(m, o', v', CrossingOf(c)) && c == CopyOn(m, o', v', CrossingOf(c))
    ensures var g', flight' := g.(sent := g.sent + Crossings(fan)), flight + multiset(fan);
            FlightOk(m, o', v', g', flight') && PendingOk(m, o', v', g', flight')
  {
    var g', flight' := g.(sent := g.sent + Crossings(fan)), flight + multiset(fan);
    FlightGrows(flight, fan);
    forall c | c in flight'
      ensures flight'[c] == 1 && CrossingOf(c) in g'.sent && CrossingOf(c) !in g.got && CrossingOf(c) !in g.lost
      ensures Due(m, o', v', CrossingOf(c)) && c == CopyOn(m, o', v', CrossingOf(c))
    {
      if c in fan {
        assert CrossingOf(c) in Crossings(fan);
        assert c !in flight;
      } else {
        DueGrows(m, o, v, o', v', CrossingOf(c));
      }
    }
    forall x | x in g'.sent && x !in g'.got && x !in g'.lost ensures Due(m, o', v', x) && CopyOn(m, o', v', x) in flight' {
      if x in g.sent {
        DueGrows(m, o, v, o', v', x);
      } else {
        var c :| c in fan && CrossingOf(c) == x;
      }
    }
  }

  /** What a node that took `k.id` in puts on the wire is exactly what the visit makes due. */
  lemma FanIsDue(m: Topology, o: map<PacketId, Origin>, v: map<Key, Visit>, k: Key, fan: set<Copy>)
    requires k in v && k.id in o && o[k.id].packet.header.packetId == k.id
    requires fan == if v[k].depth <= o[k.id].packet.header.ttl
                    then Fan(m, k.node, v[k].parent, Stamped(m.key, o[k.id].packet, v[k].depth, k.node)) else {}
    ensures forall c :: c in fan ==> Due(m, o, v, CrossingOf(c)) && c == CopyOn(m, o, v, CrossingOf(c))
    ensures forall x :: x in Crossings(fan) <==> x.from == k.node && x.id == k.id && Due(m, o, v, x)
  {
    forall x ensures x in Crossings(fan) <==> x.from == k.node && x.id == k.id && Due(m, o, v, x) {
      if x.from == k.node && x.id == k.id && Due(m, o, v, x) {
        var c := CopyOn(m, o, v, x);
        assert c in fan && CrossingOf(c) == x;
      }
    }
  }

  lemma CachesGrow(v: map<Key, Visit>, v': map<Key, Visit>, k: Key, routers: map<NodeId, RouterState>, st: RouterState)
    requires k !in v && v'.Keys == v.Keys + {k} && CachesOk(v, routers) && k.node in routers
    requires st.cache == Put(routers[k.node].cache, k.id) && |routers[k.node].cache| < CACHE_SIZE
    ensures CachesOk(v', routers[k.node := st])
  {
    PutKeepsAll(routers[k.node].cache, k.id);
  }

  lemma InboxGrows(m: Topology, o: map<PacketId, Origin>, v: map<Key, Visit>, o': map<PacketId, Origin>, v': map<Key, Visit>, k: Key,
                   inbox: multiset<Handed>)
    requires Grows(m, o, v, o', v', k) && VisitsOk(m, o, v) && InboxOk(o, v, inbox)
    ensures !HandsUp(o', v', k) ==> InboxOk(o', v', inbox)
    ensures HandsUp(o', v', k) ==> InboxOk(o', v', inbox + multiset{EntryOf(o', v', k)})
  {
    forall j ensures HandsUp(o', v', j) <==> HandsUp(o, v, j) || (j == k && HandsUp(o', v', k)) {
      if j in v { assert VisitOk(m, o, v, j); }
    }
    forall j | HandsUp(o, v, j) ensures EntryOf(o', v', j) == EntryOf(o, v, j) {}
    if HandsUp(o', v', k) {
      assert KeyOf(EntryOf(o', v', k)) == k;
      assert EntryOf(o', v', k) !in inbox;
    }
  }

  // ---- the four kinds of step -----------------------------------------------------------

  /** A cache never outgrows the number of ids originated, and is smaller while one of them is missing. */
  lemma CacheFits(m: Topology, net: Net, v: NodeId, id: PacketId)
    requires VisitsOk(m, net.origins, net.visits) && CachesOk(net.visits, net.routers)
    requires v in net.routers && id in net.origins && Key(v, id) !in net.visits
    ensures |net.routers[v].cache| < |net.origins|
  {
    var cache := net.routers[v].cache;
    forall x | x in cache ensures x in net.origins.Keys - {id} {
      assert VisitOk(m, net.origins, net.visits, Key(v, x));
    }
    NoDupFits(cache, net.origins.Keys - {id});
    assert |net.origins.Keys - {id}| == |net.origins.Keys| - 1;
  }

  lemma CacheFitsOriginate(m: Topology, net: Net, v: NodeId)
    requires VisitsOk(m, net.origins, net.visits) && CachesOk(net.visits, net.routers) && v in net.routers
    ensures |net.routers[v].cache| <= |net.origins|
  {
    forall x | x in net.routers[v].cache ensures x in net.origins.Keys {
      assert VisitOk(m, net.origins, net.visits, Key(v, x));
    }
    NoDupFits(net.routers[v].cache, net.origins.Keys);
  }

  lemma TrackedOriginate(m: Topology, net: Net, u: NodeId, p: ClampPacket)
    requires ValidTopology(m) && Tracked(m, net) && Enabled(m, net, Originate(u, p))
    requires |net.origins| < CACHE_SIZE
    ensures Tracked(m, AfterOriginate(m, net, u, p))
  {
    OriginateGrows(m, net, u, p);
    OriginateNodes(m, net, u, p);
    OriginateCrossings(m, net, u, p);
    var n := AfterOriginate(m, net, u, p);
    InboxGrows(m, net.origins, net.visits, n.origins, n.visits, Key(u, p.header.packetId), net.inbox);
  }

  lemma OriginateNodes(m: Topology, net: Net, u: NodeId, p: ClampPacket)
    requires RoutersOk(m, net.routers) && OriginsOk(m, net.origins, net.visits) && VisitsOk(m, net.origins, net.visits)
    requires CachesOk(net.visits, net.routers) && Enabled(m, net, Originate(u, p)) && |net.origins| < CACHE_SIZE
    ensures var n := AfterOriginate(m, net, u, p);
            && RoutersOk(m, n.routers) && OriginsOk(m, n.origins, n.visits) && VisitsOk(m, n.origins, n.visits)
            && CachesOk(n.visits, n.routers)
  {
    var n := AfterOriginate(m, net, u, p);
    var k := Key(u, p.header.packetId);
    OriginateGrows(m, net, u, p);
    OriginsAndVisitsGrow(m, net.origins, net.visits, n.origins, n.visits, k);
    CacheFitsOriginate(m, net, u);
    CachesGrow(net.visits, n.visits, k, net.routers, Register(net.routers[u], k.id));
  }

  lemma OriginateCrossings(m: Topology, net: Net, u: NodeId, p: ClampPacket)
    requires VisitsOk(m, net.origins, net.visits) && SentOk(m, net.origins, net.visits, net.sent)
    requires FlightOk(m, net.origins, net.visits, LedgerOf(net), net.flight)
    requires PendingOk(m, net.origins, net.visits, LedgerOf(net), net.flight)
    requires Enabled(m, net, Originate(u, p))
    ensures var n := AfterOriginate(m, net, u, p);
            && SentOk(m, n.origins, n.visits, n.sent)
            && FlightOk(m, n.origins, n.visits, LedgerOf(n), n.flight)
            && PendingOk(m, n.origins, n.visits, LedgerOf(n), n.flight)
  {
    var n := AfterOriginate(m, net, u, p);
    var k := Key(u, p.header.packetId);
    OriginateGrows(m, net, u, p);
    var fan := Fan(m, u, u, p);
    assert p == Stamped(m.key, p, 0, u);
    FanIsDue(m, n.origins, n.visits, k, fan);
    SentGrows(m, net.origins, net.visits, n.origins, n.visits, k, net.sent, Crossings(fan));
    CopiesStart(m, net.origins, net.visits, n.origins, n.visits, LedgerOf(net), net.flight, fan);
  }

  lemma OriginateGrows(m: Topology, net: Net, u: NodeId, p: ClampPacket)
    requires VisitsOk(m, net.origins, net.visits) && Enabled(m, net, Originate(u, p))
    ensures var n := AfterOriginate(m, net, u, p);
            Grows(m, net.origins, net.visits, n.origins, n.visits, Key(u, p.header.packetId))
  {
    var k := Key(u, p.header.packetId);
    VisitsAreOfOrigins(m, net.origins, net.visits);
  }

  /** The visit a delivered copy causes at a node that has not seen its id. */
  lemma DeliveryGrows(m: Topology, net: Net, c: Copy, r: Reaction)
    requires OriginsOk(m, net.origins, net.visits) && VisitsOk(m, net.origins, net.visits)
    requires FlightOk(m, net.origins, net.visits, LedgerOf(net), net.flight)
    requires ValidTopology(m) && c in net.flight && c.to in m.nodes
    requires r.handed.Some? && Key(c.to, c.pkt.header.packetId) !in net.visits
    ensures var n := AfterReaction(m, net, c, r);
            n.origins == net.origins && Grows(m, net.origins, net.visits, n.origins, n.visits, Key(c.to, c.pkt.header.packetId))
  {
    var id, h := c.pkt.header.packetId, c.pkt.hopAuth.hopCounter;
    var k := Key(c.to, id);
    assert Due(m, net.origins, net.visits, CrossingOf(c)) && c == CopyOn(m, net.origins, net.visits, CrossingOf(c));
    assert OriginOk(m, net.origins, net.visits, id);
    var v' := net.visits[k := Visit(h + 1, c.from)];
    OriginOkGrows(m, net.origins, net.visits, net.origins, v', id);
    assert VisitOk(m, net.origins, v', k);
    assert net.origins.Keys == net.origins.Keys + {id};
  }

  /** That a node takes a copy in, and what it then puts on the wire. */
  ghost predicate TakesIn(m: Topology, net: Net, c: Copy, r: Reaction) {
    var id, h := c.pkt.header.packetId, c.pkt.hopAuth.hopCounter;
    && c in net.flight && c.to in net.routers && r.router.me == c.to && r.router.key == m.key
    && id !in net.routers[c.to].cache && r.router.cache == Put(net.routers[c.to].cache, id)
    && id in net.origins && h <= net.origins[id].packet.header.ttl
    && r.handed == Some(HandedAt(net.origins[id].packet, h)) && r.dropped == None
    && r.relayed == if h < net.origins[id].packet.header.ttl then Some(Stamped(m.key, net.origins[id].packet, h + 1, c.to)) else None
  }

  lemma ArrivedGrows(o: map<PacketId, Origin>, v: map<Key, Visit>, o': map<PacketId, Origin>, v': map<Key, Visit>,
                     got: set<Crossing>, refused: set<Crossing>)
    requires ArrivedOk(o, v, got, refused) && Kept(o, o') && Kept(v, v')
    ensures ArrivedOk(o', v', got, refused)
  {}

  lemma ArrivedAccept(m: Topology, net: Net, c: Copy, r: Reaction)
    requires ArrivedOk(net.origins, net.visits, net.got, net.refused) && TakesIn(m, net, c, r)
    requires Key(c.to, c.pkt.header.packetId) !in net.visits
    ensures var n := AfterReaction(m, net, c, r); ArrivedOk(n.origins, n.visits, n.got, n.refused)
  {
    var n := AfterReaction(m, net, c, r);
    ArrivedGrows(net.origins, net.visits, n.origins, n.visits, net.got, net.refused);
  }

  lemma TrackedAccept(m: Topology, net: Net, c: Copy, r: Reaction)
    requires ValidTopology(m) && Tracked(m, net) && TakesIn(m, net, c, r) && |net.origins| <= CACHE_SIZE
    ensures Tracked(m, AfterReaction(m, net, c, r))
  {
    assert Key(c.to, c.pkt.header.packetId) !in net.visits;
    DeliveryGrows(m, net, c, r);
    AcceptNodes(m, net, c, r);
    AcceptCrossings(m, net, c, r);
    AcceptInbox(m, net, c, r);
    ArrivedAccept(m, net, c, r);
  }

  /** The routers' side of an acceptance. */
  lemma AcceptNodes(m: Topology, net: Net, c: Copy, r: Reaction)
    requires RoutersOk(m, net.routers) && OriginsOk(m, net.origins, net.visits) && VisitsOk(m, net.origins, net.visits)
    requires CachesOk(net.visits, net.routers) && TakesIn(m, net, c, r) && |net.origins| <= CACHE_SIZE
    requires var n := AfterReaction(m, net, c, r);
             n.origins == net.origins && Grows(m, net.origins, net.visits, n.origins, n.visits, Key(c.to, c.pkt.header.packetId))
    ensures var n := AfterReaction(m, net, c, r);
            && RoutersOk(m, n.routers) && OriginsOk(m, n.origins, n.visits) && VisitsOk(m, n.origins, n.visits)
            && CachesOk(n.visits, n.routers)
  {
    var n := AfterReaction(m, net, c, r);
    var k := Key(c.to, c.pkt.header.packetId);
    RoutersAfterReaction(m, net, c, r);
    OriginsAndVisitsGrow(m, net.origins, net.visits, n.origins, n.visits, k);
    CacheFits(m, net, c.to, k.id);
    CachesGrow(net.visits, n.visits, k, net.routers, r.router);
  }

  /** The wire's side: one crossing ends, and the new visit's crossings start. */
  lemma AcceptCrossings(m: Topology, net: Net, c: Copy, r: Reaction)
    requires OriginsOk(m, net.origins, net.visits) && VisitsOk(m, net.origins, net.visits)
    requires SentOk(m, net.origins, net.visits, net.sent)
    requires FlightOk(m, net.origins, net.visits, LedgerOf(net), net.flight)
    requires PendingOk(m, net.origins, net.visits, LedgerOf(net), net.flight) && TakesIn(m, net, c, r)
    requires var n := AfterReaction(m, net, c, r);
             n.origins == net.origins && Grows(m, net.origins, net.visits, n.origins, n.visits, Key(c.to, c.pkt.header.packetId))
    ensures var n := AfterReaction(m, net, c, r);
            && SentOk(m, n.origins, n.visits, n.sent)
            && FlightOk(m, n.origins, n.visits, LedgerOf(n), n.flight)
            && PendingOk(m, n.origins, n.visits, LedgerOf(n), n.flight)
  {
    var n := AfterReaction(m, net, c, r);
    var k := Key(c.to, c.pkt.header.packetId);
    var fan := Relays(m, c, r);
    assert OriginOk(m, net.origins, net.visits, k.id);
    FanIsDue(m, n.origins, n.visits, k, fan);
    SentGrows(m, net.origins, net.visits, n.origins, n.visits, k, net.sent, Crossings(fan));
    var g := LedgerOf(net);
    var closed := g.(got := g.got + {CrossingOf(c)});
    CopyEnds(m, net.origins, net.visits, g, net.flight, c, closed);
    CopiesStart(m, net.origins, net.visits, n.origins, n.visits, closed, net.flight - multiset{c}, fan);
  }

  /** The application's side: one entry more. */
  lemma AcceptInbox(m: Topology, net: Net, c: Copy, r: Reaction)
    requires OriginsOk(m, net.origins, net.visits) && VisitsOk(m, net.origins, net.visits)
    requires InboxOk(net.origins, net.visits, net.inbox) && TakesIn(m, net, c, r)
    requires var n := AfterReaction(m, net, c, r);
             n.origins == net.origins && Grows(m, net.origins, net.visits, n.origins, n.visits, Key(c.to, c.pkt.header.packetId))
    ensures var n := AfterReaction(m, net, c, r); InboxOk(n.origins, n.visits, n.inbox)
  {
    var n := AfterReaction(m, net, c, r);
    var k := Key(c.to, c.pkt.header.packetId);
    assert OriginOk(m, net.origins, net.visits, k.id);
    InboxGrows(m, net.origins, net.visits, n.origins, n.visits, k, net.inbox);
    assert EntryOf(n.origins, n.visits, k) == Handed(c.to, r.handed.value);
  }

  lemma IgnoredCopy(m: Topology, net: Net, c: Copy, r: Reaction)
    requires r.handed.None? && r.relayed.None?
    ensures var n := AfterReaction(m, net, c, r);
            && n.flight == net.flight - multiset{c} && n.sent == net.sent && n.got == net.got + {CrossingOf(c)}
            && n.routers == net.routers[c.to := r.router] && n.visits == net.visits && n.origins == net.origins
            && n.inbox == net.inbox && n.lost == net.lost
  {
    assert Crossings({}) == {};
  }

  /** That a node ignores a copy: a duplicate, or one refused for rate or trust. */
  ghost predicate Ignores(m: Topology, net: Net, c: Copy, r: Reaction) {
    var id := c.pkt.header.packetId;
    && c in net.flight && c.to in net.routers && r.router.me == c.to && r.router.key == m.key
    && r.router.cache == net.routers[c.to].cache && r.handed.None? && r.relayed.None? && r.dropped.Some?
    && (r.dropped.value == DuplicatePacket ==> id in net.routers[c.to].cache)
    && (r.dropped.value != DuplicatePacket ==> id in net.origins && net.origins[id].packet.header.packetType != Broadcast)
  }

  lemma CachesStay(v: map<Key, Visit>, routers: map<NodeId, RouterState>, node: NodeId, st: RouterState)
    requires CachesOk(v, routers) && node in routers && st.cache == routers[node].cache
    ensures CachesOk(v, routers[node := st])
  {}

  lemma ArrivedIgnore(m: Topology, net: Net, c: Copy, r: Reaction)
    requires ArrivedOk(net.origins, net.visits, net.got, net.refused) && Ignores(m, net, c, r)
    requires CachesOk(net.visits, net.routers)
    ensures var n := AfterReaction(m, net, c, r); ArrivedOk(n.origins, n.visits, n.got, n.refused)
  {
    IgnoredCopy(m, net, c, r);
  }

  lemma IgnoreCrossings(m: Topology, net: Net, c: Copy, r: Reaction)
    requires OriginsOk(m, net.origins, net.visits) && SentOk(m, net.origins, net.visits, net.sent)
    requires FlightOk(m, net.origins, net.visits, LedgerOf(net), net.flight)
    requires PendingOk(m, net.origins, net.visits, LedgerOf(net), net.flight) && Ignores(m, net, c, r)
    ensures var n := AfterReaction(m, net, c, r);
            && SentOk(m, n.origins, n.visits, n.sent)
            && FlightOk(m, n.origins, n.visits, LedgerOf(n), n.flight)
            && PendingOk(m, n.origins, n.visits, LedgerOf(n), n.flight)
  {
    IgnoredCopy(m, net, c, r);
    var g := LedgerOf(net);
    assert LedgerOf(AfterReaction(m, net, c, r)) == g.(got := g.got + {CrossingOf(c)});
    CopyEnds(m, net.origins, net.visits, g, net.flight, c, g.(got := g.got + {CrossingOf(c)}));
  }

  lemma IgnoreNodes(m: Topology, net: Net, c: Copy, r: Reaction)
    requires RoutersOk(m, net.routers) && CachesOk(net.visits, net.routers) && Ignores(m, net, c, r)
    ensures var n := AfterReaction(m, net, c, r); RoutersOk(m, n.routers) && CachesOk(n.visits, n.routers)
  {
    RoutersAfterReaction(m, net, c, r);
    CachesStay(net.visits, net.routers, c.to, r.router);
  }

  lemma TrackedIgnore(m: Topology, net: Net, c: Copy, r: Reaction)
    requires Tracked(m, net) && Ignores(m, net, c, r)
    ensures Tracked(m, AfterReaction(m, net, c, r))
  {
    IgnoredCopy(m, net, c, r);
    IgnoreNodes(m, net, c, r);
    IgnoreCrossings(m, net, c, r);
    ArrivedIgnore(m, net, c, r);
  }

  lemma TrackedLoss(m: Topology, net: Net, c: Copy)
    requires Tracked(m, net) && c in net.flight
    ensures Tracked(m, AfterLoss(net, c))
  {
    var g := LedgerOf(net);
    CopyEnds(m, net.origins, net.visits, g, net.flight, c, g.(lost := g.lost + {CrossingOf(c)}));
  }

  /** What the step of a delivery is: the copy is the stamped original and the router reacts in one of two ways. */
  lemma DeliveryIs(m: Topology, net: Net, c: Copy, now: nat)
    requires Tracked(m, net) && Enabled(m, net, Deliver(c, now))
    ensures var id, h := c.pkt.header.packetId, c.pkt.hopAuth.hopCounter;
            && id in net.origins && OriginOk(m, net.origins, net.visits, id) && h <= net.origins[id].packet.header.ttl
            && Key(c.from, id) in net.visits && net.visits[Key(c.from, id)].depth == h
            && c.pkt == Stamped(m.key, net.origins[id].packet, h, c.from)
            && ReactionTo(net, c, now) == Process(net.routers[c.to], c.pkt, c.from, now)
  {
    var id := c.pkt.header.packetId;
    assert OriginOk(m, net.origins, net.visits, id);
    WireIsFaithful(c.pkt);
  }

  lemma TrackedDelivery(m: Topology, net: Net, c: Copy, now: nat)
    requires ValidTopology(m) && Tracked(m, net) && Enabled(m, net, Deliver(c, now)) && |net.origins| <= CACHE_SIZE
    ensures Tracked(m, AfterReaction(m, net, c, ReactionTo(net, c, now)))
  {
    DeliveryIs(m, net, c, now);
    var id, h := c.pkt.header.packetId, c.pkt.hopAuth.hopCounter;
    ReactionToStamped(m, net.routers[c.to], net.origins[id].node, net.origins[id].packet, h, c.from, now);
    var r := ReactionTo(net, c, now);
    if r.handed.Some? {
      TrackedAccept(m, net, c, r);
    } else {
      TrackedIgnore(m, net, c, r);
    }
  }

  lemma TrackedStep(m: Topology, net: Net, e: Event)
    requires ValidTopology(m) && Tracked(m, net) && Enabled(m, net, e) && |Apply(m, net, e).origins| <= CACHE_SIZE
    ensures Tracked(m, Apply(m, net, e))
  {
    match e
    case Originate(u, p) =>
      assert |net.origins[p.header.packetId := Origin(u, p)]| == |net.origins| + 1;
      TrackedOriginate(m, net, u, p);
    case Lose(c) => TrackedLoss(m, net, c);
    case Deliver(c, now) => TrackedDelivery(m, net, c, now);
  }

  /** Originated ids are never forgotten. */
  lemma OriginsOnlyGrow(m: Topology, net: Net, e: Event)
    requires Enabled(m, net, e)
    ensures net.origins.Keys <= Apply(m, net, e).origins.Keys && |net.origins| <= |Apply(m, net, e).origins|
  {
    if e.Originate? {
      assert |net.origins[e.packet.header.packetId := Origin(e.node, e.packet)]| == |net.origins| + 1;
    }
  }

  /** The whole account holds after every run that originates at most 512 ids. */
  lemma {:induction false} RunIsTracked(m: Topology, es: seq<Event>)
    requires ValidTopology(m) && IsRun(m, es) && |NetAfter(m, es).origins| <= CACHE_SIZE
    ensures Tracked(m, NetAfter(m, es))
  {
    if es != [] {
      var front := es[..|es| - 1];
      OriginsOnlyGrow(m, NetAfter(m, front), es[|es| - 1]);
      RunIsTracked(m, front);
      TrackedStep(m, NetAfter(m, front), es[|es| - 1]);
    }
  }
}
