/** Who a flood reaches: always everyone in small connected networks, and in hop order everyone in range. */
module Coverage {
  import opened Bytes
  import opened Packets
  import opened RateLimit
  import opened Mesh
  import opened Paths
  import opened Provenance
  import opened Flood
  import opened CleanRun
  import opened Projection

  /** The nodes that took an id in. */
  ghost function ReachedBy(m: Topology, net: Net, id: PacketId): set<NodeId> {
    set v | v in m.nodes && Reached(net, v, id)
  }

  /** No copy of the id is on the wire, and none was lost. */
  ghost predicate Settled(net: Net, id: PacketId) {
    && (forall c :: c in net.flight ==> c.pkt.header.packetId != id)
    && (forall x :: x in net.lost ==> x.id != id)
  }

  ghost predicate SettledWhole(net: Net, id: PacketId) { Settled(net, id) && NoneRefused(net, id) }

  /** Up to 200 ids nothing is refused at all. */
  lemma FewIdsAreNotRefused(m: Topology, es: seq<Event>, id: PacketId)
    requires ValidTopology(m) && IsRun(m, es) && |NetAfter(m, es).origins| <= RATE_BURST
    ensures NoneRefused(NetAfter(m, es), id)
  {
    RunIsClean(m, es);
  }

  /** A whole settled flood is one in its projection too. */
  lemma SettledProjection(m: Topology, es: seq<Event>, id: PacketId) returns (n: Net)
    requires ValidTopology(m) && IsRun(m, es) && Remembered(m, es, id)
    requires id in NetAfter(m, es).origins && SettledWhole(NetAfter(m, es), id)
    ensures SameRecords(NetAfter(m, es), n, id) && Tracked(m, n) && id in n.origins && SettledWhole(n, id)
    ensures IsRun(m, Project(m, es, id)) && n == NetAfter(m, Project(m, es, id)) && |n.origins| <= 1
  {
    n := ProjectionIsClean(m, es, id);
    SettledMirror(m, NetAfter(m, es), n, id);
  }

  lemma SettledMirror(m: Topology, net: Net, n: Net, id: PacketId)
    requires Mirrors(net, n, id) && Clean(m, n) && SettledWhole(net, id)
    ensures SettledWhole(n, id)
  {
    assert n.flight <= net.flight;
  }

  // ---- the exact outcome of a settled flood ------------------------------------------------

  /** A node that takes an id in with TTL left reaches every neighbour once the flood has settled. */
  lemma NeighbourReached(m: Topology, net: Net, id: PacketId, u: NodeId, v: NodeId)
    requires ValidTopology(m) && Tracked(m, net) && id in net.origins && SettledWhole(net, id)
    requires Link(u, v) in m.links && Reached(net, u, id) && net.visits[Key(u, id)].depth <= Reach(net, id)
    ensures Reached(net, v, id)
  {
    assert VisitOk(m, net.origins, net.visits, Key(u, id));
    assert OriginOk(m, net.origins, net.visits, id);
    var parent := net.visits[Key(u, id)].parent;
    if v == parent {
      assert net.visits[Key(u, id)].depth > 0;
    } else {
      var x := Crossing(u, v, id);
      assert Due(m, net.origins, net.visits, x);
      assert x in net.got;
    }
  }

  /**
   * Once a flood has settled whole, a node has the packet exactly when it originated it or some neighbour took
   * it in with TTL left, for every delivery order.
   */
  lemma SettledOutcome(m: Topology, es: seq<Event>, id: PacketId, v: NodeId)
    requires ValidTopology(m) && IsRun(m, es) && Remembered(m, es, id)
    requires id in NetAfter(m, es).origins && SettledWhole(NetAfter(m, es), id)
    ensures var net := NetAfter(m, es);
            Reached(net, v, id) <==>
            v == net.origins[id].node ||
            exists u :: Link(u, v) in m.links && Reached(net, u, id) && net.visits[Key(u, id)].depth <= Reach(net, id)
  {
    var n := SettledProjection(m, es, id);
    assert OriginOk(m, n.origins, n.visits, id);
    if Reached(n, v, id) && v != n.origins[id].node {
      assert VisitOk(m, n.origins, n.visits, Key(v, id));
      var u := n.visits[Key(v, id)].parent;
      assert Link(u, v) in m.links && Reached(n, u, id);
    }
    forall u | Link(u, v) in m.links && Reached(n, u, id) && n.visits[Key(u, id)].depth <= Reach(n, id)
      ensures Reached(n, v, id)
    {
      NeighbourReached(m, n, id, u, v);
    }
  }

  // ---- small networks --------------------------------------------------------------------

  /** The chain of nodes a packet came through: one for every depth from 0 to the node's own. */
  lemma {:induction false} ChainBehind(m: Topology, net: Net, k: Key) returns (chain: set<NodeId>)
    requires Tracked(m, net) && k in net.visits
    ensures |chain| == net.visits[k].depth + 1
    ensures forall v :: v in chain ==> Reached(net, v, k.id) && v in m.nodes && net.visits[Key(v, k.id)].depth <= net.visits[k].depth
    decreases net.visits[k].depth
  {
    assert VisitOk(m, net.origins, net.visits, k);
    if net.visits[k].depth == 0 {
      chain := {k.node};
    } else {
      var before := ChainBehind(m, net, Key(net.visits[k].parent, k.id));
      assert k.node !in before;
      chain := before + {k.node};
    }
  }

  /**
   * In a connected network of at most TTL + 2 nodes (9 for DM and file, 7 for broadcast) a settled flood that
   * was remembered, and of which nothing was lost or refused, has reached every node, whatever the order of
   * deliveries and whatever else the network carried.
   */
  lemma FloodCoverage(m: Topology, es: seq<Event>, id: PacketId)
    requires ValidTopology(m) && Connected(m) && IsRun(m, es) && Remembered(m, es, id)
    requires var net := NetAfter(m, es);
             id in net.origins && SettledWhole(net, id) && |m.nodes| <= Reach(net, id) + 2
    ensures forall v :: v in m.nodes ==> Reached(NetAfter(m, es), v, id)
  {
    var n := SettledProjection(m, es, id);
    AllReached(m, n, id);
    assert forall v :: v in m.nodes ==> Reached(n, v, id);
  }

  /** For a broadcast it is enough that no copy was lost. */
  lemma BroadcastCoverage(m: Topology, es: seq<Event>, id: PacketId)
    requires ValidTopology(m) && Connected(m) && IsRun(m, es) && Remembered(m, es, id) && |m.nodes| <= 7
    requires var net := NetAfter(m, es);
             id in net.origins && Settled(net, id) && net.origins[id].packet.header.packetType == Broadcast
    ensures forall v :: v in m.nodes ==> Reached(NetAfter(m, es), v, id)
  {
    var net := NetAfter(m, es);
    BroadcastIsNotRefused(m, es, id);
    RunIsGenuine(m, es);
    assert OriginKnown(m, net.origins, net.visits, id);
    FloodCoverage(m, es, id);
  }

  /** For any packet that is enough with up to 200 ids. */
  lemma FewIdsCoverage(m: Topology, es: seq<Event>, id: PacketId)
    requires ValidTopology(m) && Connected(m) && IsRun(m, es) && |NetAfter(m, es).origins| <= RATE_BURST
    requires var net := NetAfter(m, es);
             id in net.origins && Settled(net, id) && |m.nodes| <= Reach(net, id) + 2
    ensures forall v :: v in m.nodes ==> Reached(NetAfter(m, es), v, id)
  {
    FewIdsAreNotRefused(m, es, id);
    FewIdsAreRemembered(m, es, id);
    FloodCoverage(m, es, id);
  }

  lemma AllReached(m: Topology, net: Net, id: PacketId)
    requires ValidTopology(m) && Connected(m) && Tracked(m, net)
    requires id in net.origins && SettledWhole(net, id) && |m.nodes| <= Reach(net, id) + 2
    ensures forall v :: v in m.nodes ==> Reached(net, v, id)
  {
    forall v | v in m.nodes ensures Reached(net, v, id) {
      if !Reached(net, v, id) {
        MissedMeansLarge(m, net, id, v);
      }
    }
  }

  /** A node is missed only where a chain of TTL + 2 nodes used the TTL up in front of it. */
  lemma MissedMeansLarge(m: Topology, net: Net, id: PacketId, v: NodeId)
    requires ValidTopology(m) && Connected(m) && Tracked(m, net)
    requires id in net.origins && SettledWhole(net, id) && v in m.nodes && !Reached(net, v, id)
    ensures |m.nodes| >= Reach(net, id) + 3
  {
    var l := LeavesReached(m, net, id, v);
    BorderIsLate(m, net, id, l);
    var chain := ChainBehind(m, net, Key(l.from, id));
    OneMore(chain, l.to, m.nodes);
  }

  lemma OneMore<T>(a: set<T>, x: T, b: set<T>)
    requires (forall y :: y in a ==> y in b) && x in b && x !in a
    ensures |b| >= |a| + 1
  {
    SubsetCard(a + {x}, b);
  }

  lemma BorderIsLate(m: Topology, net: Net, id: PacketId, l: Link)
    requires ValidTopology(m) && Tracked(m, net) && id in net.origins && SettledWhole(net, id)
    requires l in m.links && Reached(net, l.from, id) && !Reached(net, l.to, id)
    ensures net.visits[Key(l.from, id)].depth == Reach(net, id) + 1
  {
    assert VisitOk(m, net.origins, net.visits, Key(l.from, id));
    if net.visits[Key(l.from, id)].depth <= Reach(net, id) {
      NeighbourReached(m, net, id, l.from, l.to);
    }
  }

  lemma LeavesReached(m: Topology, net: Net, id: PacketId, v: NodeId) returns (l: Link)
    requires Connected(m) && OriginsOk(m, net.origins, net.visits)
    requires id in net.origins && v in m.nodes && !Reached(net, v, id)
    requires ValidTopology(m)
    ensures l in m.links && l.to in m.nodes && Reached(net, l.from, id) && !Reached(net, l.to, id)
  {
    assert OriginOk(m, net.origins, net.visits, id);
    var origin := net.origins[id].node;
    assert Linked(m, origin, v);
    var p :| Joins(m, p, origin, v);
    l := PathLeaves(m, p, ReachedBy(m, net, id));
  }

  // ---- the bound on the number of nodes is tight -------------------------------------------

  function Number(i: nat): NodeId
    requires i < 256
  {
    [i as byte] + seq(31, _ => 0)
  }

  ghost predicate NextTo(m: Topology, i: nat)
    requires 0 < i < 256
  {
    Link(Number(i - 1), Number(i)) in m.links && Link(Number(i), Number(i - 1)) in m.links
  }

  ghost predicate OnLine(m: Topology, n: nat, v: NodeId)
    requires n <= 256
  {
    v in m.nodes <==> exists i :: 0 <= i < n && v == Number(i)
  }

  lemma NodeOfLine(m: Topology, n: nat, i: nat)
    requires HasLine(m, n) && i < n
    ensures Number(i) in m.nodes
  {
    assert OnLine(m, n, Number(i));
  }

  /** Nodes 0 to n-1, each linked to the next. */
  ghost predicate HasLine(m: Topology, n: nat) {
    && n <= 256
    && (forall v {:trigger OnLine(m, n, v)} :: OnLine(m, n, v))
    && (forall i {:trigger NextTo(m, i)} :: 0 < i < n ==> NextTo(m, i))
  }

  /** A line of n nodes, without any other link. */
  ghost predicate IsLine(m: Topology, n: nat) {
    && HasLine(m, n)
    && (forall l :: l in m.links ==>
          exists i :: 0 < i < n && (l == Link(Number(i - 1), Number(i)) || l == Link(Number(i), Number(i - 1))))
  }

  /** A path along a line from its first node gains at most one position per link. */
  lemma {:induction false} LinePath(m: Topology, n: nat, p: seq<NodeId>)
    requires IsLine(m, n) && IsPath(m, p) && p[0] == Number(0)
    ensures p[|p| - 1][0] < |p|
  {
    if |p| > 1 {
      LinePath(m, n, p[..|p| - 1]);
      var l := Link(p[|p| - 2], p[|p| - 1]);
      assert l in m.links;
    }
  }

  /** One node more than the bound and coverage fails: on a line of TTL + 3 nodes the last is never reached. */
  lemma LineEndIsNeverReached(m: Topology, n: nat, es: seq<Event>, id: PacketId)
    requires ValidTopology(m) && IsLine(m, n) && IsRun(m, es)
    requires var net := NetAfter(m, es);
             id in net.origins && net.origins[id].node == Number(0) && n == Reach(net, id) + 3
    ensures |m.nodes| == n && Connected(m)
    ensures !Reached(NetAfter(m, es), Number(n - 1), id)
  {
    var net := NetAfter(m, es);
    if Reached(net, Number(n - 1), id) {
      NothingBeyondRange(m, es, id, Number(n - 1));
      var p :| Joins(m, p, Number(0), Number(n - 1)) && |p| <= Reach(net, id) + 1 + 1;
      LinePath(m, n, p);
    }
    LineHasAll(m, n);
  }

  lemma LineHasAll(m: Topology, n: nat)
    requires HasLine(m, n)
    ensures |m.nodes| == n && Connected(m)
  {
    assert forall v {:trigger v in m.nodes} :: OnLine(m, n, v);
    LineCard(m.nodes, n);
    forall u, v | u in m.nodes && v in m.nodes ensures Linked(m, u, v) {
      var i :| 0 <= i < n && u == Number(i);
      var j :| 0 <= j < n && v == Number(j);
      var p := WalkJoins(m, n, i, j);
    }
  }

  lemma {:induction false} WalkJoins(m: Topology, n: nat, i: nat, j: nat) returns (p: seq<NodeId>)
    requires HasLine(m, n) && i < n && j < n
    ensures Joins(m, p, Number(i), Number(j))
    decreases if i < j then j - i else i - j
  {
    if i == j {
      NodeOfLine(m, n, i);
      p := [Number(i)];
    } else {
      var k := if i < j then j - 1 else j + 1;
      var q := WalkJoins(m, n, i, k);
      NodeOfLine(m, n, j);
      assert NextTo(m, if i < j then j else k);
      PathExtends(m, q, Number(i), Number(k), Number(j));
      p := q + [Number(j)];
    }
  }

  lemma {:induction false} LineCard(nodes: set<NodeId>, n: nat)
    requires n <= 256 && forall v :: v in nodes <==> exists i :: 0 <= i < n && v == Number(i)
    ensures |nodes| == n
  {
    if n > 0 {
      var last := Number(n - 1);
      assert last in nodes;
      forall v ensures v in nodes - {last} <==> exists i :: 0 <= i < n - 1 && v == Number(i) {
        if v in nodes && v != last {
          var i :| 0 <= i < n && v == Number(i);
          assert i < n - 1;
        }
        if i :| 0 <= i < n - 1 && v == Number(i) {
          assert v[0] == i && last[0] == n - 1;
        }
      }
      LineCard(nodes - {last}, n - 1);
    } else {
      assert nodes == {};
    }
  }
}
