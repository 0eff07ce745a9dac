/**
 * Why delivery order matters: ten nodes on a line whose ninth is also a neighbour of the first. If the packet
 * goes all the way round before the direct copy arrives, the ninth node takes it in with its TTL used up and
 * drops the direct copy as a duplicate, so the tenth node, two links from the origin, never gets it.
 */
module LateCopy {
  import opened Packets
  import opened Mesh
  import opened Paths
  import opened Provenance
  import opened Coverage
  import opened Outcomes

  predicate Adjacent(i: nat, j: nat) { j == i + 1 || i == j + 1 || (i == 0 && j == 8) || (i == 8 && j == 0) }

  ghost predicate IsLoop(m: Topology) {
    && HasLine(m, 10)
    && (forall l {:trigger OnLoop(m, l)} :: OnLoop(m, l))
  }

  ghost predicate OnLoop(m: Topology, l: Link) {
    l in m.links <==> exists i, j :: 0 <= i < 10 && 0 <= j < 10 && Adjacent(i, j) && l == Link(Number(i), Number(j))
  }

  lemma LoopLinks(m: Topology, i: nat, j: nat)
    requires IsLoop(m) && i < 10 && j < 10
    ensures Link(Number(i), Number(j)) in m.links <==> Adjacent(i, j)
  {
    assert Number(i)[0] == i && Number(j)[0] == j;
    assert OnLoop(m, Link(Number(i), Number(j)));
  }

  lemma LoopIsValid(m: Topology)
    requires IsLoop(m)
    ensures ValidTopology(m)
  {
    forall l | l in m.links
      ensures l.from in m.nodes && l.to in m.nodes && l.from != l.to && Link(l.to, l.from) in m.links
    {
      assert OnLoop(m, l);
      var i, j :| 0 <= i < 10 && 0 <= j < 10 && Adjacent(i, j) && l == Link(Number(i), Number(j));
      NodeOfLine(m, 10, i);
      NodeOfLine(m, 10, j);
      assert Number(i)[0] == i && Number(j)[0] == j;
      LoopLinks(m, j, i);
    }
  }

  /** The packet goes round the line: node i has it from node i - 1, and node 9 does not have it. */
  ghost function RoundTree(m: Topology): map<NodeId, Visit> {
    map v | v in m.nodes && v[0] < 9 :: Visit(v[0], if v[0] == 0 then v else Number(v[0] - 1))
  }

  lemma RoundTreeIsOutcome(m: Topology)
    requires IsLoop(m)
    ensures IsOutcome(m, Number(0), TTL_MAX, RoundTree(m)) && Number(9) !in RoundTree(m)
  {
    var t := RoundTree(m);
    NodeOfLine(m, 10, 0);
    assert Number(0)[0] == 0 && Number(9)[0] == 9;
    forall v | v in t && v != Number(0) ensures HangsOff(m, TTL_MAX, t, v) {
      RoundParent(m, v);
    }
    forall u, v | u in t && t[u].depth <= TTL_MAX && Link(u, v) in m.links ensures v in t {
      RoundNeighbour(m, u, v);
    }
  }

  lemma RoundParent(m: Topology, v: NodeId)
    requires IsLoop(m) && v in RoundTree(m) && v != Number(0)
    ensures HangsOff(m, TTL_MAX, RoundTree(m), v)
  {
    assert OnLine(m, 10, v);
    var i :| 0 <= i < 10 && v == Number(i);
    assert Number(i)[0] == i && Number(i - 1)[0] == i - 1;
    NodeOfLine(m, 10, i - 1);
    LoopLinks(m, i - 1, i);
  }

  lemma RoundNeighbour(m: Topology, u: NodeId, v: NodeId)
    requires IsLoop(m) && Link(u, v) in m.links && u[0] <= 7
    ensures v in RoundTree(m)
  {
    assert OnLoop(m, Link(u, v));
    var i, j :| 0 <= i < 10 && 0 <= j < 10 && Adjacent(i, j) && Link(u, v) == Link(Number(i), Number(j));
    assert Number(i)[0] == i && Number(j)[0] == j;
    NodeOfLine(m, 10, j);
  }

  /** In this connected network of TTL + 3 nodes a node two links away from the origin is not always reached. */
  lemma NearNodeIsMissed(m: Topology, p: ClampPacket) returns (es: seq<Event>)
    requires IsLoop(m) && Originated(m, Number(0), p) && p.header.packetType != Broadcast
    ensures ValidTopology(m) && Connected(m) && |m.nodes| == 10
    ensures Joins(m, [Number(0), Number(8), Number(9)], Number(0), Number(9))
    ensures FloodOf(m, es, Number(0), p) && !Reached(NetAfter(m, es), Number(9), p.header.packetId)
    ensures !AlwaysReached(m, Number(0), p, Number(9))
  {
    LoopIsValid(m);
    LineHasAll(m, 10);
    TwoLinksAway(m);
    RoundTreeIsOutcome(m);
    es := OutcomeHasFlood(m, Number(0), p, RoundTree(m));
    assert Number(9) !in Record(m, NetAfter(m, es), p.header.packetId);
    assert Number(9) in m.nodes;
  }

  lemma TwoLinksAway(m: Topology)
    requires IsLoop(m)
    ensures Joins(m, [Number(0), Number(8), Number(9)], Number(0), Number(9))
  {
    LoopLinks(m, 0, 8);
    LoopLinks(m, 8, 9);
    NodeOfLine(m, 10, 0);
    NodeOfLine(m, 10, 8);
    NodeOfLine(m, 10, 9);
  }
}
