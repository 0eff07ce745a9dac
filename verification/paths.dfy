/** Paths through a network. */
module Paths {
  import opened Packets
  import opened Mesh

  ghost predicate IsPath(m: Topology, p: seq<NodeId>) {
    && p != []
    && (forall i :: 0 <= i < |p| ==> p[i] in m.nodes)
    && (forall i :: 0 < i < |p| ==> Link(p[i - 1], p[i]) in m.links)
  }

  ghost predicate Joins(m: Topology, p: seq<NodeId>, u: NodeId, v: NodeId) {
    IsPath(m, p) && p[0] == u && p[|p| - 1] == v
  }

  ghost predicate Linked(m: Topology, u: NodeId, v: NodeId) { exists p :: Joins(m, p, u, v) }

  ghost predicate Connected(m: Topology) {
    forall u, v {:trigger Linked(m, u, v)} :: u in m.nodes && v in m.nodes ==> Linked(m, u, v)
  }

  lemma PathExtends(m: Topology, p: seq<NodeId>, u: NodeId, v: NodeId, w: NodeId)
    requires Joins(m, p, u, v) && w in m.nodes && Link(v, w) in m.links
    ensures Joins(m, p + [w], u, w)
  {}

  /** A path that leaves a set has a link that leaves it. */
  lemma {:induction false} PathLeaves(m: Topology, p: seq<NodeId>, inside: set<NodeId>) returns (l: Link)
    requires IsPath(m, p) && p[0] in inside && p[|p| - 1] !in inside
    ensures l in m.links && l.from in inside && l.to !in inside
  {
    var n := |p| - 1;
    if p[n - 1] in inside {
      l := Link(p[n - 1], p[n]);
    } else {
      l := PathLeaves(m, p[..n], inside);
    }
  }

  /** Some path of at most `n` links leads from one node to another. */
  ghost predicate Within(m: Topology, u: NodeId, v: NodeId, n: nat) {
    exists p :: Joins(m, p, u, v) && |p| <= n + 1
  }

  lemma WithinSelf(m: Topology, u: NodeId)
    requires u in m.nodes
    ensures Within(m, u, u, 0)
  {
    assert Joins(m, [u], u, u);
  }

  lemma WithinExtends(m: Topology, u: NodeId, v: NodeId, w: NodeId, n: nat)
    requires ValidTopology(m) && Within(m, u, v, n) && Link(v, w) in m.links
    ensures Within(m, u, w, n + 1)
  {
    var p :| Joins(m, p, u, v) && |p| <= n + 1;
    PathExtends(m, p, u, v, w);
  }

  lemma {:induction false} SubsetCard<T>(a: set<T>, b: set<T>)
    requires a <= b
    ensures |a| <= |b|
  {
    if a != {} {
      var x :| x in a;
      SubsetCard(a - {x}, b - {x});
    }
  }
}
