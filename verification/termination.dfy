/** Every flood ends: TTL alone sees to it, with any number of ids and whatever the caches forget. */
module Termination {
  import opened Packets
  import opened Transport
  import opened Mesh
  import opened Provenance

  /** `k` times `each`, by repeated addition. */
  function Total(k: nat, each: int): int {
    if k == 0 then 0 else Total(k - 1, each) + each
  }

  lemma {:induction false} TotalIsProduct(k: nat, each: int)
    ensures Total(k, each) == k * each
  {
    if k > 0 {
      TotalIsProduct(k - 1, each);
      assert k * each == (k - 1) * each + each;
    }
  }

  lemma {:induction false} TotalGrows(k: nat, l: nat, each: nat)
    requires k <= l
    ensures Total(k, each) <= Total(l, each)
  {
    if k < l {
      TotalGrows(k, l - 1, each);
    }
  }

  /** How many deliveries and losses one copy with this TTL can bring about, itself included. */
  function Work(links: nat, ttl: nat): (w: int)
    ensures w >= 1
  {
    if ttl == 0 then 1
    else
      TotalGrows(0, links, Work(links, ttl - 1));
      1 + Total(links, Work(links, ttl - 1))
  }

  ghost function Pick(s: multiset<Copy>): Copy
    requires s != multiset{}
  {
    var c :| c in s; c
  }

  /** The work left in all copies on the wire. */
  ghost function Left(links: nat, s: multiset<Copy>): nat
    decreases |s|
  {
    if s == multiset{} then 0 else Work(links, Pick(s).pkt.header.ttl) + Left(links, s - multiset{Pick(s)})
  }

  lemma {:induction false} LeftWithout(links: nat, s: multiset<Copy>, c: Copy)
    requires c in s
    ensures Left(links, s) == Work(links, c.pkt.header.ttl) + Left(links, s - multiset{c})
    decreases |s|
  {
    var d := Pick(s);
    if c != d {
      LeftWithout(links, s - multiset{d}, c);
      LeftWithout(links, s - multiset{c}, d);
      assert s - multiset{d} - multiset{c} == s - multiset{c} - multiset{d};
    }
  }

  /** Copies of equal TTL add their work. */
  lemma {:induction false} LeftWith(links: nat, s: multiset<Copy>, fan: set<Copy>, ttl: nat)
    requires forall c :: c in fan ==> c.pkt.header.ttl == ttl
    ensures Left(links, s + multiset(fan)) == Left(links, s) + Total(|fan|, Work(links, ttl))
    decreases |fan|
  {
    if fan == {} {
      assert s + multiset(fan) == s;
    } else {
      var c :| c in fan;
      var rest := fan - {c};
      LeftWith(links, s, rest, ttl);
      assert s + multiset(fan) - multiset{c} == s + multiset(rest);
      LeftWithout(links, s + multiset(fan), c);
      assert |rest| == |fan| - 1;
    }
  }

  lemma {:induction false} FanSize(fan: set<Copy>, u: NodeId, p: ClampPacket, links: set<Link>)
    requires forall c :: c in fan ==> c.from == u && c.pkt == p && Link(u, c.to) in links
    ensures |fan| <= |links|
  {
    if fan != {} {
      var c :| c in fan;
      FanSize(fan - {c}, u, p, links - {Link(u, c.to)});
    }
  }

  // ---- every delivery and every loss lowers it -----------------------------------------------------

  lemma DeliveryLowers(m: Topology, net: Net, c: Copy, r: Reaction)
    requires Reacts(m, net, c, r)
    ensures Left(|m.links|, AfterReaction(m, net, c, r).flight) < Left(|m.links|, net.flight)
  {
    var fan, links, ttl := Relays(m, c, r), |m.links|, c.pkt.header.ttl;
    var left := net.flight - multiset{c};
    LeftWithout(links, net.flight, c);
    if r.relayed.Some? {
      LeftWith(links, left, fan, ttl - 1);
      FanSize(fan, c.to, r.relayed.value, m.links);
      TotalGrows(|fan|, links, Work(links, ttl - 1));
    } else {
      assert left + multiset(fan) == left;
    }
  }

  lemma StepLowers(m: Topology, net: Net, e: Event)
    requires Genuine(m, net) && Enabled(m, net, e) && !e.Originate?
    ensures Left(|m.links|, Apply(m, net, e).flight) < Left(|m.links|, net.flight)
    ensures Apply(m, net, e).origins == net.origins
  {
    match e
    case Lose(c) => LeftWithout(|m.links|, net.flight, c);
    case Deliver(c, now) =>
      DeliveryReacts(m, net, c, now);
      DeliveryLowers(m, net, c, ReactionTo(net, c, now));
  }

  /** After the last origination a run has at most as many events as there was work left on the wire. */
  lemma {:induction false} EndsWithin(m: Topology, es: seq<Event>, more: seq<Event>)
    requires ValidTopology(m) && IsRun(m, es + more) && IsRun(m, es) && forall i :: 0 <= i < |more| ==> !more[i].Originate?
    ensures |more| + Left(|m.links|, NetAfter(m, es + more).flight) <= Left(|m.links|, NetAfter(m, es).flight)
  {
    if more == [] {
      assert es + more == es;
    } else {
      var front, e := more[..|more| - 1], more[|more| - 1];
      assert (es + more)[..|es + more| - 1] == es + front && (es + more)[|es + more| - 1] == e;
      EndsWithin(m, es, front);
      RunIsGenuine(m, es + front);
      StepLowers(m, NetAfter(m, es + front), e);
    }
  }

  /** While a copy is on the wire it can be delivered: only a settled network has nothing left to do. */
  lemma NeverStuck(m: Topology, es: seq<Event>, c: Copy, now: nat)
    requires ValidTopology(m) && IsRun(m, es) && c in NetAfter(m, es).flight
    ensures IsRun(m, es + [Deliver(c, now)])
  {
    HopInvariant(m, es);
    assert (es + [Deliver(c, now)])[..|es|] == es;
  }

  lemma DeliverNext(m: Topology, es: seq<Event>, c: Copy) returns (more: seq<Event>)
    requires ValidTopology(m) && IsRun(m, es) && c in NetAfter(m, es).flight
    ensures Enabled(m, NetAfter(m, es), Deliver(c, 0)) && more == es + [Deliver(c, 0)]
    ensures IsRun(m, more) && NetAfter(m, more) == Apply(m, NetAfter(m, es), Deliver(c, 0))
    ensures Left(|m.links|, NetAfter(m, more).flight) < Left(|m.links|, NetAfter(m, es).flight)
  {
    RunIsGenuine(m, es);
    assert CopyGenuine(m, NetAfter(m, es).origins, NetAfter(m, es).sent, c);
    RunExtends(m, es, Deliver(c, 0));
    StepLowers(m, NetAfter(m, es), Deliver(c, 0));
    more := es + [Deliver(c, 0)];
  }

  lemma OneMoreDelivery(m: Topology, es: seq<Event>) returns (c: Copy, more: seq<Event>)
    requires ValidTopology(m) && IsRun(m, es) && NetAfter(m, es).flight != multiset{}
    ensures c in NetAfter(m, es).flight && Enabled(m, NetAfter(m, es), Deliver(c, 0))
    ensures es <= more && |more| == |es| + 1 && IsRun(m, more) && NetAfter(m, more) == Apply(m, NetAfter(m, es), Deliver(c, 0))
    ensures NetAfter(m, more).origins == NetAfter(m, es).origins && NetAfter(m, more).lost == NetAfter(m, es).lost
    ensures Left(|m.links|, NetAfter(m, more).flight) < Left(|m.links|, NetAfter(m, es).flight)
  {
    c :| c in NetAfter(m, es).flight;
    more := DeliverNext(m, es, c);
  }

  /** Every run can be completed by deliveries alone. */
  lemma {:induction false} Settles(m: Topology, es: seq<Event>) returns (all: seq<Event>)
    requires ValidTopology(m) && IsRun(m, es)
    ensures es <= all && IsRun(m, all) && NetAfter(m, all).flight == multiset{}
    ensures NetAfter(m, all).origins == NetAfter(m, es).origins && NetAfter(m, all).lost == NetAfter(m, es).lost
    decreases Left(|m.links|, NetAfter(m, es).flight)
  {
    if NetAfter(m, es).flight == multiset{} {
      all := es;
    } else {
      var c, more := OneMoreDelivery(m, es);
      all := Settles(m, more);
    }
  }
}
