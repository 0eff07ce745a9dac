/** What a router's state remembers of its whole past: replays, trust and rates over any run of its operations. */
module RouterHistory {
  import opened Packets
  import opened RateLimit
  import opened ReplayCache
  import opened Routing
  import opened Crypto

  datatype Event =
    | Incoming(packet: ClampPacket, source: NodeId, now: nat)
    | Registered(id: PacketId)
    | KeySet(key: MacKey)

  type Run = seq<Event>

  function Step(st: RouterState, e: Event): RouterState {
    match e
    case Incoming(p, source, now) => Handle(st, p, source, now).0
    case Registered(id) => Register(st, id)
    case KeySet(key) => st.(key := key)
  }

  function After(st: RouterState, es: Run): RouterState {
    if es == [] then st else Step(After(st, es[..|es| - 1]), es[|es| - 1])
  }

  function Decision(st: RouterState, e: Event): RoutingDecision
    requires e.Incoming?
  {
    Handle(st, e.packet, e.source, e.now).2
  }

  // ---- replay protection ----------------------------------------------------------------

  /** The id an event puts into the cache, if any. */
  function PutBy(st: RouterState, e: Event): seq<PacketId> {
    match e
    case Incoming(p, source, now) => if Decision(st, e).Drop? then [] else [p.header.packetId]
    case Registered(id) => [id]
    case KeySet(_) => []
  }

  function Puts(st: RouterState, es: Run): seq<PacketId> {
    if es == [] then [] else Puts(st, es[..|es| - 1]) + PutBy(After(st, es[..|es| - 1]), es[|es| - 1])
  }

  lemma {:induction false} CacheIsPuts(me: NodeId, key: MacKey, es: Run)
    ensures After(NewRouter(me, key), es).cache == AfterPuts(Puts(NewRouter(me, key), es))
  {
    if es != [] {
      var st := NewRouter(me, key);
      var front, e := es[..|es| - 1], es[|es| - 1];
      CacheIsPuts(me, key, front);
      var puts, put := Puts(st, front), PutBy(After(st, front), e);
      StepCache(After(st, front), e);
      if put == [] {
        assert puts + put == puts;
      } else {
        assert (puts + put)[..|puts + put| - 1] == puts;
      }
    }
  }

  lemma StepCache(st: RouterState, e: Event)
    ensures |PutBy(st, e)| <= 1
    ensures Step(st, e).cache == if PutBy(st, e) == [] then st.cache else Put(st.cache, PutBy(st, e)[0])
  {}

  /**
   * Over any run of the router, an id is refused as a duplicate exactly while fewer than 512 distinct ids
   * have been put since it was last put.
   */
  lemma ReplayWindow(me: NodeId, key: MacKey, es: Run, id: PacketId)
    ensures var puts := Puts(NewRouter(me, key), es);
            id in After(NewRouter(me, key), es).cache <==> id in puts && |Ids(Since(puts, id))| < 512
  {
    CacheIsPuts(me, key, es);
    CacheMatchesHistory(Puts(NewRouter(me, key), es), id);
  }

  /** An id once put is accepted again only after at least 512 distinct other ids were put in between. */
  lemma AcceptedTwiceMeansManyBetween(me: NodeId, key: MacKey, es: Run, p: ClampPacket, source: NodeId, now: nat)
    requires var st := NewRouter(me, key);
             p.header.packetId in Puts(st, es) && !Handle(After(st, es), p, source, now).2.Drop?
    ensures var between := Ids(Since(Puts(NewRouter(me, key), es), p.header.packetId));
            |between| >= 512 && p.header.packetId !in between
  {
    ReplayWindow(me, key, es, p.header.packetId);
    SinceExcludes(Puts(NewRouter(me, key), es), p.header.packetId);
  }

  lemma {:induction false} SinceExcludes(puts: seq<PacketId>, id: PacketId)
    ensures id !in Since(puts, id)
  {
    if puts != [] && puts[|puts| - 1] != id {
      SinceExcludes(puts[..|puts| - 1], id);
    }
  }

  // ---- trust ----------------------------------------------------------------------------

  datatype Outcome = Valid | BadMac | RateLimited | Ignored

  function OutcomeOf(d: RoutingDecision): Outcome {
    match d
    case Drop(InvalidHopMac) => BadMac
    case Drop(RateLimitExceeded) => RateLimited
    case Drop(_) => Ignored
    case _ => Valid
  }

  /** How many packets of one source ended in the given outcome. */
  function Count(st: RouterState, es: Run, source: NodeId, o: Outcome): nat {
    if es == [] then 0
    else
      var prev, e := After(st, es[..|es| - 1]), es[|es| - 1];
      Count(st, es[..|es| - 1], source, o) +
      if e.Incoming? && e.source == source && OutcomeOf(Decision(prev, e)) == o then 1 else 0
  }

  /** The score's change in one step, by outcome; other sources' packets do not move it. */
  lemma TrustStep(st: RouterState, e: Event, source: NodeId)
    requires 0 <= TrustOf(st, source) <= 500
    ensures var t, t' := TrustOf(st, source), TrustOf(Step(st, e), source);
            if !e.Incoming? || e.source != source then t' == t
            else match OutcomeOf(Decision(st, e))
                 case Valid => t >= 50 && t' == if t == 500 then 500 else t + 1
                 case BadMac => t >= 50 && t' == t - 50
                 case RateLimited => t' == if t < 100 then 0 else t - 100
                 case Ignored => t' == t
  {}

  /**
   * Scores stay in 0..500, and a source that is still trusted has paid for its offences with accepted
   * packets: 50 per bad MAC and 100 per rate violation never exceed 150 plus one per accepted packet.
   */
  lemma {:induction false} TrustLedger(me: NodeId, key: MacKey, es: Run, source: NodeId)
    ensures var st := NewRouter(me, key);
            var t := TrustOf(After(st, es), source);
            var v, i, r := Count(st, es, source, Valid), Count(st, es, source, BadMac), Count(st, es, source, RateLimited);
            0 <= t <= TRUST_MAX && (t >= TRUST_THRESHOLD ==> t <= TRUST_INITIAL + v - 50 * i - 100 * r && 50 * i + 100 * r <= 150 + v)
  {
    if es != [] {
      TrustLedger(me, key, es[..|es| - 1], source);
      TrustStep(After(NewRouter(me, key), es[..|es| - 1]), es[|es| - 1], source);
    }
  }

  /** Without an offence a source's score is exactly 200 plus its accepted packets, up to 500. */
  lemma {:induction false} TrustIsEarned(me: NodeId, key: MacKey, es: Run, source: NodeId)
    requires Count(NewRouter(me, key), es, source, BadMac) == 0 == Count(NewRouter(me, key), es, source, RateLimited)
    ensures TrustOf(After(NewRouter(me, key), es), source) == Min(500, 200 + Count(NewRouter(me, key), es, source, Valid))
  {
    if es != [] {
      TrustIsEarned(me, key, es[..|es| - 1], source);
      TrustStep(After(NewRouter(me, key), es[..|es| - 1]), es[|es| - 1], source);
    }
  }

  /** Below the threshold a score never rises again and every later packet of that source is dropped. */
  lemma {:induction false} DistrustIsAbsorbing(st: RouterState, es: Run, source: NodeId)
    requires 0 <= TrustOf(st, source) < TRUST_THRESHOLD
    ensures 0 <= TrustOf(After(st, es), source) <= TrustOf(st, source)
    ensures forall p, now :: Handle(After(st, es), p, source, now).2.Drop?
  {
    if es != [] {
      DistrustIsAbsorbing(st, es[..|es| - 1], source);
      TrustStep(After(st, es[..|es| - 1]), es[|es| - 1], source);
    }
  }

  // ---- rates ----------------------------------------------------------------------------

  /** The arrival times of one source's packets. */
  function Arrivals(es: Run, source: NodeId): seq<nat> {
    if es == [] then []
    else
      var e := es[|es| - 1];
      Arrivals(es[..|es| - 1], source) + if e.Incoming? && e.source == source then [e.now] else []
  }

  /** Packets of one source that were not stopped by the rate limit. */
  function Passed(st: RouterState, es: Run, source: NodeId): nat {
    Count(st, es, source, Valid) + Count(st, es, source, BadMac) + Count(st, es, source, Ignored)
  }

  lemma PassedStep(st: RouterState, es: Run, source: NodeId)
    requires es != []
    ensures var prev, e := After(st, es[..|es| - 1]), es[|es| - 1];
            Passed(st, es, source) == Passed(st, es[..|es| - 1], source) +
            if e.Incoming? && e.source == source && OutcomeOf(Decision(prev, e)) != RateLimited then 1 else 0
  {}

  lemma OthersKeepBucket(st: RouterState, e: Event, source: NodeId)
    requires !(e.Incoming? && e.source == source)
    ensures source in Step(st, e).buckets <==> source in st.buckets
    ensures source in st.buckets ==> Step(st, e).buckets[source] == st.buckets[source]
  {}

  lemma LimitDecides(st: RouterState, e: Event)
    requires e.Incoming?
    ensures var (ok, b) := Consume(BucketOf(st, e.source, e.now), e.now);
            (OutcomeOf(Decision(st, e)) == RateLimited <==> !ok) && Step(st, e).buckets == st.buckets[e.source := b]
  {}

  /** One more call of the bucket. */
  lemma OneMoreArrival(b: Bucket, times: seq<nat>, now: nat)
    ensures RateLimit.After(b, times + [now]) == Consume(RateLimit.After(b, times), now).1
    ensures Grants(b, times + [now]) == Grants(b, times) + if Consume(RateLimit.After(b, times), now).0 then 1 else 0
  {
    assert (times + [now])[..|times|] == times;
  }

  /** What a source's arrivals alone make of its bucket, and how many of them pass. */
  ghost predicate BucketFollows(st: RouterState, st': RouterState, source: NodeId, times: seq<nat>, passed: nat) {
    if times == [] then
      && (source in st'.buckets <==> source in st.buckets) && (source in st'.buckets ==> st'.buckets[source] == st.buckets[source])
      && passed == 0
    else
      && source in st'.buckets && st'.buckets[source] == RateLimit.After(BucketOf(st, source, times[0]), times)
      && passed == Grants(BucketOf(st, source, times[0]), times)
  }

  lemma OwnArrival(st: RouterState, prev: RouterState, e: Event, times: seq<nat>, passed: nat)
    requires e.Incoming? && BucketFollows(st, prev, e.source, times, passed)
    ensures var now := if OutcomeOf(Decision(prev, e)) != RateLimited then 1 else 0;
            BucketFollows(st, Step(prev, e), e.source, times + [e.now], passed + now)
  {
    LimitDecides(prev, e);
    OneMoreArrival(BucketOf(st, e.source, (times + [e.now])[0]), times, e.now);
  }

  /** From any state, each source is limited by its own bucket alone, opened at its first packet if it has none. */
  lemma {:induction false} BucketFollowsArrivals(st: RouterState, es: Run, source: NodeId)
    ensures BucketFollows(st, After(st, es), source, Arrivals(es, source), Passed(st, es, source))
  {
    if es != [] {
      var front, e := es[..|es| - 1], es[|es| - 1];
      BucketFollowsArrivals(st, front, source);
      PassedStep(st, es, source);
      if e.Incoming? && e.source == source {
        OwnArrival(st, After(st, front), e, Arrivals(front, source), Passed(st, front, source));
      } else {
        OthersKeepBucket(After(st, front), e, source);
        assert Arrivals(es, source) == Arrivals(front, source);
      }
    }
  }

  /** At most 200 packets plus 100 a second of any source get past the limiter, whatever the others send. */
  lemma SourceRateBound(me: NodeId, key: MacKey, es: Run, source: NodeId)
    requires var times := Arrivals(es, source);
             times != [] && forall i, j :: 0 <= i < j < |times| ==> times[i] <= times[j]
    ensures var times := Arrivals(es, source);
            TICK * Passed(NewRouter(me, key), es, source) <= TICK * RATE_BURST + (times[|times| - 1] - times[0])
  {
    var times := Arrivals(es, source);
    BucketFollowsArrivals(NewRouter(me, key), es, source);
    UpperBoundFromCreation(times[0], times, times[|times| - 1]);
  }

  predicate Sorted(times: seq<nat>) { forall i, j :: 0 <= i < j < |times| ==> times[i] <= times[j] }

  /** A source that is new, or has been idle for two seconds, has up to 200 packets in a row pass the limiter. */
  lemma IdleSourcePasses(st: RouterState, es: Run, source: NodeId)
    requires var times := Arrivals(es, source);
             && Sorted(times) && |times| <= 200
             && (times != [] && source in st.buckets ==> times[0] >= st.buckets[source].lastRefill + 200 * 10_000_000)
    ensures Passed(st, es, source) == |Arrivals(es, source)|
  {
    var times := Arrivals(es, source);
    BucketFollowsArrivals(st, es, source);
    if times != [] && source in st.buckets {
      IdleBucketIsFull(st.buckets[source], times);
    } else if times != [] {
      TokensAreGrants(NewBucket(times[0]), times);
    }
  }

  /** Of a source's packets at one moment exactly its balance passes: tokens left plus whole ticks since, up to 200. */
  lemma SourceBurstIsExact(st: RouterState, es: Run, source: NodeId, now: nat)
    requires forall t :: t in Arrivals(es, source) ==> t == now
    requires source in st.buckets ==> st.buckets[source].tokens <= 200
    ensures var held := if source !in st.buckets then 200
                        else if now < st.buckets[source].lastRefill then st.buckets[source].tokens
                        else Min(200, st.buckets[source].tokens + (now - st.buckets[source].lastRefill) / 10_000_000);
            Passed(st, es, source) == Min(|Arrivals(es, source)|, held)
  {
    var times := Arrivals(es, source);
    BucketFollowsArrivals(st, es, source);
    assert forall i :: 0 <= i < |times| ==> times[i] in times;
    assert times == Burst(now, |times|);
    BurstIsExact(BucketOf(st, source, now), now, |times|);
  }
}
