/** The LRU set of recent packet ids that protects a router against replays. */
module ReplayCache {
  import opened Packets

  const CACHE_SIZE: nat := 512

  /** Ids from the most to the least recently put. */
  type Cache = seq<PacketId>

  function Without(cache: Cache, id: PacketId): (r: Cache)
    ensures |r| <= |cache|
    ensures id !in r
    ensures forall x :: x in r <==> x in cache && x != id
  {
    if cache == [] then []
    else if cache[0] == id then Without(cache[1..], id)
    else [cache[0]] + Without(cache[1..], id)
  }

  /** Puts an id at the front and evicts the least recent one when the set is full. */
  function Put(cache: Cache, id: PacketId): (r: Cache)
    ensures |r| <= 512
  {
    var all := [id] + Without(cache, id);
    if |all| <= CACHE_SIZE then all else all[..CACHE_SIZE]
  }

  ghost predicate NoDup<T>(s: seq<T>) {
    forall i, j :: 0 <= i < j < |s| ==> s[i] != s[j]
  }

  lemma {:induction false} NoDupFits<T>(s: seq<T>, t: set<T>)
    requires NoDup(s) && forall x :: x in s ==> x in t
    ensures |s| <= |t|
  {
    if s != [] {
      assert forall x :: x in s[1..] ==> x in s;
      NoDupFits(s[1..], t - {s[0]});
    }
  }

  lemma {:induction false} WithoutKeepsOrder(cache: Cache, id: PacketId)
    requires NoDup(cache)
    ensures NoDup(Without(cache, id))
    ensures id !in cache ==> Without(cache, id) == cache
    ensures id in cache ==> |Without(cache, id)| == |cache| - 1
  {
    if cache != [] {
      assert NoDup(cache[1..]);
      WithoutKeepsOrder(cache[1..], id);
      assert cache == [cache[0]] + cache[1..];
      if cache[0] == id {
        assert id !in cache[1..];
      } else {
        NoDupCons(cache[0], Without(cache[1..], id));
      }
    }
  }

  lemma NoDupCons<T>(x: T, s: seq<T>)
    requires NoDup(s) && x !in s
    ensures NoDup([x] + s)
  {}

  lemma NoDupPrefix<T>(s: seq<T>, k: nat)
    requires NoDup(s) && k <= |s|
    ensures NoDup(s[..k])
  {}

  /** A put of a new id into a set that is not full loses nothing. */
  lemma PutKeepsAll(cache: Cache, id: PacketId)
    requires NoDup(cache) && id !in cache && |cache| < CACHE_SIZE
    ensures NoDup(Put(cache, id)) && |Put(cache, id)| == |cache| + 1
    ensures forall x :: x in Put(cache, id) <==> x == id || x in cache
  {
    WithoutKeepsOrder(cache, id);
    assert Put(cache, id) == [id] + cache;
  }

  class LruCache {
    var entries: Cache

    constructor ()
      ensures entries == []
    {
      entries := [];
    }

    /** Moves or inserts `id` at the front, found by a scan of the entries. */
    method PutId(id: PacketId)
      modifies this
      ensures entries == Put(old(entries), id)
    {
      var kept: Cache := [];
      var i := 0;
      while i < |entries|
        invariant 0 <= i <= |entries|
        invariant entries == old(entries)
        invariant kept + Without(entries[i..], id) == Without(entries, id)
      {
        assert entries[i..][1..] == entries[i + 1..];
        if entries[i] != id {
          assert (kept + [entries[i]]) + Without(entries[i + 1..], id) == kept + Without(entries[i..], id);
          kept := kept + [entries[i]];
        }
        i := i + 1;
      }
      assert kept == Without(entries, id);
      entries := [id] + kept;
      if |entries| > CACHE_SIZE {
        entries := entries[..CACHE_SIZE];
      }
    }

    method Contains(id: PacketId) returns (r: bool)
      ensures r <==> id in entries
    {
      r := false;
      for i := 0 to |entries|
        invariant r <==> id in entries[..i]
      {
        assert entries[..i + 1] == entries[..i] + [entries[i]];
        if entries[i] == id {
          r := true;
        }
      }
      assert entries[..|entries|] == entries;
    }
  }

  // ---- the cache against its history ----------------------------------------------------

  /** The cache after putting a list of ids, oldest first. */
  function AfterPuts(puts: seq<PacketId>): Cache {
    if puts == [] then [] else Put(AfterPuts(puts[..|puts| - 1]), puts[|puts| - 1])
  }

  ghost function Ids(s: seq<PacketId>): set<PacketId> { set x | x in s }

  /** The ids put after the last put of `id`. */
  function Since(puts: seq<PacketId>, id: PacketId): (r: seq<PacketId>)
    ensures |r| <= |puts|
  {
    if puts == [] || puts[|puts| - 1] == id then []
    else Since(puts[..|puts| - 1], id) + [puts[|puts| - 1]]
  }

  /** All ids by recency of their last put, without any bound. */
  function Recency(puts: seq<PacketId>): seq<PacketId> {
    if puts == [] then [] else [puts[|puts| - 1]] + Without(Recency(puts[..|puts| - 1]), puts[|puts| - 1])
  }

  function Take<T>(s: seq<T>, n: nat): seq<T> { if |s| <= n then s else s[..n] }

  lemma {:induction false} RecencyHasAll(puts: seq<PacketId>)
    ensures NoDup(Recency(puts))
    ensures forall x :: x in Recency(puts) <==> x in puts
  {
    if puts != [] {
      var front, id := puts[..|puts| - 1], puts[|puts| - 1];
      assert puts == front + [id];
      RecencyHasAll(front);
      WithoutKeepsOrder(Recency(front), id);
    }
  }

  lemma {:induction false} WithoutOfTake(s: seq<PacketId>, id: PacketId, n: nat)
    requires NoDup(s)
    ensures Take([id] + Without(s, id), n + 1) == Take([id] + Without(Take(s, n + 1), id), n + 1)
  {
    TakeWithout(s, id, n);
    var long, short := Without(s, id), Without(Take(s, n + 1), id);
    TakeCons(id, long, n + 1);
    TakeCons(id, short, n + 1);
  }

  lemma TakeOfAbsent(t: seq<PacketId>, id: PacketId, n: nat)
    requires NoDup(t) && id !in t
    ensures Without(t, id) == t && Without(Take(t, n), id) == Take(t, n)
  {
    WithoutKeepsOrder(t, id);
    assert NoDup(Take(t, n));
    WithoutKeepsOrder(Take(t, n), id);
  }

  lemma TakeCons<T>(x: T, s: seq<T>, n: nat)
    requires n > 0
    ensures Take([x] + s, n) == [x] + Take(s, n - 1)
  {}

  lemma WithoutCons(x: PacketId, s: seq<PacketId>, id: PacketId)
    ensures Without([x] + s, id) == if x == id then Without(s, id) else [x] + Without(s, id)
  {
    assert ([x] + s)[1..] == s;
  }

  lemma {:induction false} TakeWithout(s: seq<PacketId>, id: PacketId, n: nat)
    requires NoDup(s)
    ensures Take(Without(s, id), n) == Take(Without(Take(s, n + 1), id), n)
  {
    if |s| > n + 1 {
      var x, t := s[0], s[1..];
      assert s == [x] + t && NoDup(t);
      TakeCons(x, t, n + 1);
      WithoutCons(x, t, id);
      WithoutCons(x, Take(t, n), id);
      if x == id {
        TakeOfAbsent(t, id, n);
      } else if n > 0 {
        TakeWithout(t, id, n - 1);
        TakeCons(x, Without(t, id), n);
        TakeCons(x, Without(Take(t, n), id), n);
      }
    }
  }

  /** The bounded set is exactly the 512 most recent of the unbounded recency list. */
  lemma {:induction false} CacheIsRecentPrefix(puts: seq<PacketId>)
    ensures AfterPuts(puts) == Take(Recency(puts), 512)
  {
    if puts != [] {
      var front, id := puts[..|puts| - 1], puts[|puts| - 1];
      CacheIsRecentPrefix(front);
      RecencyHasAll(front);
      WithoutOfTake(Recency(front), id, CACHE_SIZE - 1);
    }
  }

  /** Where an id stands in the recency list: behind exactly the distinct ids put since its last put. */
  lemma {:induction false} RecencyPosition(puts: seq<PacketId>, id: PacketId)
    requires id in puts
    ensures id !in Since(puts, id)
    ensures var k := |Ids(Since(puts, id))|;
            k < |Recency(puts)| && Recency(puts)[k] == id && Ids(Recency(puts)[..k]) == Ids(Since(puts, id))
  {
    var front, last := puts[..|puts| - 1], puts[|puts| - 1];
    assert puts == front + [last];
    if last == id {
      assert Ids([]) == {};
      assert Recency(puts)[..0] == [];
    } else {
      RecencyPosition(front, id);
      RecencyHasAll(front);
      IdsOfMore(Since(front, id), last);
      PushPast(Recency(front), |Ids(Since(front, id))|, last);
    }
  }

  lemma IdsOfMore(s: seq<PacketId>, x: PacketId)
    ensures Ids(s + [x]) == Ids(s) + {x} && |Ids(s + [x])| == if x in Ids(s) then |Ids(s)| else |Ids(s)| + 1
  {
    if x in Ids(s) {
      assert Ids(s) + {x} == Ids(s);
    }
    assert Ids(s + [x]) == Ids(s) + {x};
  }

  /** Moving `last` to the front, seen from position `k` that holds another id. */
  lemma PushPast(s: seq<PacketId>, k: nat, last: PacketId)
    requires NoDup(s) && k < |s| && s[k] != last
    ensures var next := [last] + Without(s, last); var k' := if last in Ids(s[..k]) then k else k + 1;
            k' < |next| && next[k'] == s[k] && Ids(next[..k']) == Ids(s[..k]) + {last}
  {
    NoDupPrefix(s, k);
    WithoutKeepsOrder(s[..k], last);
    WithoutOfConcat(s[..k], s[k..], last);
    assert s[..k] + s[k..] == s;
    var head, tail := Without(s[..k], last), Without(s[k..], last);
    assert tail[0] == s[k];
    FrontPart(last, head, tail);
    assert Ids([last] + head) == Ids(s[..k]) + {last};
  }

  lemma FrontPart(x: PacketId, head: seq<PacketId>, tail: seq<PacketId>)
    requires tail != []
    ensures var all := [x] + (head + tail); all[..1 + |head|] == [x] + head && all[1 + |head|] == tail[0]
  {}

  lemma {:induction false} WithoutOfConcat(a: seq<PacketId>, b: seq<PacketId>, id: PacketId)
    ensures Without(a + b, id) == Without(a, id) + Without(b, id)
  {
    if a == [] {
      assert a + b == b;
    } else {
      assert (a + b)[1..] == a[1..] + b;
      WithoutOfConcat(a[1..], b, id);
    }
  }

  /**
   * After any list of puts an id is in the cache exactly when it was put and fewer than 512 distinct other
   * ids have been put since its last put.
   */
  lemma CacheMatchesHistory(puts: seq<PacketId>, id: PacketId)
    ensures id in AfterPuts(puts) <==> id in puts && |Ids(Since(puts, id))| < 512
  {
    CacheIsRecentPrefix(puts);
    RecencyHasAll(puts);
    if id in puts {
      RecencyPosition(puts, id);
      var k := |Ids(Since(puts, id))|;
      var r := Recency(puts);
      AtOnePlace(r, id, k, CACHE_SIZE);
    }
  }

  lemma AtOnePlace(s: seq<PacketId>, id: PacketId, k: nat, n: nat)
    requires NoDup(s) && k < |s| && s[k] == id
    ensures id in Take(s, n) <==> k < n
  {
    if k < n {
      assert Take(s, n)[k] == id;
    }
  }
}
