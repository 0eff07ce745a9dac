/** Epidemic sync: the fingerprint request's bytes, and what two nodes owe each other. */
module Sync {
  import opened Bytes
  import opened Packets

  type Fingerprint = Bytes16

  /** The local fingerprints the peer does not list, in local order and with local duplicates. */
  function Missing(local: seq<Fingerprint>, peer: seq<Fingerprint>): seq<Fingerprint> {
    if local == [] then []
    else (if local[0] in peer then [] else [local[0]]) + Missing(local[1..], peer)
  }

  method ComputeMissingForPeer(local: seq<Fingerprint>, peer: seq<Fingerprint>) returns (missing: seq<Fingerprint>)
    ensures missing == Missing(local, peer)
  {
    var peerSet: set<Fingerprint> := {};
    for i := 0 to |peer|
      invariant forall x :: x in peerSet <==> x in peer[..i]
    {
      assert peer[..i + 1] == peer[..i] + [peer[i]];
      peerSet := peerSet + {peer[i]};
    }
    assert peer[..|peer|] == peer;
    missing := [];
    for i := 0 to |local|
      invariant missing + Missing(local[i..], peer) == Missing(local, peer)
    {
      assert local[i..][0] == local[i] && local[i..][1..] == local[i + 1..];
      if local[i] !in peerSet {
        assert missing + ([local[i]] + Missing(local[i + 1..], peer)) == (missing + [local[i]]) + Missing(local[i + 1..], peer);
        missing := missing + [local[i]];
      } else {
        assert Missing(local[i..], peer) == Missing(local[i + 1..], peer);
      }
    }
  }

  /** The positions, from a given one on, whose fingerprints the peer lacks. */
  function Lacking(local: seq<Fingerprint>, peer: seq<Fingerprint>, from: nat): (at: seq<nat>)
    requires from <= |local|
    ensures forall i :: 0 <= i < |at| ==> from <= at[i] < |local|
    ensures forall i, j :: 0 <= i < j < |at| ==> at[i] < at[j]
    ensures forall k: nat :: from <= k < |local| ==> (k in at <==> local[k] !in peer)
    decreases |local| - from
  {
    if from == |local| then []
    else (if local[from] in peer then [] else [from]) + Lacking(local, peer, from + 1)
  }

  lemma {:induction false} MissingFrom(local: seq<Fingerprint>, peer: seq<Fingerprint>, from: nat)
    requires from <= |local|
    ensures var at := Lacking(local, peer, from);
            |Missing(local[from..], peer)| == |at|
            && forall i :: 0 <= i < |at| ==> Missing(local[from..], peer)[i] == local[at[i]]
    decreases |local| - from
  {
    if from < |local| {
      MissingFrom(local, peer, from + 1);
      var rest, at := Missing(local[from + 1..], peer), Lacking(local, peer, from + 1);
      MissingHead(local, peer, from);
      if local[from] in peer {
        assert Lacking(local, peer, from) == at;
      } else {
        assert Lacking(local, peer, from) == [from] + at;
      }
    }
  }

  lemma MissingHead(local: seq<Fingerprint>, peer: seq<Fingerprint>, from: nat)
    requires from < |local|
    ensures Missing(local[from..], peer)
         == (if local[from] in peer then [] else [local[from]]) + Missing(local[from + 1..], peer)
  {
    assert local[from..][1..] == local[from + 1..];
  }

  /** The selection keeps exactly the positions the peer lacks, in increasing order. */
  lemma MissingPositions(local: seq<Fingerprint>, peer: seq<Fingerprint>) returns (at: seq<nat>)
    ensures |at| == |Missing(local, peer)|
    ensures forall i :: 0 <= i < |at| ==> at[i] < |local| && Missing(local, peer)[i] == local[at[i]]
    ensures forall i, j :: 0 <= i < j < |at| ==> at[i] < at[j]
    ensures forall k: nat :: k < |local| ==> (k in at <==> local[k] !in peer)
  {
    at := Lacking(local, peer, 0);
    MissingFrom(local, peer, 0);
    assert local[0..] == local;
  }

  function Elements(s: seq<Fingerprint>): set<Fingerprint> { set x | x in s }

  lemma MissingElements(local: seq<Fingerprint>, peer: seq<Fingerprint>)
    ensures Elements(Missing(local, peer)) == Elements(local) - Elements(peer)
  {
    var at := MissingPositions(local, peer);
    forall x ensures x in Missing(local, peer) <==> x in local && x !in peer {
      if x in local && x !in peer {
        var k :| 0 <= k < |local| && local[k] == x;
        var i :| 0 <= i < |at| && at[i] == k;
        assert Missing(local, peer)[i] == x;
      }
    }
  }

  /** Two nodes that each add what the other selects for them end with the same fingerprints: the union. */
  lemma Reconciled(a: seq<Fingerprint>, b: seq<Fingerprint>)
    ensures Elements(a + Missing(b, a)) == Elements(b + Missing(a, b)) == Elements(a) + Elements(b)
    ensures Missing(a + Missing(b, a), b + Missing(a, b)) == []
  {
    MissingElements(a, b);
    MissingElements(b, a);
    var a', b' := a + Missing(b, a), b + Missing(a, b);
    assert Elements(a') == Elements(a) + Elements(Missing(b, a));
    assert Elements(b') == Elements(b) + Elements(Missing(a, b));
    MissingElements(a', b');
    NoElements(Missing(a', b'));
  }

  lemma NoElements(s: seq<Fingerprint>)
    ensures Elements(s) == {} <==> s == []
  {
    if s != [] {
      assert s[0] in Elements(s);
    }
  }

  // ---- the request payload -----------------------------------------------------------------

  const FP_SIZE: nat := 16
  const PREFIX: nat := 36

  function Flatten(fps: seq<Fingerprint>): Bytes {
    if fps == [] then [] else fps[0] + Flatten(fps[1..])
  }

  /** Node id, the list's length cut to 32 bits, and the fingerprints. */
  function BuildRequest(me: NodeId, fps: seq<Fingerprint>): Bytes {
    me + Le(|fps|, 4) + Flatten(fps)
  }

  function Chunks(data: Bytes, count: nat): seq<Fingerprint>
    requires |data| >= FP_SIZE * count
  {
    if count == 0 then [] else [data[..16]] + Chunks(data[16..], count - 1)
  }

  function ParseRequest(data: Bytes): Option<(NodeId, seq<Fingerprint>)> {
    if |data| < PREFIX then None
    else
      var count := FromLe(data[32..36]);
      if |data| < PREFIX + count * FP_SIZE then None
      else Some((data[..32], Chunks(data[36..], count)))
  }

  lemma {:induction false} FlattenLength(fps: seq<Fingerprint>)
    ensures |Flatten(fps)| == FP_SIZE * |fps|
  {
    if fps != [] { FlattenLength(fps[1..]); }
  }

  lemma {:induction false} ChunksOfFlatten(fps: seq<Fingerprint>, count: nat)
    requires count <= |fps|
    ensures |Flatten(fps)| >= FP_SIZE * count && Chunks(Flatten(fps), count) == fps[..count]
  {
    FlattenLength(fps);
    if count > 0 {
      ChunksOfFlatten(fps[1..], count - 1);
      assert Flatten(fps)[..16] == fps[0] && Flatten(fps)[16..] == Flatten(fps[1..]);
      assert fps[..count] == [fps[0]] + fps[1..][..count - 1];
    }
  }

  lemma {:induction false} FlattenOfChunks(data: Bytes, count: nat)
    requires |data| >= FP_SIZE * count
    ensures |Chunks(data, count)| == count && Flatten(Chunks(data, count)) == data[..FP_SIZE * count]
  {
    if count > 0 {
      FlattenOfChunks(data[16..], count - 1);
      var rest := Chunks(data[16..], count - 1);
      assert ([data[..16]] + rest)[1..] == rest;
      assert data[..16] + data[16..][..FP_SIZE * (count - 1)] == data[..FP_SIZE * count];
    }
  }

  lemma {:induction false} ChunkAt(data: Bytes, count: nat, i: nat)
    requires |data| >= FP_SIZE * count && i < count
    ensures |Chunks(data, count)| == count && Chunks(data, count)[i] == data[FP_SIZE * i..FP_SIZE * i + 16]
  {
    FlattenOfChunks(data, count);
    if i > 0 {
      ChunkAt(data[16..], count - 1, i - 1);
    }
  }

  /**
   * Parsing a built request gives back the node id and, of the list, its first |fps| mod 2^32 entries: so
   * the whole list exactly when it is shorter than 2^32.
   */
  lemma ParseOfBuild(me: NodeId, fps: seq<Fingerprint>)
    ensures ParseRequest(BuildRequest(me, fps)) == Some((me, fps[..|fps| % 4294967296]))
    ensures ParseRequest(BuildRequest(me, fps)) == Some((me, fps)) <==> |fps| < 4294967296
  {
    var data, count := BuildRequest(me, fps), |fps| % 4294967296;
    FromLeOfLe(|fps|, 4);
    SpanValues();
    assert data[..32] == me && data[32..36] == Le(|fps|, 4) && data[36..] == Flatten(fps);
    FlattenLength(fps);
    ChunksOfFlatten(fps, count);
    assert |fps| < 4294967296 ==> fps[..count] == fps;
  }

  /** Node id, the low 32 bits of the number of entries, and the entries one behind the other. */
  lemma RequestLayout(me: NodeId, fps: seq<Fingerprint>, i: nat)
    requires i < |fps|
    ensures var data := BuildRequest(me, fps);
            && |data| == 36 + 16 * |fps| && data[..32] == me && FromLe(data[32..36]) == |fps| % 4294967296
            && data[36 + 16 * i..52 + 16 * i] == fps[i]
  {
    var data := BuildRequest(me, fps);
    FlattenLength(fps);
    FromLeOfLe(|fps|, 4);
    SpanValues();
    assert data[32..36] == Le(|fps|, 4) && data[36..] == Flatten(fps);
    ChunksOfFlatten(fps, |fps|);
    ChunkAt(data[36..], |fps|, i);
    assert data[36..][16 * i..16 * i + 16] == data[36 + 16 * i..52 + 16 * i];
    assert fps[..|fps|][i] == fps[i];
  }

  /** Re-building what was parsed gives a prefix of the input: nothing was invented, only a tail ignored. */
  lemma BuildOfParse(data: Bytes)
    requires ParseRequest(data).Some?
    ensures var (me, fps) := ParseRequest(data).value;
            PREFIX + FP_SIZE * |fps| <= |data| && BuildRequest(me, fps) == data[..PREFIX + FP_SIZE * |fps|]
  {
    var count := FromLe(data[32..36]);
    LeOfFromLe(data[32..36]);
    FlattenOfChunks(data[36..], count);
    assert data[..32] + data[32..36] + data[36..][..FP_SIZE * count] == data[..PREFIX + FP_SIZE * count];
  }

  method BuildSyncReqPayload(me: NodeId, fps: seq<Fingerprint>) returns (payload: Bytes)
    ensures payload == BuildRequest(me, fps)
  {
    payload := me;
    payload := payload + Le(|fps|, 4);
    for i := 0 to |fps|
      invariant payload + Flatten(fps[i..]) == BuildRequest(me, fps)
    {
      assert fps[i..][0] == fps[i] && fps[i..][1..] == fps[i + 1..];
      assert payload + (fps[i] + Flatten(fps[i + 1..])) == (payload + fps[i]) + Flatten(fps[i + 1..]);
      payload := payload + fps[i];
    }
  }

  method ParseSyncReqPayload(data: Bytes) returns (r: Option<(NodeId, seq<Fingerprint>)>)
    ensures r == ParseRequest(data)
  {
    if |data| < PREFIX {
      return None;
    }
    var count := FromLe(data[32..36]);
    if |data| < PREFIX + count * FP_SIZE {
      return None;
    }
    var fps: seq<Fingerprint> := [];
    ghost var all := Chunks(data[36..], count);
    FlattenOfChunks(data[36..], count);
    for i := 0 to count
      invariant fps == all[..i]
    {
      var start := 36 + i * FP_SIZE;
      ChunkAt(data[36..], count, i);
      assert data[start..start + 16] == data[36..][FP_SIZE * i..FP_SIZE * i + 16];
      fps := fps + [data[start..start + 16]];
    }
    assert all[..count] == all;
    return Some((data[..32], fps));
  }
}
