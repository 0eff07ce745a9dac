/**
 * The parts composed: what a sender's command seals is what the receiver's command reads, across any mesh,
 * any relays and any bytes on the wire.
 */
module EndToEnd {
  import opened Bytes
  import opened Packets
  import opened Framing
  import opened Crypto
  import opened Routing
  import opened Transport
  import opened Mesh
  import opened Paths
  import opened Provenance
  import opened Termination
  import opened Projection
  import opened Coverage
  import opened FloodCost
  import opened Keys
  import opened SessionStore
  import opened Commands
  import opened Sessions
  import opened SessionRuns

  /** Which seal the ciphertext and tag bytes on the wire stand for. Bytes nobody sealed are not in the book. */
  type Codebook = map<(Bytes, Bytes16), Cipher>

  function Meaning(book: Codebook, ciphertext: Bytes, tag: Bytes16): Cipher {
    if (ciphertext, tag) in book then book[(ciphertext, tag)] else Noise(ciphertext + tag)
  }

  /** The packet `send_dm` or `send_file` broadcasts for a parcel. */
  function WirePacket(key: MacKey, me: NodeId, p: Parcel, ciphertext: Bytes, tag: Bytes16): ClampPacket {
    ClampPacket(
      ClampHeader(MAGIC, PROTOCOL_VERSION, TypeFor(p.kind), TTL_MAX, p.packetId),
      HopAuth(0, HopMac(key, p.packetId, 0, me)), p.nonce, ciphertext, tag)
  }

  /** The parcel a receiving command is called with, from what the transport handed up. */
  function ParcelOf(book: Codebook, a: AppPacket): Parcel {
    Parcel(if a.packetType == File then FileKind else DmKind, a.packetId, a.nonce, Meaning(book, a.ciphertext, a.aeadTag))
  }

  /** A sent packet is one the network accepts as originated, as long as it fits in a frame. */
  lemma SentIsOriginated(m: Topology, me: NodeId, p: Parcel, ciphertext: Bytes, tag: Bytes16)
    requires |ciphertext| <= MAX_CIPHERTEXT
    ensures Originated(m, me, WirePacket(m.key, me, p, ciphertext, tag))
  {}

  /**
   * An attachment's packet can be sent exactly if its data leaves room for the other fields: sealing keeps the
   * length of the printed record, which is the base64 text of the data and those fields.
   */
  lemma AttachmentFitsIff(key: MacKey, me: PrivateKey, db: Db, to: string, r: Request, e: Chance, ciphertext: Bytes, tag: Bytes16)
    requires ValidChance(e) && r.Attachment? && Send(me, db, to, r, e).1.Ok?
    requires var p := Send(me, db, to, r, e).1.value;
             p.cipher.Sealed? && p.cipher.plain.FilePlain?
             && |ciphertext| == OtherFields(p.cipher.plain.file) + Base64Length(|p.cipher.plain.file.data|)
    ensures var p := Send(me, db, to, r, e).1.value; var other := OtherFields(p.cipher.plain.file);
            && (Sendable(WirePacket(key, PublicKeyOf(me), p, ciphertext, tag)) <==>
                other <= MAX_CIPHERTEXT && |r.data| <= 3 * ((MAX_CIPHERTEXT - other) / 4))
            && (|r.data| > 49104 ==> !Sendable(WirePacket(key, PublicKeyOf(me), p, ciphertext, tag)))
  {
    var p := Send(me, db, to, r, e).1.value;
    SendMoves(me, db, to, r, e);
    assert p.cipher.plain.file.data == r.data;
    FileFitsIff(WirePacket(key, PublicKeyOf(me), p, ciphertext, tag), |r.data|, OtherFields(p.cipher.plain.file));
  }

  /** The header the sender authenticates is the original packet's, and the receiver rebuilds the same from the id alone. */
  lemma AadIsOriginalHeader(key: MacKey, me: NodeId, p: Parcel, ciphertext: Bytes, tag: Bytes16)
    ensures Aad(p.kind, p.packetId) == HeaderBytes(WirePacket(key, me, p, ciphertext, tag).header)
  {}

  /** A parcel sealed by `a` for `b` opens at `b` for `a`'s key at the counter it was sealed with. */
  lemma SentParcelIsSealedBy(a: PrivateKey, db: Db, b: PrivateKey, r: Request, e: Chance, clock: nat)
    requires ValidChance(e) && Send(a, db, NameOf(b.owner), r, e).1.Ok?
    requires NonceTimely(GenerateNonce(e.now, e.nonceTail), clock)
    ensures var p, counter := Send(a, db, NameOf(b.owner), r, e).1.value, SessionAt(a, db, b.owner).msgCounter;
            && SealedBy(b, a.owner, counter, p, clock)
            && p.cipher.plain == PlainFor(r, a.owner, NameOf(b.owner), e.now, DeriveSessionId({a.owner, b.owner}), counter)
            && p.packetId == e.packetId && p.kind == KindOf(r)
  {
    NameRoundTrip(b.owner);
    SendMoves(a, db, NameOf(b.owner), r, e);
  }

  function SessionAt(me: PrivateKey, db: Db, peer: NodeId): Session {
    NameRoundTrip(peer);
    View(me, db, NameOf(peer))
  }

  /** What was originated, in the terms of the sender's command. */
  ghost predicate SentOn(net: Net, id: PacketId, book: Codebook, key: MacKey, a: PrivateKey, db: Db, b: PrivateKey, r: Request, e: Chance) {
    && id in net.origins && net.origins[id].node == a.owner
    && ValidChance(e) && Send(a, db, NameOf(b.owner), r, e).1.Ok?
    && exists ciphertext: Bytes, tag: Bytes16 ::
         && net.origins[id].packet == WirePacket(key, a.owner, Send(a, db, NameOf(b.owner), r, e).1.value, ciphertext, tag)
         && Meaning(book, ciphertext, tag) == Send(a, db, NameOf(b.owner), r, e).1.value.cipher
  }

  /**
   * In any run, over any route, with any number of ids and whatever caches forget: a packet handed up under a sent
   * id is the parcel the sender made.
   */
  lemma HandedIsSent(m: Topology, es: seq<Event>, id: PacketId, book: Codebook,
                     a: PrivateKey, db: Db, b: PrivateKey, r: Request, e: Chance, entry: Handed)
    requires ValidTopology(m) && IsRun(m, es) && SentOn(NetAfter(m, es), id, book, m.key, a, db, b, r, e)
    requires entry in NetAfter(m, es).inbox && entry.app.packetId == id
    ensures ParcelOf(book, entry.app) == Send(a, db, NameOf(b.owner), r, e).1.value
  {
    var net := NetAfter(m, es);
    HandedIsOriginal(m, es, entry);
    var parcel := Send(a, db, NameOf(b.owner), r, e).1.value;
    var ciphertext: Bytes, tag: Bytes16 :|
      net.origins[id].packet == WirePacket(m.key, a.owner, parcel, ciphertext, tag) && Meaning(book, ciphertext, tag) == parcel.cipher;
    assert SameContents(entry.app, net.origins[id].packet);
  }

  /** Whenever a flood reaches the recipient and no node forgets its id meanwhile, exactly one packet is handed up. */
  lemma ParcelArrives(m: Topology, es: seq<Event>, id: PacketId, book: Codebook, a: PrivateKey, db: Db, b: PrivateKey, r: Request, e: Chance)
    returns (entry: Handed)
    requires ValidTopology(m) && IsRun(m, es) && Remembered(m, es, id)
    requires SentOn(NetAfter(m, es), id, book, m.key, a, db, b, r, e)
    requires a != b && Reached(NetAfter(m, es), b.owner, id)
    ensures HandedTo(NetAfter(m, es).inbox, b.owner, id) == {entry} && NetAfter(m, es).inbox[entry] == 1
    ensures ParcelOf(book, entry.app) == Send(a, db, NameOf(b.owner), r, e).1.value
  {
    HandedOnce(m, es, b.owner, id);
    var entries := HandedTo(NetAfter(m, es).inbox, b.owner, id);
    entry :| entry in entries;
    OnlyOne(entries, entry);
    HandedIsSent(m, es, id, book, a, db, b, r, e, entry);
  }

  lemma OnlyOne<T>(s: set<T>, x: T)
    requires x in s && |s| <= 1
    ensures s == {x}
  {
    assert |s - {x}| == |s| - 1;
  }

  /** What opens of the parcel a send made: the record sent, within 300 seconds of its nonce and inside the window. */
  lemma SentParcelOpensIff(a: PrivateKey, dbA: Db, b: PrivateKey, dbB: Db, peers: seq<string>, r: Request, e: Chance, clock: nat)
    requires ValidChance(e) && Send(a, dbA, NameOf(b.owner), r, e).1.Ok?
    requires DistinctPeers(b, peers) && NameOf(a.owner) in peers
    requires SessionAt(a, dbA, b.owner).msgCounter < U64 && Bounded(b, dbB, U64 - WINDOW_AHEAD)
    ensures var counter, hint := SessionAt(a, dbA, b.owner).msgCounter, SessionAt(b, dbB, a.owner).recvHint;
            var sent := PlainFor(r, a.owner, NameOf(b.owner), e.now, DeriveSessionId({a.owner, b.owner}), counter);
            Receive(b, dbB, peers, Send(a, dbA, NameOf(b.owner), r, e).1.value, clock).1 ==
            if NonceTimely(GenerateNonce(e.now, e.nonceTail), clock) && hint <= counter + 5 && counter < hint + 60
            then Some(Opened(NameOf(a.owner), a.owner, counter, sent)) else None
  {
    var p := Send(a, dbA, NameOf(b.owner), r, e).1.value;
    NameRoundTrip(a.owner);
    if NonceTimely(GenerateNonce(e.now, e.nonceTail), clock) {
      SentParcelIsSealedBy(a, dbA, b, r, e, clock);
      WindowIsExact(b, dbB, peers, NameOf(a.owner), SessionAt(a, dbA, b.owner).msgCounter, p, clock);
    } else {
      SearchFinds(b, dbB, peers, p, clock);
    }
  }

  /**
   * End to end: the recipient's command, run on any packet that was handed up under the id, opens the message as
   * the sender's and yields exactly what was sent, if the clock is within 300 seconds of the nonce and the counter
   * in its window for the sender; and otherwise it finds nothing.
   */
  lemma MessageReadIsMessageSent(m: Topology, es: seq<Event>, id: PacketId, book: Codebook, a: PrivateKey, dbA: Db,
                                 b: PrivateKey, dbB: Db, peers: seq<string>, r: Request, e: Chance, entry: Handed, clock: nat)
    requires ValidTopology(m) && IsRun(m, es) && SentOn(NetAfter(m, es), id, book, m.key, a, dbA, b, r, e)
    requires entry in NetAfter(m, es).inbox && entry.app.packetId == id
    requires DistinctPeers(b, peers) && NameOf(a.owner) in peers
    requires SessionAt(a, dbA, b.owner).msgCounter < U64 && Bounded(b, dbB, U64 - WINDOW_AHEAD)
    ensures var counter, hint := SessionAt(a, dbA, b.owner).msgCounter, SessionAt(b, dbB, a.owner).recvHint;
            var sent := PlainFor(r, a.owner, NameOf(b.owner), e.now, DeriveSessionId({a.owner, b.owner}), counter);
            Receive(b, dbB, peers, ParcelOf(book, entry.app), clock).1 ==
            if NonceTimely(GenerateNonce(e.now, e.nonceTail), clock) && hint <= counter + 5 && counter < hint + 60
            then Some(Opened(NameOf(a.owner), a.owner, counter, sent)) else None
  {
    HandedIsSent(m, es, id, book, a, dbA, b, r, e, entry);
    SentParcelOpensIff(a, dbA, b, dbB, peers, r, e, clock);
  }

  /** The sent text is the text of the record that is opened. */
  lemma TextIsKept(text: string, replyId: Option<string>, replyText: Option<string>, a: NodeId, to: string, now: nat, session: Bytes8, counter: nat)
    ensures var inner := PlainFor(Text(text, replyId, replyText), a, to, now, session, counter);
            inner.DmPlain? && inner.dm.text == text && inner.dm.senderId == NameOf(a)
  {}

  /**
   * In a connected network of at most nine nodes, once the flood of a message has settled without loss every
   * other node holds exactly one copy of it, and the recipient reads exactly the text that was sent.
   */
  lemma SmallMeshDelivers(m: Topology, es: seq<Event>, id: PacketId, book: Codebook,
                          a: PrivateKey, dbA: Db, b: PrivateKey, dbB: Db, peers: seq<string>,
                          text: string, replyId: Option<string>, replyText: Option<string>, e: Chance, clock: nat)
    returns (entry: Handed)
    requires ValidTopology(m) && Connected(m) && |m.nodes| <= 9 && IsRun(m, es) && Remembered(m, es, id)
    requires SentOn(NetAfter(m, es), id, book, m.key, a, dbA, b, Text(text, replyId, replyText), e)
    requires SettledWhole(NetAfter(m, es), id)
    requires a != b && b.owner in m.nodes
    requires DistinctPeers(b, peers) && NameOf(a.owner) in peers
    requires SessionAt(a, dbA, b.owner).msgCounter < U64 && Bounded(b, dbB, U64 - WINDOW_AHEAD)
    requires NonceTimely(GenerateNonce(e.now, e.nonceTail), clock)
    requires var counter, hint := SessionAt(a, dbA, b.owner).msgCounter, SessionAt(b, dbB, a.owner).recvHint;
             hint <= counter + 5 && counter < hint + 60
    ensures forall v :: v in m.nodes ==> Reached(NetAfter(m, es), v, id)
    ensures HandedTo(NetAfter(m, es).inbox, b.owner, id) == {entry}
    ensures var found := Receive(b, dbB, peers, ParcelOf(book, entry.app), clock).1;
            && found.Some? && found.value.peer == a.owner && found.value.plain.DmPlain?
            && found.value.plain.dm.text == text && found.value.plain.dm.senderId == NameOf(a.owner)
  {
    FloodCoverage(m, es, id);
    entry := ParcelArrives(m, es, id, book, a, dbA, b, Text(text, replyId, replyText), e);
    assert entry in HandedTo(NetAfter(m, es).inbox, b.owner, id);
    MessageReadIsMessageSent(m, es, id, book, a, dbA, b, dbB, peers, Text(text, replyId, replyText), e, entry, clock);
    TextIsKept(text, replyId, replyText, a.owner, NameOf(b.owner), e.now, DeriveSessionId({a.owner, b.owner}), SessionAt(a, dbA, b.owner).msgCounter);
  }

  lemma SendFloods(m: Topology, u: NodeId, p: ClampPacket) returns (es: seq<Event>)
    requires ValidTopology(m) && u in m.nodes && Originated(m, u, p)
    ensures [Originate(u, p)] <= es && IsRun(m, es) && NetAfter(m, es).flight == multiset{}
    ensures NetAfter(m, es).origins == map[p.header.packetId := Origin(u, p)] && SettledWhole(NetAfter(m, es), p.header.packetId)
    ensures Remembered(m, es, p.header.packetId)
  {
    FirstEvent(m, u, p);
    var start := [Originate(u, p)];
    assert NetAfter(m, start).origins == map[p.header.packetId := Origin(u, p)];
    assert |NetAfter(m, start).origins| == 1;
    es := Settles(m, start);
    FewIdsAreNotRefused(m, es, p.header.packetId);
    FewIdsAreRemembered(m, es, p.header.packetId);
  }

  /**
   * Such a run exists for every message: in a quiet connected network of at most nine nodes a send can be
   * followed by deliveries until nothing is left on the wire, and then the recipient reads the sent text.
   */
  lemma SomeRunDelivers(m: Topology, book: Codebook, a: PrivateKey, dbA: Db, b: PrivateKey, dbB: Db, peers: seq<string>,
                        text: string, replyId: Option<string>, replyText: Option<string>, e: Chance, clock: nat,
                        ciphertext: Bytes, tag: Bytes16)
    returns (es: seq<Event>, entry: Handed)
    requires ValidTopology(m) && Connected(m) && |m.nodes| <= 9 && a.owner in m.nodes && b.owner in m.nodes && a != b
    requires ValidChance(e) && CheckText(Text(text, replyId, replyText)).None? && |ciphertext| <= MAX_CIPHERTEXT
    requires var out := Send(a, dbA, NameOf(b.owner), Text(text, replyId, replyText), e).1;
             out.Ok? && Meaning(book, ciphertext, tag) == out.value.cipher
    requires DistinctPeers(b, peers) && NameOf(a.owner) in peers
    requires SessionAt(a, dbA, b.owner).msgCounter < U64 && Bounded(b, dbB, U64 - WINDOW_AHEAD)
    requires NonceTimely(GenerateNonce(e.now, e.nonceTail), clock)
    requires var counter, hint := SessionAt(a, dbA, b.owner).msgCounter, SessionAt(b, dbB, a.owner).recvHint;
             hint <= counter + 5 && counter < hint + 60
    ensures IsRun(m, es) && NetAfter(m, es).flight == multiset{}
    ensures var p := Send(a, dbA, NameOf(b.owner), Text(text, replyId, replyText), e).1.value;
            [Originate(a.owner, WirePacket(m.key, a.owner, p, ciphertext, tag))] <= es
    ensures HandedTo(NetAfter(m, es).inbox, b.owner, e.packetId) == {entry}
    ensures var found := Receive(b, dbB, peers, ParcelOf(book, entry.app), clock).1;
            found.Some? && found.value.peer == a.owner && found.value.plain.DmPlain? && found.value.plain.dm.text == text
  {
    var r := Text(text, replyId, replyText);
    var parcel := Send(a, dbA, NameOf(b.owner), r, e).1.value;
    SentParcelIsSealedBy(a, dbA, b, r, e, clock);
    var pkt := WirePacket(m.key, a.owner, parcel, ciphertext, tag);
    SentIsOriginated(m, a.owner, parcel, ciphertext, tag);
    es := SendFloods(m, a.owner, pkt);
    assert SentOn(NetAfter(m, es), e.packetId, book, m.key, a, dbA, b, r, e);
    entry := SmallMeshDelivers(m, es, e.packetId, book, a, dbA, b, dbB, peers, text, replyId, replyText, e, clock);
  }

  // ---- conversations ----------------------------------------------------------------------------

  /** The k-th operation of `a` sent to `b`, and the network took the packet in. */
  ghost predicate SentInRun(m: Topology, net: Net, book: Codebook, a: PrivateKey, dbA: Db, opsA: seq<Op>, k: nat, b: PrivateKey)
    requires ValidRun(opsA)
  {
    && k < |opsA| && opsA[k].SendOp? && opsA[k].to == NameOf(b.owner)
    && SentOn(net, opsA[k].chance.packetId, book, m.key, a, After(a, dbA, opsA[..k]), b, opsA[k].request, opsA[k].chance)
  }

  /** The j-th operation of `b` receives this packet, knowing `a` among its peers. */
  ghost predicate ReceivedInRun(book: Codebook, a: NodeId, b: PrivateKey, opsB: seq<Op>, j: nat, entry: Handed) {
    && j < |opsB| && opsB[j].ReceiveOp? && opsB[j].parcel == ParcelOf(book, entry.app)
    && DistinctPeers(b, opsB[j].peers) && NameOf(a) in opsB[j].peers
  }

  /**
   * A conversation: whatever else the sender and the recipient send, receive and read, with anyone, and in whatever
   * order packets come - a reception of what was handed up for a send opens exactly what that send sent, if the clock
   * is within 300 seconds of the nonce and the send's counter in the window around one above the largest counter
   * opened from the sender so far; and otherwise nothing.
   */
  lemma ConversationIsRead(m: Topology, es: seq<Event>, book: Codebook, a: PrivateKey, dbA: Db, opsA: seq<Op>, k: nat,
                           b: PrivateKey, dbB: Db, opsB: seq<Op>, j: nat, entry: Handed)
    requires ValidTopology(m) && IsRun(m, es) && ValidRun(opsA) && ValidRun(opsB)
    requires SentInRun(m, NetAfter(m, es), book, a, dbA, opsA, k, b)
    requires entry in NetAfter(m, es).inbox && entry.app.packetId == opsA[k].chance.packetId
    requires ReceivedInRun(book, a.owner, b, opsB, j, entry)
    requires Bounded(a, dbA, U64 - |opsA|) && Bounded(b, dbB, U64 - WINDOW_AHEAD - WINDOW_AHEAD * |opsB|)
    ensures NodeOf(NameOf(a.owner)).Some?
    ensures var counter, hint := SessionAt(a, After(a, dbA, opsA[..k]), b.owner).msgCounter, HintThen(b, dbB, opsB[..j], NameOf(a.owner));
            var now, tail := opsA[k].chance.now, opsA[k].chance.nonceTail;
            var sent := PlainFor(opsA[k].request, a.owner, NameOf(b.owner), now, DeriveSessionId({a.owner, b.owner}), counter);
            OpenedBy(b, After(b, dbB, opsB[..j]), opsB[j]) ==
            if NonceTimely(GenerateNonce(now, tail), opsB[j].clock) && hint <= counter + 5 && counter < hint + 60
            then [Opened(NameOf(a.owner), a.owner, counter, sent)] else []
  {
    NameRoundTrip(a.owner);
    NameRoundTrip(b.owner);
    CountersBounded(a, dbA, opsA[..k], NameOf(b.owner));
    BoundedAfter(b, dbB, opsB[..j], U64 - WINDOW_AHEAD);
    HintIsNextCounter(b, dbB, opsB[..j], NameOf(a.owner));
    MessageReadIsMessageSent(m, es, opsA[k].chance.packetId, book, a, After(a, dbA, opsA[..k]), b, After(b, dbB, opsB[..j]),
                             opsB[j].peers, opsA[k].request, opsA[k].chance, entry, opsB[j].clock);
  }
}
