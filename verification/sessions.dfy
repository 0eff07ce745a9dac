/**
 * What the session counters guarantee over any interleaving of sends, receptions and history reads: keys are
 * never reused, the receive window is exact, attribution is unique, and history reads agree.
 */
module Sessions {
  import opened Bytes
  import opened Packets
  import opened Crypto
  import opened Keys
  import opened SessionStore
  import opened Commands

  // ---- attempts -----------------------------------------------------------------------------

  /** A parcel opens for one peer and counter exactly if it was sealed with their key for this very packet. */
  ghost predicate SealedBy(me: PrivateKey, peer: NodeId, counter: nat, p: Parcel, clock: nat) {
    && p.cipher.Sealed? && p.cipher.key == DmKey(peer, PublicKeyOf(me), counter)
    && p.cipher.nonce == p.nonce && NonceTimely(p.nonce, clock)
    && p.cipher.aad == Aad(p.kind, p.packetId) && (if p.kind == DmKind then p.cipher.plain.DmPlain? else p.cipher.plain.FilePlain?)
  }

  lemma AttemptIff(me: PrivateKey, peer: NodeId, counter: nat, p: Parcel, clock: nat)
    ensures var a := Attempt(me, peer, DeriveSessionId(Ecdh(me, peer)), counter, p, clock);
            (a.Some? <==> SealedBy(me, peer, counter, p, clock)) && (a.Some? ==> a.value == p.cipher.plain)
  {
    BothEndsAgree(PrivateKey(peer), me, counter);
  }

  /** At most one pair of peer and counter opens a parcel, and none if the node sealed it itself for another. */
  lemma AttributionUnique(me: PrivateKey, p: Parcel, clock: nat, peer1: NodeId, c1: nat, peer2: NodeId, c2: nat)
    requires c1 < U64 && c2 < U64
    requires SealedBy(me, peer1, c1, p, clock) && SealedBy(me, peer2, c2, p, clock)
    ensures peer1 == peer2 && c1 == c2
  {
    DmKeyInjective(peer1, PublicKeyOf(me), c1, peer2, PublicKeyOf(me), c2);
  }

  lemma OwnParcelNeverOpens(me: PrivateKey, to: NodeId, sent: nat, p: Parcel, clock: nat, peer: NodeId, c: nat)
    requires sent < U64 && c < U64 && peer != PublicKeyOf(me)
    requires p.cipher.Sealed? && p.cipher.key == DmKey(PublicKeyOf(me), to, sent)
    ensures !SealedBy(me, peer, c, p, clock)
  {
    if SealedBy(me, peer, c, p, clock) {
      DmKeyInjective(PublicKeyOf(me), to, sent, peer, PublicKeyOf(me), c);
    }
  }

  // ---- session rows as seen through `GetOrCreate` ----------------------------------------------

  /** The row of a peer as the next call for that peer will find or make it. */
  function View(me: PrivateKey, db: Db, name: string): Session
    requires NodeOf(name).Some?
  {
    Row(db, name, Ecdh(me, NodeOf(name).value))
  }

  ghost predicate SameViews(me: PrivateKey, a: Db, b: Db) {
    forall name :: NodeOf(name).Some? ==> View(me, a, name) == View(me, b, name)
  }

  lemma GetOrCreateKeepsViews(me: PrivateKey, db: Db, name: string)
    requires NodeOf(name).Some?
    ensures var (db1, session, counter) := GetOrCreate(db, name, Ecdh(me, NodeOf(name).value));
            && SameViews(me, db, db1) && name in db1.sessions && db1.sessions[name] == View(me, db, name)
            && counter == View(me, db, name).msgCounter && db1.messages == db.messages
  {}

  /** Sending to a peer moves that peer's outgoing counter by one and nothing else; a refused send moves nothing. */
  lemma SendMoves(me: PrivateKey, db: Db, to: string, r: Request, e: Chance)
    requires ValidChance(e)
    ensures var (db', out) := Send(me, db, to, r, e);
            && (out.Ok? <==> CheckText(r).None? && NodeOf(to).Some?)
            && if out.Err? then db' == db
            else
              && NodeOf(to).Some? && to in db'.sessions
              && View(me, db', to) == View(me, db, to).(msgCounter := View(me, db, to).msgCounter + 1)
              && (forall name :: NodeOf(name).Some? && name != to ==> View(me, db', name) == View(me, db, name))
              && out.value.cipher.Sealed?
              && out.value.cipher.key == DmKey(PublicKeyOf(me), NodeOf(to).value, View(me, db, to).msgCounter)
  {
    if CheckText(r).None? && NodeOf(to).Some? {
      GetOrCreateKeepsViews(me, db, to);
      BothEndsAgree(me, PrivateKey(NodeOf(to).value), View(me, db, to).msgCounter);
    }
  }

  // ---- the search ---------------------------------------------------------------------------

  /** Some known peer's key at a counter inside that peer's window opens the parcel. */
  ghost predicate InWindow(me: PrivateKey, db: Db, name: string, c: nat) {
    NodeOf(name).Some? && (var hint := View(me, db, name).recvHint; hint <= c + 5 && c < hint + 60)
  }

  ghost predicate CanOpen(me: PrivateKey, db: Db, name: string, c: nat, p: Parcel, clock: nat) {
    InWindow(me, db, name, c) && SealedBy(me, NodeOf(name).value, c, p, clock)
  }

  /** Counters fit their eight bytes with room for the window. */
  ghost predicate Bounded(me: PrivateKey, db: Db, limit: int) {
    forall name :: NodeOf(name).Some? ==> View(me, db, name).msgCounter < limit && View(me, db, name).recvHint < limit
  }

  lemma SearchPeerFinds(me: PrivateKey, db: Db, name: string, p: Parcel, clock: nat)
    requires NodeOf(name).Some?
    ensures var (db1, found) := SearchPeer(me, db, name, NodeOf(name).value, p, clock);
            && SameViews(me, db, db1) && name in db1.sessions && db1.sessions[name] == View(me, db1, name)
            && db1.messages == db.messages
            && (found.Some? <==> exists c :: CanOpen(me, db, name, c, p, clock))
            && (found.Some? ==> found.value.name == name && found.value.peer == NodeOf(name).value
                                && CanOpen(me, db, name, found.value.counter, p, clock) && found.value.plain == p.cipher.plain)
  {
    var peer := NodeOf(name).value;
    GetOrCreateKeepsViews(me, db, name);
    forall c: nat
      ensures var a := Attempt(me, peer, DeriveSessionId(Ecdh(me, peer)), c, p, clock);
              (a.Some? <==> SealedBy(me, peer, c, p, clock)) && (a.Some? ==> a.value == p.cipher.plain)
    {
      AttemptIff(me, peer, c, p, clock);
    }
    var (db1, found) := SearchPeer(me, db, name, peer, p, clock);
    var hint := View(me, db, name).recvHint;
    if found.Some? {
      assert CanOpen(me, db, name, found.value.counter, p, clock);
    } else {
      assert FirstOpening(me, peer, DeriveSessionId(Ecdh(me, peer)), WindowStart(hint), WindowEnd(hint), p, clock).None?;
    }
  }

  /** The search finds something exactly if some known peer can have sealed the parcel inside its window. */
  lemma {:induction false} SearchFinds(me: PrivateKey, db: Db, peers: seq<string>, p: Parcel, clock: nat)
    ensures var (db1, found) := Search(me, db, peers, p, clock);
            && SameViews(me, db, db1) && db1.messages == db.messages
            && (found.Some? <==> exists i, c :: 0 <= i < |peers| && CanOpen(me, db, peers[i], c, p, clock))
            && (found.Some? ==> found.value.name in peers && NodeOf(found.value.name) == Some(found.value.peer)
                                && found.value.name in db1.sessions
                                && db1.sessions[found.value.name] == View(me, db1, found.value.name)
                                && CanOpen(me, db, found.value.name, found.value.counter, p, clock)
                                && found.value.plain == p.cipher.plain)
    decreases |peers|
  {
    if peers != [] {
      var rest := peers[1..];
      if NodeOf(peers[0]).None? {
        SearchFinds(me, db, rest, p, clock);
        Shift(me, db, peers, p, clock);
      } else {
        SearchPeerFinds(me, db, peers[0], p, clock);
        var (db1, found) := SearchPeer(me, db, peers[0], NodeOf(peers[0]).value, p, clock);
        if found.None? {
          SearchFinds(me, db1, rest, p, clock);
          Shift(me, db, peers, p, clock);
          assert forall name, c :: CanOpen(me, db1, name, c, p, clock) <==> CanOpen(me, db, name, c, p, clock);
        }
      }
    }
  }

  lemma Shift(me: PrivateKey, db: Db, peers: seq<string>, p: Parcel, clock: nat)
    requires peers != [] && !exists c :: CanOpen(me, db, peers[0], c, p, clock)
    ensures (exists i, c :: 0 <= i < |peers| && CanOpen(me, db, peers[i], c, p, clock)) <==>
            (exists i, c :: 0 <= i < |peers[1..]| && CanOpen(me, db, peers[1..][i], c, p, clock))
  {
    if i, c :| 0 <= i < |peers| && CanOpen(me, db, peers[i], c, p, clock) {
      assert peers[1..][i - 1] == peers[i];
    }
    if i, c :| 0 <= i < |peers[1..]| && CanOpen(me, db, peers[1..][i], c, p, clock) {
      assert peers[i + 1] == peers[1..][i];
    }
  }

  // ---- one reception --------------------------------------------------------------------------

  /** Known peers are different nodes, and the node itself is not among them. */
  ghost predicate DistinctPeers(me: PrivateKey, peers: seq<string>) {
    && (forall a, b :: a in peers && b in peers && NodeOf(a).Some? && NodeOf(a) == NodeOf(b) ==> a == b)
    && (forall a :: a in peers ==> NodeOf(a) != Some(PublicKeyOf(me)))
  }

  lemma BumpMoves(me: PrivateKey, db: Db, name: string, next: nat)
    requires NodeOf(name).Some? && name in db.sessions && db.sessions[name] == View(me, db, name)
    ensures var db' := BumpHint(db, name, next);
            && View(me, db', name) == View(me, db, name).(recvHint := Max(View(me, db, name).recvHint, next))
            && forall other :: NodeOf(other).Some? && other != name ==> View(me, db', other) == View(me, db, other)
  {}

  /** Receiving moves only the hint of the peer whose key opened the parcel, past the counter it opened at. */
  lemma ReceiveMoves(me: PrivateKey, db: Db, peers: seq<string>, p: Parcel, clock: nat)
    ensures var (db', found) := Receive(me, db, peers, p, clock);
            match found
            case None => SameViews(me, db, db') && db'.messages == db.messages
            case Some(o) =>
              && NodeOf(o.name).Some?
              && View(me, db', o.name) == View(me, db, o.name).(recvHint := Max(View(me, db, o.name).recvHint, o.counter + 1))
              && (forall name :: NodeOf(name).Some? && name != o.name ==> View(me, db', name) == View(me, db, name))
              && db'.messages == (if o.plain.DmPlain? then Save(db, ReceivedRow(o.plain.dm, p, o.counter, clock)) else db).messages
  {
    SearchFinds(me, db, peers, p, clock);
    var (db1, found) := Search(me, db, peers, p, clock);
    if found.Some? {
      var o := found.value;
      var db2 := if o.plain.DmPlain? then Save(db1, ReceivedRow(o.plain.dm, p, o.counter, clock)) else db1;
      assert db2.sessions == db1.sessions;
      BumpMoves(me, db2, o.name, o.counter + 1);
    }
  }

  /**
   * A parcel sealed for this node by one known peer at counter c is opened exactly if c is in that peer's
   * window, from five below the hint to sixty above; and then it is opened as that peer's, at that counter.
   */
  lemma WindowIsExact(me: PrivateKey, db: Db, peers: seq<string>, name: string, c: nat, p: Parcel, clock: nat)
    requires DistinctPeers(me, peers) && name in peers && NodeOf(name).Some? && c < U64
    requires Bounded(me, db, U64 - WINDOW_AHEAD)
    requires SealedBy(me, NodeOf(name).value, c, p, clock)
    ensures var hint := View(me, db, name).recvHint;
            Receive(me, db, peers, p, clock).1 ==
            if hint <= c + 5 && c < hint + 60 then Some(Opened(name, NodeOf(name).value, c, p.cipher.plain)) else None
  {
    SearchFinds(me, db, peers, p, clock);
    var i :| 0 <= i < |peers| && peers[i] == name;
    var found := Receive(me, db, peers, p, clock).1;
    if InWindow(me, db, name, c) {
      assert CanOpen(me, db, peers[i], c, p, clock);
    }
    if found.Some? {
      AttributionUnique(me, p, clock, NodeOf(name).value, c, found.value.peer, found.value.counter);
    }
  }

  /**
   * The sender that is shown and stored is the one the plaintext claims. It is the peer whose key opened the
   * message exactly if the claimed id is that peer's.
   */
  lemma ClaimedSenderIsShown(me: PrivateKey, db: Db, peers: seq<string>, name: string, c: nat, p: Parcel, inner: DmInner, clock: nat)
    requires DistinctPeers(me, peers) && name in peers && NodeOf(name).Some? && c < U64
    requires Bounded(me, db, U64 - WINDOW_AHEAD) && InWindow(me, db, name, c)
    requires SealedBy(me, NodeOf(name).value, c, p, clock) && p.cipher.plain == DmPlain(inner)
    ensures var (db', found) := Receive(me, db, peers, p, clock);
            && found == Some(Opened(name, NodeOf(name).value, c, DmPlain(inner)))
            && (ShownFor(inner).sender == Some(found.value.peer) <==> NodeOf(inner.senderId) == NodeOf(name))
            && (forall row :: row in db'.messages && row !in db.messages ==> row.senderId == inner.senderId)
  {
    WindowIsExact(me, db, peers, name, c, p, clock);
    ReceiveMoves(me, db, peers, p, clock);
  }

  /** So a known peer can be shown as any other node: nothing compares the claim with the key. */
  lemma PeerIsShownAsAnother(me: PrivateKey, db: Db, peers: seq<string>, name: string, c: nat, p: Parcel, inner: DmInner, other: NodeId, clock: nat)
    requires DistinctPeers(me, peers) && name in peers && NodeOf(name).Some? && c < U64
    requires Bounded(me, db, U64 - WINDOW_AHEAD) && InWindow(me, db, name, c)
    requires SealedBy(me, NodeOf(name).value, c, p, clock) && p.cipher.plain == DmPlain(inner)
    requires inner.senderId == NameOf(other) && other != NodeOf(name).value
    ensures var found := Receive(me, db, peers, p, clock).1;
            && found.Some? && found.value.plain == DmPlain(inner)
            && found.value.peer == NodeOf(name).value && ShownFor(inner).sender == Some(other)
  {
    ClaimedSenderIsShown(me, db, peers, name, c, p, inner, clock);
    NameRoundTrip(other);
  }

  /** A message made by the send command claims its own sender, so it is shown as the peer that sealed it. */
  lemma HonestSenderIsShown(a: PrivateKey, db: Db, to: string, r: Request, e: Chance)
    requires ValidChance(e) && r.Text? && Send(a, db, to, r, e).1.Ok?
    ensures var p := Send(a, db, to, r, e).1.value;
            p.cipher.Sealed? && p.cipher.plain.DmPlain? && ShownFor(p.cipher.plain.dm).sender == Some(PublicKeyOf(a))
            && ShownFor(p.cipher.plain.dm) == Shown(NameOf(PublicKeyOf(a)), Some(PublicKeyOf(a)), to, r.text, e.now, r.replyToId, r.replyToText)
  {
    SendMoves(a, db, to, r, e);
    NameRoundTrip(PublicKeyOf(a));
  }

  /** What is received, from whom, and every counter afterwards do not depend on the order of the peer list. */
  lemma PeerOrderIrrelevant(me: PrivateKey, db: Db, peers1: seq<string>, peers2: seq<string>, p: Parcel, clock: nat)
    requires DistinctPeers(me, peers1) && (forall name :: name in peers1 <==> name in peers2)
    requires Bounded(me, db, U64 - WINDOW_AHEAD)
    ensures var (db1, found1) := Receive(me, db, peers1, p, clock); var (db2, found2) := Receive(me, db, peers2, p, clock);
            found1 == found2 && SameViews(me, db1, db2) && db1.messages == db2.messages
  {
    SearchFinds(me, db, peers1, p, clock);
    SearchFinds(me, db, peers2, p, clock);
    ReceiveMoves(me, db, peers1, p, clock);
    ReceiveMoves(me, db, peers2, p, clock);
    var found1, found2 := Receive(me, db, peers1, p, clock).1, Receive(me, db, peers2, p, clock).1;
    if found1.Some? {
      var i :| 0 <= i < |peers2| && peers2[i] == found1.value.name;
      assert CanOpen(me, db, peers2[i], found1.value.counter, p, clock);
    }
    if found2.Some? {
      var i :| 0 <= i < |peers1| && peers1[i] == found2.value.name;
      assert CanOpen(me, db, peers1[i], found2.value.counter, p, clock);
    }
    if found1.Some? && found2.Some? {
      AttributionUnique(me, p, clock, found1.value.peer, found1.value.counter, found2.value.peer, found2.value.counter);
    }
  }

  // ---- what is sent -----------------------------------------------------------------------------

  /** Why a send is refused; nothing else makes it fail. */
  lemma SendRefusedFor(me: PrivateKey, db: Db, to: string, r: Request, e: Chance)
    requires ValidChance(e)
    ensures var (db', out) := Send(me, db, to, r, e);
            && (out.Err? ==> db' == db)
            && if r.Text? && forall c :: c in r.text ==> IsSpace(c) then out == Err(EmptyText)
               else if r.Text? && ByteLength(r.text) > 4096 then out == Err(TextTooLong)
               else if NodeOf(to).None? then out == Err(BadRecipient)
               else out.Ok?
  {
    SendMoves(me, db, to, r, e);
    if r.Text? {
      assert Blank(r.text) <==> forall c :: c in r.text ==> IsSpace(c);
    }
  }

  /** The length of a text in UTF-8 adds up over its parts: one to four bytes a character, one exactly for ASCII. */
  lemma {:induction false} ByteLengthAdds(a: string, b: string)
    ensures ByteLength(a + b) == ByteLength(a) + ByteLength(b)
    ensures |a| <= ByteLength(a) <= 4 * |a|
    ensures ByteLength(a) == |a| <==> forall i :: 0 <= i < |a| ==> a[i] as int < 128
  {
    if a == "" {
      assert a + b == b;
    } else {
      ByteLengthAdds(a[1..], b);
      assert (a + b)[1..] == a[1..] + b;
      assert forall i :: 0 < i < |a| ==> a[i] == a[1..][i - 1];
    }
  }

  /** What the user asked to send, read off the record that opens at the other end. */
  function RequestOf(p: Plain): Option<Request> {
    match p
    case DmPlain(d) => Some(Text(d.text, d.replyToId, d.replyToText))
    case FilePlain(f) => Some(Attachment(f.transferId, f.filename, f.mimeType, f.data))
    case OtherPlain(_) => None
  }

  /** A sealed record keeps the whole request, and says who sent it to whom, when, in which session, at which counter. */
  lemma RequestIsKept(me: PrivateKey, db: Db, to: string, r: Request, e: Chance)
    requires ValidChance(e) && Send(me, db, to, r, e).1.Ok?
    ensures NodeOf(to).Some?
    ensures var p, counter := Send(me, db, to, r, e).1.value, View(me, db, to).msgCounter;
            && p.cipher.Sealed? && RequestOf(p.cipher.plain) == Some(r) && p.packetId == e.packetId && p.nonce == p.cipher.nonce
            && match p.cipher.plain
               case DmPlain(d) => d.senderId == NameOf(PublicKeyOf(me)) && d.recipientId == to && d.timestamp == e.now
                                  && d.sessionId == DeriveSessionId({PublicKeyOf(me), NodeOf(to).value}) && d.msgCounter == counter
               case FilePlain(f) => f.senderId == NameOf(PublicKeyOf(me)) && f.recipientId == to && f.timestamp == e.now
                                    && f.sessionId == DeriveSessionId({PublicKeyOf(me), NodeOf(to).value}) && f.msgCounter == counter
               case OtherPlain(_) => false
  {
    SendMoves(me, db, to, r, e);
  }

  // ---- what is stored ---------------------------------------------------------------------------

  /** No stored row has this row id or this packet id. */
  predicate Free(rows: seq<StoredMessage>, id: RowId, packetId: PacketId) {
    forall i :: 0 <= i < |rows| ==> rows[i].id != id && rows[i].packetId != packetId
  }

  lemma FreeBehind(rows: seq<StoredMessage>, row: StoredMessage, id: RowId, packetId: PacketId)
    ensures Free(rows + [row], id, packetId) <==> Free(rows, id, packetId) && row.id != id && row.packetId != packetId
  {
    assert (rows + [row])[|rows|] == row;
    assert forall i :: 0 <= i < |rows| ==> (rows + [row])[i] == rows[i];
  }

  /**
   * A sent message is stored exactly if its packet id and its row id - 1000 times the second plus the counter - are
   * free, as undelivered and under the sender's printed id; a sent file never is.
   */
  lemma SentIsStoredIff(me: PrivateKey, db: Db, to: string, r: Request, e: Chance)
    requires ValidChance(e) && Send(me, db, to, r, e).1.Ok?
    ensures NodeOf(to).Some?
    ensures var (db', out) := Send(me, db, to, r, e); var counter := View(me, db, to).msgCounter;
            var id, p := SentAs(e.now * 1000 + counter), out.value;
            db'.messages ==
            if r.Text? && Free(db.messages, id, e.packetId)
            then db.messages + [StoredMessage(id, e.packetId, NameOf(PublicKeyOf(me)), to, p.nonce, p.cipher, e.now, false, counter)]
            else db.messages
  {
    SendMoves(me, db, to, r, e);
  }

  /** First messages to two peers in one second: both are sent, only one is stored. */
  lemma SecondMessageIsNotStored(me: PrivateKey, to1: string, to2: string, r1: Request, r2: Request, e1: Chance, e2: Chance)
    requires ValidChance(e1) && ValidChance(e2) && e1.now == e2.now && to1 != to2
    requires r1.Text? && r2.Text? && CheckText(r1).None? && CheckText(r2).None? && NodeOf(to1).Some? && NodeOf(to2).Some?
    ensures var (db1, out1) := Send(me, Db(map[], []), to1, r1, e1); var (db2, out2) := Send(me, db1, to2, r2, e2);
            out1.Ok? && out2.Ok? && |db1.messages| == 1 && db2.messages == db1.messages
  {
    var db := Db(map[], []);
    SendMoves(me, db, to1, r1, e1);
    SentIsStoredIff(me, db, to1, r1, e1);
    var db1 := Send(me, db, to1, r1, e1).0;
    SendMoves(me, db1, to2, r2, e2);
    SentIsStoredIff(me, db1, to2, r2, e2);
    assert db1.messages[0].id == SentAs(e2.now * 1000 + View(me, db1, to2).msgCounter);
  }

  /** At most eight characters of the claimed sender, and the claimed time. */
  function ReceivedId(sender: string, timestamp: nat): RowId {
    ReceivedAs(if |sender| < 8 then sender else sender[..8], timestamp)
  }

  /**
   * A DM that opens is stored exactly if its packet id and its row id are free, as delivered at the clock's time, sealed
   * as it came, with the counter it opened at; sender, recipient and row id are those its text claims.
   */
  lemma ReceivedIsStoredIff(me: PrivateKey, db: Db, peers: seq<string>, p: Parcel, clock: nat)
    requires Receive(me, db, peers, p, clock).1.Some? && Receive(me, db, peers, p, clock).1.value.plain.DmPlain?
    ensures var (db', found) := Receive(me, db, peers, p, clock);
            var inner := found.value.plain.dm; var id := ReceivedId(inner.senderId, inner.timestamp);
            db'.messages ==
            if Free(db.messages, id, p.packetId)
            then db.messages + [StoredMessage(id, p.packetId, inner.senderId, inner.recipientId, p.nonce, p.cipher, clock, true, found.value.counter)]
            else db.messages
  {
    ReceiveMoves(me, db, peers, p, clock);
    var sender := Receive(me, db, peers, p, clock).1.value.plain.dm.senderId;
    assert |sender| == 8 ==> sender[..8] == sender;
  }

  /** A DM that opens here, whose row id and packet id are free in the given database. */
  predicate OpensFresh(me: PrivateKey, db: Db, stored: Db, peers: seq<string>, p: Parcel, clock: nat) {
    var found := Receive(me, db, peers, p, clock).1;
    found.Some? && found.value.plain.DmPlain? &&
    Free(stored.messages, ReceivedId(found.value.plain.dm.senderId, found.value.plain.dm.timestamp), p.packetId)
  }

  /**
   * Two DMs that open one after the other, both new to the database, are both stored exactly if their packet ids differ
   * and so do their claimed times or the first eight characters of their claimed senders.
   */
  lemma BothAreStoredIff(me: PrivateKey, db: Db, peers1: seq<string>, p1: Parcel, clock1: nat, peers2: seq<string>, p2: Parcel, clock2: nat)
    requires OpensFresh(me, db, db, peers1, p1, clock1)
    requires OpensFresh(me, Receive(me, db, peers1, p1, clock1).0, db, peers2, p2, clock2)
    ensures var (db1, found1) := Receive(me, db, peers1, p1, clock1); var (db2, found2) := Receive(me, db1, peers2, p2, clock2);
            var a, b := found1.value.plain.dm, found2.value.plain.dm;
            && |db1.messages| == |db.messages| + 1 && db1.messages <= db2.messages
            && (|db2.messages| == |db.messages| + 2 <==>
                p1.packetId != p2.packetId
                && (a.timestamp != b.timestamp || ReceivedId(a.senderId, 0) != ReceivedId(b.senderId, 0)))
  {
    ReceivedIsStoredIff(me, db, peers1, p1, clock1);
    var (db1, found1) := Receive(me, db, peers1, p1, clock1);
    ReceivedIsStoredIff(me, db1, peers2, p2, clock2);
    var a, b := found1.value.plain.dm, Receive(me, db1, peers2, p2, clock2).1.value.plain.dm;
    FreeBehind(db.messages, db1.messages[|db.messages|], ReceivedId(b.senderId, b.timestamp), p2.packetId);
    assert ReceivedId(a.senderId, a.timestamp) == ReceivedId(b.senderId, b.timestamp) <==>
           a.timestamp == b.timestamp && ReceivedId(a.senderId, 0) == ReceivedId(b.senderId, 0);
  }
}
