/** Reading history: one attempt with the stored counter agrees with the bounded search, and healing changes nothing. */
module History {
  import opened Bytes
  import opened Packets
  import opened Crypto
  import opened Keys
  import opened SessionStore
  import opened Commands
  import opened Sessions
  import opened SessionRuns

  // ---- where stored rows come from --------------------------------------------------------------

  /** The sealed record of a row is a DM, sealed with the row's own nonce and packet id. */
  ghost predicate WellSealed(row: StoredMessage) {
    && row.cipher.Sealed? && row.cipher.nonce == row.nonce
    && row.cipher.aad == Aad(DmKind, row.packetId) && row.cipher.plain.DmPlain?
  }

  /** A row made by a send to `name`: sealed by us at its counter, which is used up. */
  ghost predicate SentRowOk(me: PrivateKey, db: Db, row: StoredMessage, name: string) {
    && NodeOf(name).Some? && WellSealed(row) && row.id.SentAs? && IsOutgoing(me, row)
    && 0 <= row.msgCounter < View(me, db, name).msgCounter
    && row.cipher.key == DmKey(PublicKeyOf(me), NodeOf(name).value, row.msgCounter)
  }

  /** A row made by opening a parcel from `name`: sealed by that peer at its counter, which is below the hint. */
  ghost predicate ReceivedRowOk(me: PrivateKey, db: Db, row: StoredMessage, name: string) {
    && NodeOf(name).Some? && WellSealed(row) && row.id.ReceivedAs? && NodeOf(name).value != PublicKeyOf(me)
    && 0 <= row.msgCounter < View(me, db, name).recvHint
    && row.cipher.key == DmKey(NodeOf(name).value, PublicKeyOf(me), row.msgCounter)
  }

  ghost predicate RowOf(me: PrivateKey, db: Db, row: StoredMessage, name: string) {
    SentRowOk(me, db, row, name) || ReceivedRowOk(me, db, row, name)
  }

  /** A row is accounted for by some peer's session; if `lower`, by one under a lower-case name. */
  ghost predicate RowOk(me: PrivateKey, db: Db, row: StoredMessage, lower: bool) {
    exists name :: RowOf(me, db, row, name) && (lower ==> LowerCase(name))
  }

  ghost predicate RowsOk(me: PrivateKey, db: Db, lower: bool) {
    forall row :: row in db.messages ==> RowOk(me, db, row, lower)
  }

  /** Views that only move forward keep a row accounted for. */
  lemma RowOkStays(me: PrivateKey, db: Db, db': Db, row: StoredMessage, lower: bool)
    requires RowOk(me, db, row, lower)
    requires forall name :: NodeOf(name).Some? ==>
               View(me, db, name).msgCounter <= View(me, db', name).msgCounter && View(me, db, name).recvHint <= View(me, db', name).recvHint
    ensures RowOk(me, db', row, lower)
  {
    var name :| RowOf(me, db, row, name) && (lower ==> LowerCase(name));
    assert RowOf(me, db', row, name);
  }

  /** No peer is the node itself, history is read on stored rows, and if `lower`, node ids come in lower case. */
  ghost predicate PlainOp(me: PrivateKey, db: Db, op: Op, lower: bool) {
    match op
    case SendOp(to, _, e) => ValidChance(e) && (lower ==> LowerCase(to))
    case ReceiveOp(peers, _, _) => forall a :: a in peers ==> (lower ==> LowerCase(a)) && NodeOf(a) != Some(PublicKeyOf(me))
    case ReadOp(_, rows, _) => forall row :: row in rows ==> row in db.messages
  }

  ghost predicate PlainRun(me: PrivateKey, db: Db, ops: seq<Op>, lower: bool) {
    ops == [] ||
    (PlainRun(me, db, ops[..|ops| - 1], lower) && ValidRun(ops[..|ops| - 1]) && ValidOp(ops[|ops| - 1])
     && PlainOp(me, After(me, db, ops[..|ops| - 1]), ops[|ops| - 1], lower))
  }

  lemma {:induction false} PlainRunIsValid(me: PrivateKey, db: Db, ops: seq<Op>, lower: bool)
    requires PlainRun(me, db, ops, lower)
    ensures ValidRun(ops)
  {
    if ops != [] {
      forall i | 0 <= i < |ops| ensures ValidOp(ops[i]) {
        assert i < |ops| - 1 ==> ops[i] == ops[..|ops| - 1][i];
      }
    }
  }

  lemma ViewsMoveForward(me: PrivateKey, db: Db, op: Op)
    requires ValidOp(op)
    ensures forall name :: NodeOf(name).Some? ==>
              && View(me, db, name).msgCounter <= View(me, Apply(me, db, op), name).msgCounter
              && View(me, db, name).recvHint <= View(me, Apply(me, db, op), name).recvHint
  {
    forall name | NodeOf(name).Some?
      ensures View(me, db, name).msgCounter <= View(me, Apply(me, db, op), name).msgCounter
      ensures View(me, db, name).recvHint <= View(me, Apply(me, db, op), name).recvHint
    {
      CountersMove(me, db, op, name);
    }
  }

  /** A row that an operation adds is accounted for afterwards. */
  lemma NewRowOk(me: PrivateKey, db: Db, op: Op, row: StoredMessage, lower: bool)
    requires ValidOp(op) && PlainOp(me, db, op, lower) && RowsOk(me, db, lower)
    requires row in Apply(me, db, op).messages && row !in db.messages
    ensures RowOk(me, Apply(me, db, op), row, lower)
  {
    match op
    case SendOp(to, r, e) =>
      SendMoves(me, db, to, r, e);
      BothEndsAgree(me, PrivateKey(NodeOf(to).value), View(me, db, to).msgCounter);
      assert SentRowOk(me, Apply(me, db, op), row, to);
      assert RowOf(me, Apply(me, db, op), row, to);
    case ReceiveOp(peers, p, clock) =>
      SearchFinds(me, db, peers, p, clock);
      ReceiveMoves(me, db, peers, p, clock);
      var o := Receive(me, db, peers, p, clock).1.value;
      assert ReceivedRowOk(me, Apply(me, db, op), row, o.name);
      assert RowOf(me, Apply(me, db, op), row, o.name);
    case ReadOp(with, rows, clock) =>
      ReadKeepsRows(me, db, with, rows, clock, lower);
  }

  lemma {:induction false} HealNothing(me: PrivateKey, db: Db, peer: NodeId, rows: seq<StoredMessage>, s: Session, clock: nat)
    requires forall row :: row in rows ==> row.msgCounter >= 0
    ensures HealRows(me, db, peer, rows, s, clock) == db
    decreases |rows|
  {
    if rows != [] {
      assert rows[0] in rows && forall row :: row in rows[1..] ==> row in rows;
      HealNothing(me, db, peer, rows[1..], s, clock);
    }
  }

  lemma ReadKeepsRows(me: PrivateKey, db: Db, with: string, rows: seq<StoredMessage>, clock: nat, lower: bool)
    requires RowsOk(me, db, lower) && forall row :: row in rows ==> row in db.messages
    ensures GetMessages(me, db, with, rows, clock).0.messages == db.messages
  {
    forall row | row in rows ensures row.msgCounter >= 0 {
      assert RowOk(me, db, row, lower);
    }
    if NodeOf(with).Some? {
      var peer := NodeOf(with).value;
      HealNothing(me, GetOrCreate(db, with, Ecdh(me, peer)).0, peer, rows, Fetched(me, db, with, peer), clock);
    }
  }

  lemma {:induction false} RunKeepsRowsOk(me: PrivateKey, ops: seq<Op>, lower: bool)
    requires PlainRun(me, Db(map[], []), ops, lower)
    ensures ValidRun(ops) && RowsOk(me, After(me, Db(map[], []), ops), lower)
  {
    PlainRunIsValid(me, Db(map[], []), ops, lower);
    if ops != [] {
      var db, front, op := Db(map[], []), ops[..|ops| - 1], ops[|ops| - 1];
      RunKeepsRowsOk(me, front, lower);
      var before := After(me, db, front);
      ViewsMoveForward(me, before, op);
      forall row | row in Apply(me, before, op).messages ensures RowOk(me, Apply(me, before, op), row, lower) {
        if row in before.messages {
          RowOkStays(me, before, Apply(me, before, op), row, lower);
        } else {
          NewRowOk(me, before, op, row, lower);
        }
      }
    }
  }

  // ---- the fast read and the slow one ----------------------------------------------------------

  /** At which counters a stored row opens when it is read as part of the conversation with `peer`. */
  ghost predicate RowOpensAt(me: PrivateKey, peer: NodeId, row: StoredMessage, c: nat, clock: nat) {
    && row.cipher.Sealed? && NonceTimely(row.nonce, clock) && row.cipher.nonce == row.nonce
    && row.cipher.aad == Aad(DmKind, row.packetId) && row.cipher.plain.DmPlain?
    && row.cipher.key == if IsOutgoing(me, row) then DmKey(PublicKeyOf(me), peer, c) else DmKey(peer, PublicKeyOf(me), c)
  }

  lemma TryCounterIff(me: PrivateKey, peer: NodeId, row: StoredMessage, c: nat, clock: nat)
    ensures TryCounter(me, peer, row, c, clock).Some? <==> RowOpensAt(me, peer, row, c, clock)
  {
    BothEndsAgree(me, PrivateKey(peer), c);
    assert Ecdh(me, peer) == {peer, PublicKeyOf(me)};
  }

  /** The row holds a DM sealed by `x` for `y` at counter `c`. */
  ghost predicate SealedAt(row: StoredMessage, x: NodeId, y: NodeId, c: nat) {
    WellSealed(row) && row.cipher.key == DmKey(x, y, c) && c < U64
  }

  /** A row opens at no counter but the one it was sealed at, for no peer but the other end, in no other direction. */
  lemma OpensOnlyAsSealed(me: PrivateKey, row: StoredMessage, x: NodeId, y: NodeId, c: nat, peer: NodeId, k: nat, clock: nat)
    requires SealedAt(row, x, y, c) && k < U64 && RowOpensAt(me, peer, row, k, clock)
    ensures k == c && (x, y) == if IsOutgoing(me, row) then (PublicKeyOf(me), peer) else (peer, PublicKeyOf(me))
  {
    if IsOutgoing(me, row) {
      DmKeyInjective(PublicKeyOf(me), peer, k, x, y, c);
    } else {
      DmKeyInjective(peer, PublicKeyOf(me), k, x, y, c);
    }
  }

  /** An accounted row opens at no counter but its own. */
  lemma OnlyAtItsCounter(me: PrivateKey, db: Db, row: StoredMessage, peer: NodeId, c: nat, clock: nat, name: string)
    requires RowOf(me, db, row, name) && Bounded(me, db, U64) && c < U64
    requires RowOpensAt(me, peer, row, c, clock)
    ensures c == row.msgCounter && NodeOf(name) == Some(peer) && (SentRowOk(me, db, row, name) <==> IsOutgoing(me, row))
  {
    var other := NodeOf(name).value;
    if SentRowOk(me, db, row, name) {
      OpensOnlyAsSealed(me, row, PublicKeyOf(me), other, row.msgCounter, peer, c, clock);
    } else {
      OpensOnlyAsSealed(me, row, other, PublicKeyOf(me), row.msgCounter, peer, c, clock);
    }
  }

  /**
   * What a stored row shows, read with the peer it was exchanged with: its text if the clock is within 300
   * seconds of its nonce - and, if it was received, it does not claim to be our own - and nothing otherwise.
   */
  lemma StoredRowShows(me: PrivateKey, db: Db, row: StoredMessage, name: string, s: Session, clock: nat)
    requires RowOf(me, db, row, name) && Bounded(me, db, U64)
    ensures ReadRow(me, NodeOf(name).value, row, s, clock) ==
            if NonceTimely(row.nonce, clock) && (row.id.SentAs? || !IsOutgoing(me, row))
            then Some((row.cipher.plain.dm.text, row.cipher.plain.dm.timestamp)) else None
  {
    var peer, k := NodeOf(name).value, row.msgCounter as nat;
    TryCounterIff(me, peer, row, k, clock);
    if RowOpensAt(me, peer, row, k, clock) {
      OnlyAtItsCounter(me, db, row, peer, k, clock, name);
    }
  }

  /** So for every row of every run: shown within five minutes of its making, and never again after that. */
  lemma HistoryOfRun(me: PrivateKey, ops: seq<Op>, row: StoredMessage) returns (name: string)
    requires PlainRun(me, Db(map[], []), ops, false) && ValidRun(ops) && row in After(me, Db(map[], []), ops).messages
    requires Bounded(me, After(me, Db(map[], []), ops), U64)
    ensures NodeOf(name).Some? && WellSealed(row) && row.msgCounter >= 0
    ensures row.cipher.key == if row.id.SentAs? then DmKey(PublicKeyOf(me), NodeOf(name).value, row.msgCounter)
                              else DmKey(NodeOf(name).value, PublicKeyOf(me), row.msgCounter)
    ensures forall s, clock :: ReadRow(me, NodeOf(name).value, row, s, clock) ==
              if NonceTimely(row.nonce, clock) && (row.id.SentAs? || !IsOutgoing(me, row))
              then Some((row.cipher.plain.dm.text, row.cipher.plain.dm.timestamp)) else None
    ensures forall s, clock, peer :: !NonceTimely(row.nonce, clock) ==> ReadRow(me, peer, row, s, clock) == None
  {
    RunKeepsRowsOk(me, ops, false);
    var db := After(me, Db(map[], []), ops);
    assert RowOk(me, db, row, false);
    name :| RowOf(me, db, row, name);
    forall s, clock
      ensures ReadRow(me, NodeOf(name).value, row, s, clock) ==
              if NonceTimely(row.nonce, clock) && (row.id.SentAs? || !IsOutgoing(me, row))
              then Some((row.cipher.plain.dm.text, row.cipher.plain.dm.timestamp)) else None
    {
      StoredRowShows(me, db, row, name, s, clock);
    }
  }

  /** The row without its counter, as the migration leaves it that gives an older database that column: with -1. */
  function Legacy(row: StoredMessage): StoredMessage { row.(msgCounter := -1) }

  /**
   * For every sealed row, read as part of any conversation: the single attempt with the stored counter and the
   * bounded search that does not know the counter show the same exactly if the row does not open for that peer
   * at all or its counter lies below the end of the search.
   */
  lemma FastEqualsSlowIff(me: PrivateKey, row: StoredMessage, x: NodeId, y: NodeId, peer: NodeId, s: Session, clock: nat)
    requires row.msgCounter >= 0 && SealedAt(row, x, y, row.msgCounter) && SearchEnd(me, row, s) < U64
    ensures ReadRow(me, peer, row, s, clock) == ReadRow(me, peer, Legacy(row), s, clock) <==>
            !RowOpensAt(me, peer, row, row.msgCounter, clock) || row.msgCounter < SearchEnd(me, row, s)
  {
    assert SearchEnd(me, Legacy(row), s) == SearchEnd(me, row, s);
    forall c: nat
      ensures TryCounter(me, peer, Legacy(row), c, clock) == TryCounter(me, peer, row, c, clock)
      ensures TryCounter(me, peer, row, c, clock).Some? <==> RowOpensAt(me, peer, row, c, clock)
      ensures TryCounter(me, peer, row, c, clock).Some? && c < U64 ==> c == row.msgCounter
    {
      TryCounterIff(me, peer, row, c, clock);
      if RowOpensAt(me, peer, row, c, clock) && c < U64 {
        OpensOnlyAsSealed(me, row, x, y, row.msgCounter, peer, c, clock);
      }
    }
  }

  lemma StoredRowAgreesIff(me: PrivateKey, db: Db, row: StoredMessage, name: string, peer: NodeId, s: Session, clock: nat)
    requires RowOf(me, db, row, name) && Bounded(me, db, U64) && SearchEnd(me, row, s) < U64
    ensures ReadRow(me, peer, row, s, clock) == ReadRow(me, peer, Legacy(row), s, clock) <==>
            !RowOpensAt(me, peer, row, row.msgCounter, clock) || row.msgCounter < SearchEnd(me, row, s)
  {
    if SentRowOk(me, db, row, name) {
      FastEqualsSlowIff(me, row, PublicKeyOf(me), NodeOf(name).value, peer, s, clock);
    } else {
      FastEqualsSlowIff(me, row, NodeOf(name).value, PublicKeyOf(me), peer, s, clock);
    }
  }

  /** What a row without a counter shows, read with the peer it was exchanged with. */
  lemma LegacyRowShows(me: PrivateKey, row: StoredMessage, peer: NodeId, c: nat, s: Session, clock: nat)
    requires SearchEnd(me, row, s) < U64
    requires if IsOutgoing(me, row) then SealedAt(row, PublicKeyOf(me), peer, c) else SealedAt(row, peer, PublicKeyOf(me), c)
    ensures ReadRow(me, peer, Legacy(row), s, clock) ==
            if NonceTimely(row.nonce, clock) && c < SearchEnd(me, row, s)
            then Some((row.cipher.plain.dm.text, row.cipher.plain.dm.timestamp)) else None
  {
    var known := row.(msgCounter := c);
    TryCounterIff(me, peer, known, c, clock);
    assert RowOpensAt(me, peer, known, c, clock) <==> NonceTimely(row.nonce, clock);
    if IsOutgoing(me, row) {
      FastEqualsSlowIff(me, known, PublicKeyOf(me), peer, peer, s, clock);
    } else {
      FastEqualsSlowIff(me, known, peer, PublicKeyOf(me), peer, s, clock);
    }
    ShowsTextOrNothing(me, peer, Legacy(row), s, clock);
  }

  lemma ShowsTextOrNothing(me: PrivateKey, peer: NodeId, row: StoredMessage, s: Session, clock: nat)
    requires row.cipher.Sealed? && row.cipher.plain.DmPlain?
    ensures var shown := ReadRow(me, peer, row, s, clock);
            shown == None || shown == Some((row.cipher.plain.dm.text, row.cipher.plain.dm.timestamp))
  {}

  /** With one spelling per node the counter of a row that opens lies inside the search. */
  lemma SearchCoversRow(me: PrivateKey, db: Db, row: StoredMessage, with: string, clock: nat)
    requires RowOk(me, db, row, true) && NodeOf(with).Some? && LowerCase(with) && Bounded(me, db, U64)
    requires row.msgCounter >= 0 && RowOpensAt(me, NodeOf(with).value, row, row.msgCounter, clock)
    ensures row.msgCounter < SearchEnd(me, row, View(me, db, with))
  {
    var name :| RowOf(me, db, row, name) && LowerCase(name);
    OnlyAtItsCounter(me, db, row, NodeOf(with).value, row.msgCounter, clock, name);
  }

  /**
   * For every row a run stores, read with any peer at any time, node ids in lower case: one attempt with the
   * stored counter shows the same text, or the same failure, as the search that does not know the counter.
   */
  lemma FastReadEqualsSlowRead(me: PrivateKey, ops: seq<Op>, row: StoredMessage, with: string, clock: nat)
    requires PlainRun(me, Db(map[], []), ops, true) && ValidRun(ops) && row in After(me, Db(map[], []), ops).messages
    requires NodeOf(with).Some? && LowerCase(with)
    requires Bounded(me, After(me, Db(map[], []), ops), U64 - 60)
    ensures var peer := NodeOf(with).value; var s := Fetched(me, After(me, Db(map[], []), ops), with, peer);
            ReadRow(me, peer, row, s, clock) == ReadRow(me, peer, Legacy(row), s, clock)
  {
    var db, peer := After(me, Db(map[], []), ops), NodeOf(with).value;
    var s := Fetched(me, db, with, peer);
    RunKeepsRowsOk(me, ops, true);
    assert RowOk(me, db, row, true);
    var name :| RowOf(me, db, row, name) && LowerCase(name);
    assert SearchEnd(me, row, s) == SearchEnd(me, row, View(me, db, with)) < U64;
    StoredRowAgreesIff(me, db, row, name, peer, s, clock);
    if RowOpensAt(me, peer, row, row.msgCounter, clock) {
      SearchCoversRow(me, db, row, with, clock);
    }
  }

  // ---- what the command returns -----------------------------------------------------------------

  /** Sealed at `c` by us for the peer if the row names us as its sender, and by the peer for us otherwise. */
  ghost predicate SealedWith(me: PrivateKey, peer: NodeId, row: StoredMessage, c: nat) {
    if row.senderId == NameOf(PublicKeyOf(me)) then SealedAt(row, PublicKeyOf(me), peer, c) else SealedAt(row, peer, PublicKeyOf(me), c)
  }

  /** Where the search for a lost counter ends. */
  function LastTried(me: PrivateKey, row: StoredMessage, s: Session): nat {
    if row.senderId == NameOf(PublicKeyOf(me)) then s.msgCounter + 1 else if s.recvHint < 500 then 560 else s.recvHint + 60
  }

  /** The row's counter is the one it was sealed at, or is lost and stored as -1. */
  ghost predicate CounterKnownOrLost(me: PrivateKey, peer: NodeId, row: StoredMessage, c: nat) {
    SealedWith(me, peer, row, c) && (row.msgCounter == c || row.msgCounter == -1)
  }

  /** The row opens now: its nonce is timely, and its counter is known or within the search. */
  ghost predicate OpensNow(me: PrivateKey, row: StoredMessage, c: nat, s: Session, clock: nat) {
    NonceTimely(row.nonce, clock) && (row.msgCounter == c || c < LastTried(me, row, s))
  }

  /** Text and time of the sealed record. */
  function TextIn(row: StoredMessage): Option<(string, nat)> {
    if row.cipher.Sealed? && row.cipher.plain.DmPlain? then Some((row.cipher.plain.dm.text, row.cipher.plain.dm.timestamp)) else None
  }

  lemma TriesOnlyOpenAt(me: PrivateKey, peer: NodeId, row: StoredMessage, c: nat, k: nat, clock: nat)
    requires SealedWith(me, peer, row, c) && k < U64
    ensures TryCounter(me, peer, row, k, clock) == if k == c && NonceTimely(row.nonce, clock) then Some(row.cipher.plain.dm) else None
  {
    TryCounterIff(me, peer, row, k, clock);
    if RowOpensAt(me, peer, row, k, clock) {
      if IsOutgoing(me, row) {
        OpensOnlyAsSealed(me, row, PublicKeyOf(me), peer, c, peer, k, clock);
      } else {
        OpensOnlyAsSealed(me, row, peer, PublicKeyOf(me), c, peer, k, clock);
      }
    }
  }

  lemma RowIsShown(me: PrivateKey, peer: NodeId, row: StoredMessage, c: nat, s: Session, clock: nat)
    requires CounterKnownOrLost(me, peer, row, c) && LastTried(me, row, s) < U64
    ensures ReadRow(me, peer, row, s, clock) ==
            if OpensNow(me, row, c, s, clock) then TextIn(row) else None
    ensures row.msgCounter == -1 ==>
              FirstCounter(me, peer, row, 0, SearchEnd(me, row, s), clock) == if OpensNow(me, row, c, s, clock) then Some(c) else None
  {
    var end := SearchEnd(me, row, s);
    assert LastTried(me, row, s) == end;
    TriesOnlyOpenAt(me, peer, row, c, c, clock);
    if row.msgCounter == -1 {
      forall k: nat | k < end ensures TryCounter(me, peer, row, k, clock).Some? <==> k == c && NonceTimely(row.nonce, clock) {
        TriesOnlyOpenAt(me, peer, row, c, k, clock);
      }
      assert FirstCounter(me, peer, row, 0, end, clock) == if OpensNow(me, row, c, s, clock) then Some(c) else None;
    }
  }

  /**
   * The command's answer for any rows of a conversation, with or without their counters: one entry per row, in row
   * order, which is the sealed text and time if the row opens now, and nothing otherwise.
   */
  lemma CommandShows(me: PrivateKey, db: Db, with: string, rows: seq<StoredMessage>, cs: seq<nat>, clock: nat)
    requires NodeOf(with).Some? && |cs| == |rows| && Bounded(me, db, U64 - 60)
    requires forall i :: 0 <= i < |rows| ==> CounterKnownOrLost(me, NodeOf(with).value, rows[i], cs[i])
    ensures var answer := GetMessages(me, db, with, rows, clock).1;
            && answer.Some? && |answer.value| == |rows|
            && forall i :: 0 <= i < |rows| ==>
                 answer.value[i] == if OpensNow(me, rows[i], cs[i], View(me, db, with), clock)
                                    then TextIn(rows[i]) else None
  {
    var peer, s := NodeOf(with).value, View(me, db, with);
    assert Fetched(me, db, with, peer).msgCounter == s.msgCounter && Fetched(me, db, with, peer).recvHint == s.recvHint;
    forall i | 0 <= i < |rows|
      ensures ReadRow(me, peer, rows[i], Fetched(me, db, with, peer), clock) ==
              if OpensNow(me, rows[i], cs[i], s, clock) then TextIn(rows[i]) else None
    {
      RowIsShown(me, peer, rows[i], cs[i], Fetched(me, db, with, peer), clock);
    }
  }

  /** The row was exchanged with this peer, in the direction its row id says, at its stored counter. */
  ghost predicate Exchanged(me: PrivateKey, peer: NodeId, row: StoredMessage) {
    && row.cipher.Sealed? && row.msgCounter >= 0
    && row.cipher.key == if row.id.SentAs? then DmKey(PublicKeyOf(me), peer, row.msgCounter) else DmKey(peer, PublicKeyOf(me), row.msgCounter)
  }

  lemma RunRowIsShown(me: PrivateKey, db: Db, row: StoredMessage, peer: NodeId, s: Session, clock: nat)
    requires RowOk(me, db, row, false) && Bounded(me, db, U64)
    ensures WellSealed(row)
    ensures ReadRow(me, peer, row, s, clock) ==
            if NonceTimely(row.nonce, clock) && Exchanged(me, peer, row) && (row.id.SentAs? <==> row.senderId == NameOf(PublicKeyOf(me)))
            then TextIn(row) else None
  {
    var name :| RowOf(me, db, row, name);
    var other, c := NodeOf(name).value, row.msgCounter as nat;
    TryCounterIff(me, peer, row, c, clock);
    if RowOpensAt(me, peer, row, c, clock) {
      OnlyAtItsCounter(me, db, row, peer, c, clock, name);
    }
  }

  /**
   * After any run, for any of the rows it stored and any peer: the command answers with one entry per row, in row
   * order - the text of those exchanged with that peer, within 300 seconds of their nonces, and nothing for the others,
   * nor for a received one that names the reader as its sender.
   */
  lemma RunIsShown(me: PrivateKey, ops: seq<Op>, with: string, rows: seq<StoredMessage>, clock: nat)
    requires PlainRun(me, Db(map[], []), ops, false) && ValidRun(ops) && NodeOf(with).Some?
    requires Bounded(me, After(me, Db(map[], []), ops), U64)
    requires forall row :: row in rows ==> row in After(me, Db(map[], []), ops).messages
    ensures forall row :: row in rows ==> WellSealed(row)
    ensures var answer := GetMessages(me, After(me, Db(map[], []), ops), with, rows, clock).1;
            && answer.Some? && |answer.value| == |rows|
            && forall i :: 0 <= i < |rows| ==>
                 answer.value[i] == if NonceTimely(rows[i].nonce, clock) && Exchanged(me, NodeOf(with).value, rows[i])
                                       && (rows[i].id.SentAs? <==> rows[i].senderId == NameOf(PublicKeyOf(me)))
                                    then TextIn(rows[i]) else None
  {
    RunKeepsRowsOk(me, ops, false);
    var db, peer := After(me, Db(map[], []), ops), NodeOf(with).value;
    forall row | row in rows
      ensures WellSealed(row)
      ensures ReadRow(me, peer, row, Fetched(me, db, with, peer), clock) ==
              if NonceTimely(row.nonce, clock) && Exchanged(me, peer, row) && (row.id.SentAs? <==> row.senderId == NameOf(PublicKeyOf(me)))
              then TextIn(row) else None
    {
      assert RowOk(me, db, row, false);
      RunRowIsShown(me, db, row, peer, Fetched(me, db, with, peer), clock);
    }
    forall i | 0 <= i < |rows| ensures rows[i] in rows {}
  }

  /** A message just sent and stored is read back with its text and time, while the clock is near its nonce. */
  lemma SentIsReadBack(me: PrivateKey, db: Db, to: string, r: Request, e: Chance, clock: nat)
    requires ValidChance(e) && r.Text? && Send(me, db, to, r, e).1.Ok? && Bounded(me, db, U64 - 61)
    requires NodeOf(to).Some? && Free(db.messages, SentAs(e.now * 1000 + View(me, db, to).msgCounter), e.packetId)
    ensures var db' := Send(me, db, to, r, e).0;
            && |db'.messages| == |db.messages| + 1
            && GetMessages(me, db', to, [db'.messages[|db.messages|]], clock).1 ==
               Some([if NonceTimely(GenerateNonce(e.now, e.nonceTail), clock) then Some((r.text, e.now)) else None])
  {
    var db' := Send(me, db, to, r, e).0;
    SendMoves(me, db, to, r, e);
    SentIsStoredIff(me, db, to, r, e);
    RequestIsKept(me, db, to, r, e);
    var row := db'.messages[|db.messages|];
    CommandShows(me, db', to, [row], [View(me, db, to).msgCounter], clock);
    var answer := GetMessages(me, db', to, [row], clock).1.value;
    assert answer == [answer[0]];
  }

  /** A message just received and stored is read back as its sender's, unless it claims to be the reader's own. */
  lemma ReceivedIsReadBack(me: PrivateKey, db: Db, peers: seq<string>, p: Parcel, clock: nat, clock': nat)
    requires OpensFresh(me, db, db, peers, p, clock) && p.kind == DmKind && Bounded(me, db, U64 - 120)
    requires var o := Receive(me, db, peers, p, clock).1.value; NodeOf(o.name).Some? && o.plain.dm.senderId != NameOf(PublicKeyOf(me))
    ensures var (db', found) := Receive(me, db, peers, p, clock); var inner := found.value.plain.dm;
            && |db'.messages| == |db.messages| + 1
            && GetMessages(me, db', found.value.name, [db'.messages[|db.messages|]], clock').1 ==
               Some([if NonceTimely(p.nonce, clock') then Some((inner.text, inner.timestamp)) else None])
  {
    var (db', found) := Receive(me, db, peers, p, clock);
    SearchFinds(me, db, peers, p, clock);
    ReceiveMoves(me, db, peers, p, clock);
    ReceivedIsStoredIff(me, db, peers, p, clock);
    var row := db'.messages[|db.messages|];
    CommandShows(me, db', found.value.name, [row], [found.value.counter], clock');
    var answer := GetMessages(me, db', found.value.name, [row], clock').1.value;
    assert answer == [answer[0]];
  }

  // ---- after the migration ----------------------------------------------------------------------

  /** The migration: both counter columns are new, so every row's counter is -1 and every hint restarts at 0. */
  function Migrated(db: Db): Db {
    Db(map name | name in db.sessions :: db.sessions[name].(recvHint := 0),
       seq(|db.messages|, i requires 0 <= i < |db.messages| => Legacy(db.messages[i])))
  }

  lemma MigratedFetch(me: PrivateKey, db: Db, with: string, peer: NodeId)
    requires NodeOf(with) == Some(peer)
    ensures Fetched(me, Migrated(db), with, peer) == Fetched(me, db, with, peer).(recvHint := 0)
  {}

  /**
   * Of the rows a run stores with one spelling per node, the migration hides exactly those received at a counter
   * of 560 or more; every other shows what it showed before.
   */
  lemma MigratedRowShows(me: PrivateKey, ops: seq<Op>, row: StoredMessage, with: string, clock: nat)
    requires PlainRun(me, Db(map[], []), ops, true) && ValidRun(ops) && row in After(me, Db(map[], []), ops).messages
    requires NodeOf(with).Some? && LowerCase(with)
    requires Bounded(me, After(me, Db(map[], []), ops), U64 - 60)
    ensures var db, peer := After(me, Db(map[], []), ops), NodeOf(with).value;
            && Legacy(row) in Migrated(db).messages
            && ReadRow(me, peer, Legacy(row), Fetched(me, Migrated(db), with, peer), clock) ==
               if IsOutgoing(me, row) || row.msgCounter < 560 then ReadRow(me, peer, row, Fetched(me, db, with, peer), clock) else None
  {
    var db, peer := After(me, Db(map[], []), ops), NodeOf(with).value;
    var s, s0 := Fetched(me, db, with, peer), Fetched(me, Migrated(db), with, peer);
    var i :| 0 <= i < |db.messages| && db.messages[i] == row;
    assert Migrated(db).messages[i] == Legacy(row);
    MigratedFetch(me, db, with, peer);
    RunKeepsRowsOk(me, ops, true);
    assert RowOk(me, db, row, true);
    var name :| RowOf(me, db, row, name) && LowerCase(name);
    assert ReadRow(me, peer, row, s, clock) == ReadRow(me, peer, row, s0, clock);
    assert SearchEnd(me, row, s0) == if IsOutgoing(me, row) then View(me, db, with).msgCounter + 1 else 560;
    StoredRowAgreesIff(me, db, row, name, peer, s0, clock);
    TryCounterIff(me, peer, row, row.msgCounter, clock);
    if RowOpensAt(me, peer, row, row.msgCounter, clock) {
      SearchCoversRow(me, db, row, with, clock);
    }
    ShowsTextOrNothing(me, peer, row, s0, clock);
    ShowsTextOrNothing(me, peer, Legacy(row), s0, clock);
  }

  /** A file sealed by a peer at a given counter; receiving it stores no row. */
  function FileParcel(me: PrivateKey, peer: NodeId, c: nat, id: PacketId, nonce: Bytes16, file: FileInner): Parcel {
    Parcel(FileKind, id, nonce, Sealed(DmKey(peer, PublicKeyOf(me), c), nonce, FilePlain(file), Aad(FileKind, id)))
  }

  /** Packet id and nonce of one file. */
  type Head = (PacketId, Bytes16)

  /** Files of one peer, each at the last counter of the window it finds. */
  function FileOps(me: PrivateKey, listed: string, peer: NodeId, heads: seq<Head>, file: FileInner, clock: nat): seq<Op> {
    seq(|heads|, i requires 0 <= i < |heads| =>
      ReceiveOp([listed], FileParcel(me, peer, 60 * i + 59, heads[i].0, heads[i].1, file), clock))
  }

  /** One spelling's hint is 60 n, every other's 0, and nothing is stored. */
  ghost predicate Climbed(me: PrivateKey, db: Db, listed: string, n: nat) {
    && NodeOf(listed).Some? && View(me, db, listed).recvHint == 60 * n && db.messages == [] && Bounded(me, db, U64 / 2)
    && forall other :: NodeOf(other).Some? && other != listed ==> View(me, db, other).recvHint == 0
  }

  lemma OneFile(me: PrivateKey, db: Db, listed: string, peer: NodeId, n: nat, p: Parcel, clock: nat)
    requires NodeOf(listed) == Some(peer) && peer != PublicKeyOf(me) && n < 10 && Climbed(me, db, listed, n)
    requires p.kind == FileKind && SealedBy(me, peer, 60 * n + 59, p, clock)
    ensures Climbed(me, Receive(me, db, [listed], p, clock).0, listed, n + 1)
  {
    WindowIsExact(me, db, [listed], listed, 60 * n + 59, p, clock);
    ReceiveMoves(me, db, [listed], p, clock);
  }

  lemma ClimbOnce(me: PrivateKey, ops: seq<Op>, listed: string, peer: NodeId, n: nat, p: Parcel, clock: nat)
    requires ValidRun(ops) && NodeOf(listed) == Some(peer) && peer != PublicKeyOf(me) && n < 10
    requires Climbed(me, After(me, Db(map[], []), ops), listed, n)
    requires p.kind == FileKind && SealedBy(me, peer, 60 * n + 59, p, clock)
    ensures Climbed(me, After(me, Db(map[], []), ops + [ReceiveOp([listed], p, clock)]), listed, n + 1)
  {
    OneMoreOp(me, Db(map[], []), ops, ReceiveOp([listed], p, clock));
    OneFile(me, After(me, Db(map[], []), ops), listed, peer, n, p, clock);
  }

  lemma FileIsSealed(me: PrivateKey, peer: NodeId, c: nat, head: Head, file: FileInner, clock: nat)
    requires NonceTimely(head.1, clock)
    ensures SealedBy(me, peer, c, FileParcel(me, peer, c, head.0, head.1, file), clock)
  {}

  lemma NothingClimbed(me: PrivateKey, listed: string)
    requires NodeOf(listed).Some?
    ensures Climbed(me, Db(map[], []), listed, 0)
  {}

  /** Files of a peer listed under one spelling, the i-th sealed at counter 60 i + 59. */
  ghost predicate Climb(me: PrivateKey, listed: string, peer: NodeId, ops: seq<Op>) {
    |ops| <= 10 && forall i :: 0 <= i < |ops| ==> ClimbAt(me, listed, peer, ops[i], i)
  }

  ghost predicate ClimbAt(me: PrivateKey, listed: string, peer: NodeId, op: Op, i: nat) {
    op.ReceiveOp? && op.peers == [listed] && op.parcel.kind == FileKind && SealedBy(me, peer, 60 * i + 59, op.parcel, op.clock)
  }

  lemma {:induction false} HintClimbs(me: PrivateKey, listed: string, peer: NodeId, ops: seq<Op>)
    requires NodeOf(listed) == Some(peer) && peer != PublicKeyOf(me) && Climb(me, listed, peer, ops)
    ensures ValidRun(ops) && Climbed(me, After(me, Db(map[], []), ops), listed, |ops|)
  {
    if ops == [] {
      NothingClimbed(me, listed);
    } else {
      var n := |ops| - 1;
      var front, op := ops[..n], ops[n];
      assert ClimbAt(me, listed, peer, op, n) && op == ReceiveOp([listed], op.parcel, op.clock);
      HintClimbs(me, listed, peer, front);
      ClimbOnce(me, front, listed, peer, n, op.parcel, op.clock);
      assert ops == front + [op];
    }
  }

  /** Received from a peer listed under one spelling, they move that spelling's hint by sixty each. */
  lemma HintBySixties(me: PrivateKey, listed: string, peer: NodeId, heads: seq<Head>, file: FileInner, clock: nat)
    requires NodeOf(listed) == Some(peer) && peer != PublicKeyOf(me) && |heads| <= 10
    requires forall i :: 0 <= i < |heads| ==> NonceTimely(heads[i].1, clock)
    ensures Climbed(me, After(me, Db(map[], []), FileOps(me, listed, peer, heads, file, clock)), listed, |heads|)
  {
    var ops := FileOps(me, listed, peer, heads, file, clock);
    forall i | 0 <= i < |ops| ensures ClimbAt(me, listed, peer, ops[i], i) {
      FileIsSealed(me, peer, 60 * i + 59, heads[i], file, clock);
    }
    HintClimbs(me, listed, peer, ops);
  }

  /** A message that comes after ten such files, at counter 600. */
  function TenFilesThen(me: PrivateKey, listed: string, peer: NodeId, heads: seq<Head>, file: FileInner, p: Parcel, clock: nat): seq<Op> {
    FileOps(me, listed, peer, heads, file, clock) + [ReceiveOp([listed], p, clock)]
  }

  lemma RowAt600(me: PrivateKey, listed: string, peer: NodeId, heads: seq<Head>, file: FileInner, p: Parcel, inner: DmInner, clock: nat)
    requires NodeOf(listed) == Some(peer) && peer != PublicKeyOf(me) && |heads| == 10
    requires forall i :: 0 <= i < |heads| ==> NonceTimely(heads[i].1, clock)
    requires p.kind == DmKind && SealedBy(me, peer, 600, p, clock) && p.cipher.plain == DmPlain(inner)
    ensures var db := After(me, Db(map[], []), TenFilesThen(me, listed, peer, heads, file, p, clock));
            && db.messages == [ReceivedRow(inner, p, 600, clock)] && View(me, db, listed).recvHint == 601
            && forall other :: NodeOf(other).Some? && other != listed ==> View(me, db, other).recvHint == 0
  {
    HintBySixties(me, listed, peer, heads, file, clock);
    var ops := FileOps(me, listed, peer, heads, file, clock);
    OneMoreOp(me, Db(map[], []), ops, ReceiveOp([listed], p, clock));
    var db := After(me, Db(map[], []), ops);
    WindowIsExact(me, db, [listed], listed, 600, p, clock);
    ReceiveMoves(me, db, [listed], p, clock);
  }

  /** The row of that message, read with a session whose hint is 0: its counter shows it, the search does not. */
  lemma HiddenInSearch(me: PrivateKey, peer: NodeId, p: Parcel, inner: DmInner, s: Session, clock: nat)
    requires p.kind == DmKind && SealedBy(me, peer, 600, p, clock) && p.cipher.plain == DmPlain(inner)
    requires inner.senderId != NameOf(PublicKeyOf(me)) && s.recvHint == 0
    ensures var row := ReceivedRow(inner, p, 600, clock);
            && ReadRow(me, peer, row, s, clock) == Some((inner.text, inner.timestamp))
            && ReadRow(me, peer, Legacy(row), s, clock) == None
  {
    var row := ReceivedRow(inner, p, 600, clock);
    TryCounterIff(me, peer, row, 600, clock);
    LegacyRowShows(me, row, peer, 600, s, clock);
  }

  /**
   * Two spellings break the search without any migration. After ten files - of any ids, so of ten different ones -
   * the hint of a peer listed under one spelling is 600; the message it then sends at counter 600 is read back
   * under the other spelling. The stored counter shows it; had the row come without one, the search would end at
   * 560 and show nothing.
   */
  lemma SpellingHidesRow(me: PrivateKey, listed: string, shown: string, peer: NodeId, heads: seq<Head>, file: FileInner,
                         p: Parcel, inner: DmInner, clock: nat)
    requires listed != shown && NodeOf(listed) == NodeOf(shown) == Some(peer) && peer != PublicKeyOf(me)
    requires |heads| == 10 && forall i :: 0 <= i < |heads| ==> NonceTimely(heads[i].1, clock)
    requires p.kind == DmKind && SealedBy(me, peer, 600, p, clock) && p.cipher.plain == DmPlain(inner)
    requires inner.senderId == shown && shown != NameOf(PublicKeyOf(me))
    ensures var db := After(me, Db(map[], []), TenFilesThen(me, listed, peer, heads, file, p, clock));
            && |db.messages| == 1 && db.messages[0].senderId == shown
            && (var s := Fetched(me, db, shown, peer);
                && ReadRow(me, peer, db.messages[0], s, clock) == Some((inner.text, inner.timestamp))
                && ReadRow(me, peer, Legacy(db.messages[0]), s, clock) == None)
  {
    RowAt600(me, listed, peer, heads, file, p, inner, clock);
    var db := After(me, Db(map[], []), TenFilesThen(me, listed, peer, heads, file, p, clock));
    HiddenInSearch(me, peer, p, inner, Fetched(me, db, shown, peer), clock);
  }

  /** The migration hides a message even if every id is spelled in one way: its peer's hint is 0 again. */
  lemma MigrationHidesRow(me: PrivateKey, peer: NodeId, heads: seq<Head>, file: FileInner, p: Parcel, inner: DmInner, clock: nat)
    requires peer != PublicKeyOf(me) && inner.senderId == NameOf(peer)
    requires |heads| == 10 && forall i :: 0 <= i < |heads| ==> NonceTimely(heads[i].1, clock)
    requires p.kind == DmKind && SealedBy(me, peer, 600, p, clock) && p.cipher.plain == DmPlain(inner)
    ensures var db, name := After(me, Db(map[], []), TenFilesThen(me, NameOf(peer), peer, heads, file, p, clock)), NameOf(peer);
            && |db.messages| == 1 == |Migrated(db).messages|
            && ReadRow(me, peer, db.messages[0], Fetched(me, db, name, peer), clock) == Some((inner.text, inner.timestamp))
            && ReadRow(me, peer, Migrated(db).messages[0], Fetched(me, Migrated(db), name, peer), clock) == None
  {
    var name := NameOf(peer);
    NameRoundTrip(peer);
    NameRoundTrip(PublicKeyOf(me));
    RowAt600(me, name, peer, heads, file, p, inner, clock);
    var db := After(me, Db(map[], []), TenFilesThen(me, name, peer, heads, file, p, clock));
    MigratedFetch(me, db, name, peer);
    HiddenInSearch(me, peer, p, inner, Fetched(me, Migrated(db), name, peer), clock);
    assert Migrated(db).messages[0] == Legacy(db.messages[0]);
  }

  // ---- healing ------------------------------------------------------------------------------

  ghost predicate UniqueRowIds(rows: seq<StoredMessage>) {
    forall i, j :: 0 <= i < j < |rows| ==> rows[i].id != rows[j].id
  }

  /** Writing back the counter a search found does not change what its row shows. */
  lemma HealedRowReadsSame(me: PrivateKey, peer: NodeId, row: StoredMessage, s: Session, clock: nat)
    requires row.msgCounter < 0 && FirstCounter(me, peer, row, 0, SearchEnd(me, row, s), clock).Some?
    ensures var c := FirstCounter(me, peer, row, 0, SearchEnd(me, row, s), clock).value;
            ReadRow(me, peer, row.(msgCounter := c), s, clock) == ReadRow(me, peer, row, s, clock)
  {
    var c := FirstCounter(me, peer, row, 0, SearchEnd(me, row, s), clock).value;
    assert TryCounter(me, peer, row.(msgCounter := c), c, clock) == TryCounter(me, peer, row, c, clock);
  }

  lemma HealRowKeepsReads(me: PrivateKey, db: Db, peer: NodeId, msg: StoredMessage, s: Session, clock: nat, i: nat)
    requires UniqueRowIds(db.messages) && msg in db.messages && i < |db.messages|
    ensures var db' := HealRow(me, db, peer, msg, s, clock);
            && |db'.messages| == |db.messages| && UniqueRowIds(db'.messages)
            && db'.messages[i].id == db.messages[i].id
            && (db.messages[i].id != msg.id ==> db'.messages[i] == db.messages[i])
            && ReadRow(me, peer, db'.messages[i], s, clock) == ReadRow(me, peer, db.messages[i], s, clock)
  {
    var found := FirstCounter(me, peer, msg, 0, SearchEnd(me, msg, s), clock);
    if msg.msgCounter < 0 && found.Some? && db.messages[i].id == msg.id {
      assert db.messages[i] == msg;
      HealedRowReadsSame(me, peer, msg, s, clock);
    }
  }

  /**
   * Reading a conversation - which may write counters back into any number of its rows - leaves every row of
   * the database showing what it showed before.
   */
  lemma {:induction false} HealingKeepsReads(me: PrivateKey, db: Db, peer: NodeId, rows: seq<StoredMessage>, s: Session, clock: nat, i: nat)
    requires UniqueRowIds(db.messages) && UniqueRowIds(rows) && i < |db.messages|
    requires forall row :: row in rows ==> row in db.messages
    ensures var db' := HealRows(me, db, peer, rows, s, clock);
            |db'.messages| == |db.messages|
            && ReadRow(me, peer, db'.messages[i], s, clock) == ReadRow(me, peer, db.messages[i], s, clock)
    decreases |rows|
  {
    if rows != [] {
      assert rows[0] in rows;
      var db1 := HealRow(me, db, peer, rows[0], s, clock);
      HealRowKeepsReads(me, db, peer, rows[0], s, clock, i);
      forall row | row in rows[1..] ensures row in db1.messages {
        var j :| 0 <= j < |rows| - 1 && rows[1..][j] == row;
        assert row == rows[j + 1] && row in rows;
        var k :| 0 <= k < |db.messages| && db.messages[k] == row;
        HealRowKeepsReads(me, db, peer, rows[0], s, clock, k);
        assert db1.messages[k] == row;
      }
      HealingKeepsReads(me, db1, peer, rows[1..], s, clock, i);
    }
  }

  /** A row after the read: with the counter its search found, if it had none and was among the rows read. */
  function Healed(me: PrivateKey, peer: NodeId, row: StoredMessage, rows: seq<StoredMessage>, s: Session, clock: nat): StoredMessage {
    var found := FirstCounter(me, peer, row, 0, SearchEnd(me, row, s), clock);
    if row in rows && row.msgCounter < 0 && found.Some? then row.(msgCounter := found.value) else row
  }

  lemma HealRowExactly(me: PrivateKey, db: Db, peer: NodeId, msg: StoredMessage, s: Session, clock: nat)
    requires UniqueRowIds(db.messages) && msg in db.messages
    ensures var db' := HealRow(me, db, peer, msg, s, clock);
            && |db'.messages| == |db.messages| && UniqueRowIds(db'.messages)
            && forall i :: 0 <= i < |db.messages| ==> db'.messages[i] == Healed(me, peer, db.messages[i], [msg], s, clock)
  {
    forall i | 0 <= i < |db.messages| && db.messages[i].id == msg.id ensures db.messages[i] == msg {
      var j :| 0 <= j < |db.messages| && db.messages[j] == msg;
      assert i == j;
    }
  }

  lemma {:induction false} HealRowsExactly(me: PrivateKey, db: Db, peer: NodeId, rows: seq<StoredMessage>, s: Session, clock: nat)
    requires UniqueRowIds(db.messages) && UniqueRowIds(rows) && forall row :: row in rows ==> row in db.messages
    ensures var db' := HealRows(me, db, peer, rows, s, clock);
            && |db'.messages| == |db.messages|
            && forall i :: 0 <= i < |db.messages| ==> db'.messages[i] == Healed(me, peer, db.messages[i], rows, s, clock)
    decreases |rows|
  {
    if rows != [] {
      assert rows[0] in rows;
      var db1, rest := HealRow(me, db, peer, rows[0], s, clock), rows[1..];
      HealRowExactly(me, db, peer, rows[0], s, clock);
      forall row | row in rest ensures row in db1.messages && row != rows[0] {
        var j :| 0 <= j < |rest| && rest[j] == row;
        assert row == rows[j + 1] && row in rows;
        var k :| 0 <= k < |db.messages| && db.messages[k] == row;
        assert db1.messages[k] == row;
      }
      HealRowsExactly(me, db1, peer, rest, s, clock);
      forall i | 0 <= i < |db.messages|
        ensures Healed(me, peer, db1.messages[i], rest, s, clock) == Healed(me, peer, db.messages[i], rows, s, clock)
      {
        assert db.messages[i] in rows <==> db.messages[i] == rows[0] || db.messages[i] in rest;
        HeadIsNotInRest(db.messages[i], rows, db1.messages[i]);
      }
    }
  }

  /** A healed head row has the id of the head, so it is none of the rows behind it. */
  lemma HeadIsNotInRest(row: StoredMessage, rows: seq<StoredMessage>, row1: StoredMessage)
    requires rows != [] && UniqueRowIds(rows) && row1.id == row.id
    ensures row == rows[0] ==> row1 !in rows[1..]
  {
    forall other | other in rows[1..] ensures other.id != rows[0].id {
      var j :| 0 <= j < |rows| - 1 && rows[1..][j] == other;
      assert other == rows[j + 1];
    }
  }

  /**
   * A read writes a lost counter back exactly into the rows it shows: such a row now holds the counter it was sealed
   * at, so that one attempt opens it, and every other row is as it was.
   */
  lemma ReadingHeals(me: PrivateKey, db: Db, with: string, rows: seq<StoredMessage>, clock: nat, i: nat, c: nat)
    requires NodeOf(with).Some? && Bounded(me, db, U64 - 60) && i < |db.messages|
    requires UniqueRowIds(db.messages) && UniqueRowIds(rows) && forall row :: row in rows ==> row in db.messages
    requires CounterKnownOrLost(me, NodeOf(with).value, db.messages[i], c)
    ensures var db', row := GetMessages(me, db, with, rows, clock).0, db.messages[i];
            && |db'.messages| == |db.messages|
            && db'.messages[i] == if row in rows && OpensNow(me, row, c, View(me, db, with), clock) then row.(msgCounter := c) else row
  {
    var peer, row := NodeOf(with).value, db.messages[i];
    var s := Fetched(me, db, with, peer);
    HealRowsExactly(me, GetOrCreate(db, with, Ecdh(me, peer)).0, peer, rows, s, clock);
    RowIsShown(me, peer, row, c, s, clock);
    assert OpensNow(me, row, c, s, clock) <==> OpensNow(me, row, c, View(me, db, with), clock);
  }

  // ---- what every operation keeps -----------------------------------------------------------------

  /** Rows are only appended, one at a time, and keep everything but their counters. */
  ghost predicate RowsStay(before: seq<StoredMessage>, after: seq<StoredMessage>) {
    && |before| <= |after| <= |before| + 1
    && forall i :: 0 <= i < |before| ==> after[i] == before[i].(msgCounter := after[i].msgCounter)
  }

  ghost predicate UniqueIds(rows: seq<StoredMessage>) {
    forall i, j :: 0 <= i < j < |rows| ==> rows[i].id != rows[j].id && rows[i].packetId != rows[j].packetId
  }

  lemma {:induction false} HealRowsStay(me: PrivateKey, db: Db, peer: NodeId, rows: seq<StoredMessage>, s: Session, clock: nat)
    ensures var after := HealRows(me, db, peer, rows, s, clock).messages;
            |after| == |db.messages| && RowsStay(db.messages, after)
    decreases |rows|
  {
    if rows != [] {
      HealRowsStay(me, HealRow(me, db, peer, rows[0], s, clock), peer, rows[1..], s, clock);
    }
  }

  /** No operation drops or rewrites a row, and none stores a row id or packet id a second time. */
  lemma OpKeepsRows(me: PrivateKey, db: Db, op: Op)
    requires ValidOp(op)
    ensures RowsStay(db.messages, Apply(me, db, op).messages)
    ensures UniqueIds(db.messages) ==> UniqueIds(Apply(me, db, op).messages)
  {
    match op
    case SendOp(to, r, e) =>
      SendRefusedFor(me, db, to, r, e);
      if Send(me, db, to, r, e).1.Ok? {
        SentIsStoredIff(me, db, to, r, e);
      }
    case ReceiveOp(peers, p, clock) =>
      ReceiveMoves(me, db, peers, p, clock);
      var found := Receive(me, db, peers, p, clock).1;
      if found.Some? && found.value.plain.DmPlain? {
        ReceivedIsStoredIff(me, db, peers, p, clock);
      }
    case ReadOp(with, rows, clock) =>
      if NodeOf(with).Some? {
        var peer := NodeOf(with).value;
        HealRowsStay(me, GetOrCreate(db, with, Ecdh(me, peer)).0, peer, rows, Fetched(me, db, with, peer), clock);
      }
  }

  /** So in every run from an empty database row ids and packet ids are unique, and a stored row stays where it is. */
  lemma {:induction false} RunKeepsRows(me: PrivateKey, ops: seq<Op>, k: nat)
    requires ValidRun(ops) && k <= |ops|
    ensures var early, late := After(me, Db(map[], []), ops[..k]).messages, After(me, Db(map[], []), ops).messages;
            && UniqueIds(late) && |early| <= |late|
            && forall i :: 0 <= i < |early| ==> late[i] == early[i].(msgCounter := late[i].msgCounter)
  {
    if k < |ops| {
      var front := ops[..|ops| - 1];
      RunKeepsRows(me, front, k);
      assert front[..k] == ops[..k];
      OpKeepsRows(me, After(me, Db(map[], []), front), ops[|ops| - 1]);
    } else if ops != [] {
      assert ops[..k] == ops;
      RunKeepsRows(me, ops[..k - 1], k - 1);
      OpKeepsRows(me, After(me, Db(map[], []), ops[..k - 1]), ops[k - 1]);
    }
  }
}
