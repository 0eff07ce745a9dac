/** Whole runs of one node's message layer: sends, receptions and history reads in any order, with any peers. */
module SessionRuns {
  import opened Bytes
  import opened Packets
  import opened Crypto
  import opened Keys
  import opened SessionStore
  import opened Commands
  import opened Sessions

  datatype Op =
    | SendOp(to: string, request: Request, chance: Chance)
    | ReceiveOp(peers: seq<string>, parcel: Parcel, clock: nat)
    | ReadOp(with: string, rows: seq<StoredMessage>, clock: nat)

  predicate ValidOp(op: Op) { op.SendOp? ==> ValidChance(op.chance) }

  predicate ValidRun(ops: seq<Op>) { forall i :: 0 <= i < |ops| ==> ValidOp(ops[i]) }

  function Apply(me: PrivateKey, db: Db, op: Op): Db
    requires ValidOp(op)
  {
    match op
    case SendOp(to, r, e) => Send(me, db, to, r, e).0
    case ReceiveOp(peers, p, clock) => Receive(me, db, peers, p, clock).0
    case ReadOp(with, rows, clock) => GetMessages(me, db, with, rows, clock).0
  }

  function After(me: PrivateKey, db: Db, ops: seq<Op>): Db
    requires ValidRun(ops)
  {
    if ops == [] then db else Apply(me, After(me, db, ops[..|ops| - 1]), ops[|ops| - 1])
  }

  lemma OneMoreOp(me: PrivateKey, db: Db, ops: seq<Op>, op: Op)
    requires ValidRun(ops) && ValidOp(op)
    ensures ValidRun(ops + [op]) && After(me, db, ops + [op]) == Apply(me, After(me, db, ops), op)
  {
    assert (ops + [op])[..|ops|] == ops;
  }

  // ---- effects on the counters --------------------------------------------------------------

  lemma {:induction false} HealKeepsSessions(me: PrivateKey, db: Db, peer: NodeId, rows: seq<StoredMessage>, s: Session, clock: nat)
    ensures HealRows(me, db, peer, rows, s, clock).sessions == db.sessions
    decreases |rows|
  {
    if rows != [] {
      HealKeepsSessions(me, HealRow(me, db, peer, rows[0], s, clock), peer, rows[1..], s, clock);
    }
  }

  lemma ReadMoves(me: PrivateKey, db: Db, with: string, rows: seq<StoredMessage>, clock: nat)
    ensures SameViews(me, db, GetMessages(me, db, with, rows, clock).0)
  {
    if NodeOf(with).Some? {
      var peer := NodeOf(with).value;
      GetOrCreateKeepsViews(me, db, with);
      HealKeepsSessions(me, GetOrCreate(db, with, Ecdh(me, peer)).0, peer, rows, Fetched(me, db, with, peer), clock);
    }
  }

  /** Counters and hints never move back, and no operation moves a counter by more than one. */
  lemma CountersMove(me: PrivateKey, db: Db, op: Op, name: string)
    requires ValidOp(op) && NodeOf(name).Some?
    ensures var a, b := View(me, db, name), View(me, Apply(me, db, op), name);
            && a.msgCounter <= b.msgCounter <= a.msgCounter + 1 && a.recvHint <= b.recvHint
            && (op.SendOp? ==> b.recvHint == a.recvHint)
            && (!op.SendOp? || op.to != name ==> b.msgCounter == a.msgCounter)
  {
    match op
    case SendOp(to, r, e) => SendMoves(me, db, to, r, e);
    case ReceiveOp(peers, p, clock) => ReceiveMoves(me, db, peers, p, clock);
    case ReadOp(with, rows, clock) => ReadMoves(me, db, with, rows, clock);
  }

  lemma {:induction false} CountersBounded(me: PrivateKey, db: Db, ops: seq<Op>, name: string)
    requires ValidRun(ops) && NodeOf(name).Some?
    ensures var a, b := View(me, db, name), View(me, After(me, db, ops), name);
            a.msgCounter <= b.msgCounter <= a.msgCounter + |ops| && a.recvHint <= b.recvHint
  {
    if ops != [] {
      CountersBounded(me, db, ops[..|ops| - 1], name);
      CountersMove(me, After(me, db, ops[..|ops| - 1]), ops[|ops| - 1], name);
    }
  }

  // ---- no key is used twice -------------------------------------------------------------------

  /** A parcel that went out: to whom, with which counter, under which key. */
  datatype SentItem = SentItem(to: string, counter: nat, parcel: Parcel)

  function SentBy(me: PrivateKey, db: Db, op: Op): seq<SentItem>
    requires ValidOp(op)
  {
    match op
    case SendOp(to, r, e) =>
      var out := Send(me, db, to, r, e).1;
      if out.Ok? && NodeOf(to).Some? then [SentItem(to, View(me, db, to).msgCounter, out.value)] else []
    case _ => []
  }

  /** Everything sent in a run, in order. */
  function SentIn(me: PrivateKey, db: Db, ops: seq<Op>): seq<SentItem>
    requires ValidRun(ops)
  {
    if ops == [] then []
    else SentIn(me, db, ops[..|ops| - 1]) + SentBy(me, After(me, db, ops[..|ops| - 1]), ops[|ops| - 1])
  }

  /** Every sent parcel is sealed under the key of its peer and counter, and its counter is used up. */
  ghost predicate ItemOk(me: PrivateKey, db: Db, item: SentItem) {
    && NodeOf(item.to).Some? && item.counter < View(me, db, item.to).msgCounter
    && item.parcel.cipher.Sealed?
    && item.parcel.cipher.key == DmKey(PublicKeyOf(me), NodeOf(item.to).value, item.counter)
  }

  ghost predicate CountersDistinct(items: seq<SentItem>) {
    forall i, j :: 0 <= i < j < |items| && items[i].to == items[j].to ==> items[i].counter < items[j].counter
  }

  lemma {:induction false} SentItemsOk(me: PrivateKey, db: Db, ops: seq<Op>)
    requires ValidRun(ops)
    ensures var items := SentIn(me, db, ops);
            (forall i :: 0 <= i < |items| ==> ItemOk(me, After(me, db, ops), items[i])) && CountersDistinct(items)
  {
    if ops != [] {
      var front, op := ops[..|ops| - 1], ops[|ops| - 1];
      SentItemsOk(me, db, front);
      var before := After(me, db, front);
      var items, added := SentIn(me, db, front), SentBy(me, before, op);
      if op.SendOp? {
        SendMoves(me, before, op.to, op.request, op.chance);
      }
      forall i | 0 <= i < |items + added| ensures ItemOk(me, Apply(me, before, op), (items + added)[i]) {
        if i < |items| {
          assert ItemOk(me, before, items[i]);
          CountersMove(me, before, op, items[i].to);
        }
      }
    }
  }

  /**
   * Two parcels of a run share a key exactly if they went to the same node at the same counter - which takes
   * two spellings of that node's id, since each spelling has a session row and a counter of its own.
   */
  lemma KeysCoincideIff(me: PrivateKey, db: Db, ops: seq<Op>, i: nat, j: nat)
    requires ValidRun(ops) && i < j < |SentIn(me, db, ops)|
    requires Bounded(me, db, U64 - |ops|)
    ensures var a, b := SentIn(me, db, ops)[i], SentIn(me, db, ops)[j];
            && a.parcel.cipher.Sealed? && b.parcel.cipher.Sealed?
            && (a.parcel.cipher.key == b.parcel.cipher.key <==>
                a.to != b.to && NodeOf(a.to) == NodeOf(b.to) && a.counter == b.counter)
  {
    SentItemsOk(me, db, ops);
    var items := SentIn(me, db, ops);
    var a, b := items[i], items[j];
    assert ItemOk(me, After(me, db, ops), a) && ItemOk(me, After(me, db, ops), b);
    CountersBounded(me, db, ops, a.to);
    CountersBounded(me, db, ops, b.to);
    if a.parcel.cipher.key == b.parcel.cipher.key {
      DmKeyInjective(PublicKeyOf(me), NodeOf(a.to).value, a.counter, PublicKeyOf(me), NodeOf(b.to).value, b.counter);
    }
  }

  /** Sends the commands do not refuse. */
  predicate Accepted(op: Op) { op.SendOp? && CheckText(op.request).None? && NodeOf(op.to).Some? }

  /** No two accepted sends name one node in two spellings. */
  predicate OneSpelling(ops: seq<Op>) {
    forall i, j :: 0 <= i < |ops| && 0 <= j < |ops| && Accepted(ops[i]) && Accepted(ops[j]) && NodeOf(ops[i].to) == NodeOf(ops[j].to)
      ==> ops[i].to == ops[j].to
  }

  ghost predicate KeysDiffer(a: SentItem, b: SentItem) {
    a.parcel.cipher.Sealed? && b.parcel.cipher.Sealed? && a.parcel.cipher.key != b.parcel.cipher.key
  }

  ghost predicate KeysDistinct(items: seq<SentItem>) {
    forall i, j :: 0 <= i < j < |items| ==> KeysDiffer(items[i], items[j])
  }

  predicate HasFirst(items: seq<SentItem>, name: string) {
    exists i :: 0 <= i < |items| && items[i].to == name && items[i].counter == 0
  }

  lemma HasFirstGrows(items: seq<SentItem>, added: seq<SentItem>, name: string)
    requires HasFirst(items, name) || HasFirst(added, name)
    ensures HasFirst(items + added, name)
  {
    if HasFirst(items, name) {
      var i :| 0 <= i < |items| && items[i].to == name && items[i].counter == 0;
      assert (items + added)[i] == items[i];
    } else {
      var i :| 0 <= i < |added| && added[i].to == name && added[i].counter == 0;
      assert (items + added)[|items| + i] == added[i];
    }
  }

  /** From an empty database, a counter that has moved means a packet went out at counter 0. */
  lemma {:induction false} MovedMeansFirst(me: PrivateKey, ops: seq<Op>, name: string)
    requires ValidRun(ops) && NodeOf(name).Some?
    ensures View(me, After(me, Db(map[], []), ops), name).msgCounter > 0 ==> HasFirst(SentIn(me, Db(map[], []), ops), name)
  {
    if ops != [] {
      var db, front, op := Db(map[], []), ops[..|ops| - 1], ops[|ops| - 1];
      MovedMeansFirst(me, front, name);
      var before := After(me, db, front);
      var items, added := SentIn(me, db, front), SentBy(me, before, op);
      CountersMove(me, before, op, name);
      if View(me, before, name).msgCounter > 0 {
        HasFirstGrows(items, added, name);
      } else if op.SendOp? && op.to == name && Accepted(op) {
        SendMoves(me, before, op.to, op.request, op.chance);
        assert added[0].to == name && added[0].counter == 0;
        HasFirstGrows(items, added, name);
      } else if op.SendOp? {
        SendMoves(me, before, op.to, op.request, op.chance);
      }
    }
  }

  lemma {:induction false} AcceptedMeansMoved(me: PrivateKey, db: Db, ops: seq<Op>, k: nat)
    requires ValidRun(ops) && k < |ops| && Accepted(ops[k])
    ensures View(me, After(me, db, ops), ops[k].to).msgCounter > 0
  {
    var front, op := ops[..|ops| - 1], ops[|ops| - 1];
    CountersMove(me, After(me, db, front), op, ops[k].to);
    if k < |ops| - 1 {
      AcceptedMeansMoved(me, db, front, k);
    } else {
      SendMoves(me, After(me, db, front), op.to, op.request, op.chance);
    }
  }

  lemma {:induction false} ItemsAreAccepted(me: PrivateKey, db: Db, ops: seq<Op>, i: nat) returns (k: nat)
    requires ValidRun(ops) && i < |SentIn(me, db, ops)|
    ensures k < |ops| && Accepted(ops[k]) && ops[k].to == SentIn(me, db, ops)[i].to
  {
    var front, op := ops[..|ops| - 1], ops[|ops| - 1];
    if i < |SentIn(me, db, front)| {
      k := ItemsAreAccepted(me, db, front, i);
    } else {
      SendMoves(me, After(me, db, front), op.to, op.request, op.chance);
      k := |ops| - 1;
    }
  }

  /**
   * Over any interleaving of sends, receptions and reads from an empty database, all packets sent have
   * different keys exactly if no two accepted sends name one node in two spellings.
   */
  lemma KeysDistinctIff(me: PrivateKey, ops: seq<Op>)
    requires ValidRun(ops) && |ops| < U64
    ensures KeysDistinct(SentIn(me, Db(map[], []), ops)) <==> OneSpelling(ops)
  {
    if OneSpelling(ops) {
      OneSpellingSuffices(me, Db(map[], []), ops);
    } else {
      var a, b :| 0 <= a < |ops| && 0 <= b < |ops| && Accepted(ops[a]) && Accepted(ops[b])
                  && NodeOf(ops[a].to) == NodeOf(ops[b].to) && ops[a].to != ops[b].to;
      TwoSpellingsCollide(me, ops, a, b);
    }
  }

  /** Whatever the database held before. */
  lemma OneSpellingSuffices(me: PrivateKey, db: Db, ops: seq<Op>)
    requires ValidRun(ops) && Bounded(me, db, U64 - |ops|) && OneSpelling(ops)
    ensures KeysDistinct(SentIn(me, db, ops))
  {
    var items := SentIn(me, db, ops);
    forall i, j | 0 <= i < j < |items| ensures KeysDiffer(items[i], items[j]) {
      SpelledAlike(me, db, ops, i, j);
      KeysCoincideIff(me, db, ops, i, j);
    }
  }

  lemma SpelledAlike(me: PrivateKey, db: Db, ops: seq<Op>, i: nat, j: nat)
    requires ValidRun(ops) && OneSpelling(ops) && i < |SentIn(me, db, ops)| && j < |SentIn(me, db, ops)|
    ensures NodeOf(SentIn(me, db, ops)[i].to) == NodeOf(SentIn(me, db, ops)[j].to) ==>
              SentIn(me, db, ops)[i].to == SentIn(me, db, ops)[j].to
  {
    var k := ItemsAreAccepted(me, db, ops, i);
    var l := ItemsAreAccepted(me, db, ops, j);
  }

  lemma TwoSpellingsCollide(me: PrivateKey, ops: seq<Op>, a: nat, b: nat)
    requires ValidRun(ops) && a < |ops| && b < |ops| && Accepted(ops[a]) && Accepted(ops[b])
    requires NodeOf(ops[a].to) == NodeOf(ops[b].to) && ops[a].to != ops[b].to
    ensures !KeysDistinct(SentIn(me, Db(map[], []), ops))
  {
    var db := Db(map[], []);
    var items := SentIn(me, db, ops);
    AcceptedMeansMoved(me, db, ops, a);
    AcceptedMeansMoved(me, db, ops, b);
    MovedMeansFirst(me, ops, ops[a].to);
    MovedMeansFirst(me, ops, ops[b].to);
    var i :| 0 <= i < |items| && items[i].to == ops[a].to && items[i].counter == 0;
    var j :| 0 <= j < |items| && items[j].to == ops[b].to && items[j].counter == 0;
    SentItemsOk(me, db, ops);
    assert ItemOk(me, After(me, db, ops), items[i]) && ItemOk(me, After(me, db, ops), items[j]);
    assert !KeysDiffer(items[i], items[j]) && !KeysDiffer(items[j], items[i]);
    assert i < j || j < i;
  }

  /** In particular with recipients named in lower-case hex. */
  lemma NoKeyUsedTwice(me: PrivateKey, db: Db, ops: seq<Op>)
    requires ValidRun(ops) && Bounded(me, db, U64 - |ops|)
    requires forall i :: 0 <= i < |ops| && ops[i].SendOp? ==> LowerCase(ops[i].to)
    ensures KeysDistinct(SentIn(me, db, ops))
  {
    assert OneSpelling(ops);
    OneSpellingSuffices(me, db, ops);
  }

  /** Without that condition the property fails: one node's id in two spellings gets the same key twice. */
  lemma TwoSpellingsShareAKey(me: PrivateKey, lower: string, upper: string, r: Request, e1: Chance, e2: Chance)
    requires ValidChance(e1) && ValidChance(e2) && CheckText(r).None?
    requires lower != upper && NodeOf(lower).Some? && NodeOf(lower) == NodeOf(upper)
    ensures var ops := [SendOp(lower, r, e1), SendOp(upper, r, e2)];
            var items := SentIn(me, Db(map[], []), ops);
            |items| == 2 && items[0].parcel.cipher.Sealed? && items[1].parcel.cipher.Sealed?
            && items[0].parcel.cipher.key == items[1].parcel.cipher.key
  {
    var db := Db(map[], []);
    SendMoves(me, db, lower, r, e1);
    SendMoves(me, Send(me, db, lower, r, e1).0, upper, r, e2);
    SentOfTwo(me, db, SendOp(lower, r, e1), SendOp(upper, r, e2));
  }

  lemma SentOfTwo(me: PrivateKey, db: Db, op1: Op, op2: Op)
    requires ValidOp(op1) && ValidOp(op2)
    ensures SentIn(me, db, [op1, op2]) == SentBy(me, db, op1) + SentBy(me, Apply(me, db, op1), op2)
  {
    var ops := [op1, op2];
    assert ops[..1] == [op1] && [op1][..0] == [];
    assert SentIn(me, db, [op1]) == SentBy(me, db, op1);
    assert After(me, db, [op1]) == Apply(me, db, op1);
  }

  /** Such spellings exist, for instance for every node id that starts with the byte 0xAA. */
  lemma SpellingsOfOneNode(rest: Bytes)
    requires |rest| == 31
    ensures var a, b := "aa" + HexEncode(rest), "AA" + HexEncode(rest);
            a != b && NodeOf(a) == NodeOf(b) == Some([0xAA] + rest)
  {
    var tail := HexEncode(rest);
    HexRoundTrip(rest);
    var a, b := "aa" + tail, "AA" + tail;
    assert a[2..] == tail && b[2..] == tail;
    assert a[0] == 'a' && b[0] == 'A';
    assert HexDecode(a) == Some([0xAA] + rest) && HexDecode(b) == Some([0xAA] + rest);
  }

  // ---- the hint over a whole run ----------------------------------------------------------------

  function OpenedBy(me: PrivateKey, db: Db, op: Op): seq<Opened>
    requires ValidOp(op)
  {
    match op
    case ReceiveOp(peers, p, clock) =>
      var found := Receive(me, db, peers, p, clock).1;
      if found.Some? then [found.value] else []
    case _ => []
  }

  function OpenedIn(me: PrivateKey, db: Db, ops: seq<Op>): seq<Opened>
    requires ValidRun(ops)
  {
    if ops == [] then []
    else OpenedIn(me, db, ops[..|ops| - 1]) + OpenedBy(me, After(me, db, ops[..|ops| - 1]), ops[|ops| - 1])
  }

  /** A hint that starts at `hint` and moves past each counter in turn. */
  function HintAfter(hint: nat, counters: seq<nat>): nat {
    if counters == [] then hint
    else Max(HintAfter(hint, counters[..|counters| - 1]), counters[|counters| - 1] + 1)
  }

  /** The counters at which one peer's parcels were opened, in order. */
  function CountersOf(log: seq<Opened>, name: string): seq<nat> {
    if log == [] then []
    else
      CountersOf(log[..|log| - 1], name) +
      if log[|log| - 1].name == name then [log[|log| - 1].counter] else []
  }

  /**
   * Over any run, from any database, a peer's hint follows the counters opened from that peer alone, whatever
   * else was sent, received or read.
   */
  lemma {:induction false} HintIsNextCounter(me: PrivateKey, db: Db, ops: seq<Op>, name: string)
    requires ValidRun(ops) && NodeOf(name).Some?
    ensures View(me, After(me, db, ops), name).recvHint
         == HintAfter(View(me, db, name).recvHint, CountersOf(OpenedIn(me, db, ops), name))
  {
    if ops != [] {
      var front, op := ops[..|ops| - 1], ops[|ops| - 1];
      HintIsNextCounter(me, db, front, name);
      var before := After(me, db, front);
      var log, added := OpenedIn(me, db, front), OpenedBy(me, before, op);
      HintStep(me, before, op, name);
      CountersOfAppend(log, added, name);
      CountersOfAtMostOne(added, name);
      HintAfterAppend(View(me, db, name).recvHint, CountersOf(log, name), CountersOf(added, name));
    }
  }

  lemma CountersOfOne(o: Opened, name: string, hint: nat)
    ensures CountersOf([o], name) == (if o.name == name then [o.counter] else [])
    ensures HintAfter(hint, []) == hint && HintAfter(hint, [o.counter]) == Max(hint, o.counter + 1)
  {
    assert [o][..0] == [] && [o.counter][..0] == [];
  }

  lemma HintStepReceive(me: PrivateKey, db: Db, peers: seq<string>, p: Parcel, clock: nat, name: string)
    requires NodeOf(name).Some?
    ensures var (db', found) := Receive(me, db, peers, p, clock);
            View(me, db', name).recvHint ==
            HintAfter(View(me, db, name).recvHint, CountersOf(if found.Some? then [found.value] else [], name))
  {
    ReceiveMoves(me, db, peers, p, clock);
    var found := Receive(me, db, peers, p, clock).1;
    if found.Some? {
      CountersOfOne(found.value, name, View(me, db, name).recvHint);
    }
  }

  lemma HintStep(me: PrivateKey, db: Db, op: Op, name: string)
    requires ValidOp(op) && NodeOf(name).Some?
    ensures var added := OpenedBy(me, db, op);
            |added| <= 1
            && View(me, Apply(me, db, op), name).recvHint == HintAfter(View(me, db, name).recvHint, CountersOf(added, name))
  {
    match op
    case SendOp(to, r, e) => CountersMove(me, db, op, name);
    case ReadOp(with, rows, clock) => ReadMoves(me, db, with, rows, clock);
    case ReceiveOp(peers, p, clock) => HintStepReceive(me, db, peers, p, clock, name);
  }

  lemma CountersOfAtMostOne(added: seq<Opened>, name: string)
    requires |added| <= 1
    ensures |CountersOf(added, name)| <= 1
  {
    if added != [] {
      CountersOfOne(added[0], name, 0);
      assert added == [added[0]];
    }
  }

  lemma CountersOfAppend(log: seq<Opened>, added: seq<Opened>, name: string)
    requires |added| <= 1
    ensures CountersOf(log + added, name) == CountersOf(log, name) + CountersOf(added, name)
  {
    if added == [] {
      assert log + added == log;
    } else {
      assert (log + added)[..|log|] == log;
    }
  }

  lemma HintAfterAppend(hint: nat, counters: seq<nat>, added: seq<nat>)
    requires |added| <= 1
    ensures HintAfter(hint, counters + added) == HintAfter(HintAfter(hint, counters), added)
  {
    if added == [] {
      assert counters + added == counters;
    } else {
      assert (counters + added)[..|counters|] == counters;
    }
  }

  /** `HintAfter` from 0 is the least bound above all the counters, so 0 exactly if there are none. */
  lemma {:induction false} HintIsLeastBound(counters: seq<nat>)
    ensures forall i :: 0 <= i < |counters| ==> counters[i] < HintAfter(0, counters)
    ensures counters == [] ==> HintAfter(0, counters) == 0
    ensures counters != [] ==> exists i :: 0 <= i < |counters| && HintAfter(0, counters) == counters[i] + 1
  {
    if counters != [] {
      var n := |counters| - 1;
      HintIsLeastBound(counters[..n]);
      if HintAfter(0, counters) == counters[n] + 1 {
      } else {
        var i :| 0 <= i < n && HintAfter(0, counters[..n]) == counters[..n][i] + 1;
        assert counters[i] + 1 == HintAfter(0, counters);
      }
    }
  }

  // ---- receptions inside a run ------------------------------------------------------------------

  /** A hint moves by at most the window with each operation. */
  lemma {:induction false} HintBounded(me: PrivateKey, db: Db, ops: seq<Op>, name: string)
    requires ValidRun(ops) && NodeOf(name).Some?
    ensures View(me, After(me, db, ops), name).recvHint <= View(me, db, name).recvHint + WINDOW_AHEAD * |ops|
  {
    if ops != [] {
      var front, op := ops[..|ops| - 1], ops[|ops| - 1];
      HintBounded(me, db, front, name);
      var before := After(me, db, front);
      CountersMove(me, before, op, name);
      if op.ReceiveOp? {
        SearchFinds(me, before, op.peers, op.parcel, op.clock);
        ReceiveMoves(me, before, op.peers, op.parcel, op.clock);
      } else if op.ReadOp? {
        ReadMoves(me, before, op.with, op.rows, op.clock);
      }
    }
  }

  lemma BoundedAfter(me: PrivateKey, db: Db, ops: seq<Op>, limit: int)
    requires ValidRun(ops) && Bounded(me, db, limit - WINDOW_AHEAD * |ops|)
    ensures Bounded(me, After(me, db, ops), limit)
  {
    forall name | NodeOf(name).Some?
      ensures View(me, After(me, db, ops), name).msgCounter < limit && View(me, After(me, db, ops), name).recvHint < limit
    {
      CountersBounded(me, db, ops, name);
      HintBounded(me, db, ops, name);
    }
  }

  /** The hint for a peer after a run, from the counters opened in it. */
  function HintThen(me: PrivateKey, db: Db, ops: seq<Op>, name: string): nat
    requires ValidRun(ops) && NodeOf(name).Some?
  {
    HintAfter(View(me, db, name).recvHint, CountersOf(OpenedIn(me, db, ops), name))
  }

  /**
   * After any run of sends, receptions from anyone and reads, a packet sealed by a known peer at counter c opens
   * exactly if c is in the window around one above the largest counter opened from that peer.
   */
  lemma OpensExactlyInWindow(me: PrivateKey, db: Db, ops: seq<Op>, peers: seq<string>, name: string, c: nat, p: Parcel, clock: nat)
    requires ValidRun(ops) && DistinctPeers(me, peers) && name in peers && NodeOf(name).Some? && c < U64
    requires Bounded(me, db, U64 - WINDOW_AHEAD - WINDOW_AHEAD * |ops|)
    requires SealedBy(me, NodeOf(name).value, c, p, clock)
    ensures var hint := HintThen(me, db, ops, name);
            Receive(me, After(me, db, ops), peers, p, clock).1 ==
            if hint <= c + 5 && c < hint + 60 then Some(Opened(name, NodeOf(name).value, c, p.cipher.plain)) else None
  {
    BoundedAfter(me, db, ops, U64 - WINDOW_AHEAD);
    HintIsNextCounter(me, db, ops, name);
    WindowIsExact(me, After(me, db, ops), peers, name, c, p, clock);
  }

  /** The j-th operation receives a packet sealed by a known peer at counter c, inside the window as it then stands. */
  ghost predicate ComesInWindow(me: PrivateKey, db: Db, ops: seq<Op>, j: nat, name: string, c: nat)
    requires ValidRun(ops) && j < |ops| && NodeOf(name).Some?
  {
    && ops[j].ReceiveOp? && DistinctPeers(me, ops[j].peers) && name in ops[j].peers && c < U64
    && SealedBy(me, NodeOf(name).value, c, ops[j].parcel, ops[j].clock)
    && (var hint := HintThen(me, db, ops[..j], name); hint <= c + 5 && c < hint + 60)
  }

  /** Any reordering, loss and interleaving that stays in the window at each arrival loses nothing more. */
  lemma NothingLostInWindow(me: PrivateKey, db: Db, ops: seq<Op>, j: nat, name: string, c: nat)
    requires ValidRun(ops) && j < |ops| && NodeOf(name).Some? && Bounded(me, db, U64 - WINDOW_AHEAD - WINDOW_AHEAD * |ops|)
    requires ComesInWindow(me, db, ops, j, name, c)
    ensures ops[j].parcel.cipher.Sealed?
    ensures OpenedBy(me, After(me, db, ops[..j]), ops[j]) == [Opened(name, NodeOf(name).value, c, ops[j].parcel.cipher.plain)]
  {
    OpensExactlyInWindow(me, db, ops[..j], ops[j].peers, name, c, ops[j].parcel, ops[j].clock);
  }

  /** Once the hint is past a packet's counter, only the clock and the back of the window decide. */
  lemma OpensBehindHint(me: PrivateKey, db: Db, peers: seq<string>, name: string, c: nat, p: Parcel, clock: nat, clock': nat)
    requires DistinctPeers(me, peers) && name in peers && NodeOf(name).Some? && c < U64 && Bounded(me, db, U64 - WINDOW_AHEAD)
    requires SealedBy(me, NodeOf(name).value, c, p, clock) && c < View(me, db, name).recvHint
    ensures Receive(me, db, peers, p, clock').1 ==
            if NonceTimely(p.nonce, clock') && View(me, db, name).recvHint <= c + 5
            then Some(Opened(name, NodeOf(name).value, c, p.cipher.plain)) else None
  {
    if NonceTimely(p.nonce, clock') {
      WindowIsExact(me, db, peers, name, c, p, clock');
    } else {
      SearchFinds(me, db, peers, p, clock');
    }
  }

  /**
   * A packet that has been opened opens again, after anything else, exactly while its nonce is still timely and
   * the peer's hint has not moved more than five past its counter.
   */
  lemma OpensAgainIff(me: PrivateKey, db: Db, peers: seq<string>, name: string, c: nat, p: Parcel, clock: nat,
                      ops: seq<Op>, peers': seq<string>, clock': nat)
    requires ValidRun(ops) && NodeOf(name).Some? && c < U64
    requires DistinctPeers(me, peers') && name in peers' && SealedBy(me, NodeOf(name).value, c, p, clock)
    requires Receive(me, db, peers, p, clock).1 == Some(Opened(name, NodeOf(name).value, c, p.cipher.plain))
    requires Bounded(me, Receive(me, db, peers, p, clock).0, U64 - WINDOW_AHEAD - WINDOW_AHEAD * |ops|)
    ensures var later := After(me, Receive(me, db, peers, p, clock).0, ops);
            Receive(me, later, peers', p, clock').1 ==
            if NonceTimely(p.nonce, clock') && View(me, later, name).recvHint <= c + 5
            then Some(Opened(name, NodeOf(name).value, c, p.cipher.plain)) else None
  {
    var db1 := Receive(me, db, peers, p, clock).0;
    ReceiveMoves(me, db, peers, p, clock);
    CountersBounded(me, db1, ops, name);
    BoundedAfter(me, db1, ops, U64 - WINDOW_AHEAD);
    OpensBehindHint(me, After(me, db1, ops), peers', name, c, p, clock, clock');
  }
}
