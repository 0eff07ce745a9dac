/** The two tables the message layer lives on: one session row per peer, and the stored messages. */
module SessionStore {
  import opened Bytes
  import opened Packets
  import opened Keys

  /** `id` is whatever blob the row holds; rows older than derived ids can hold anything. */
  datatype Session = Session(id: Bytes, msgCounter: nat, recvHint: nat)

  datatype RowId = SentAs(n: nat) | ReceivedAs(senderPrefix: string, timestamp: nat)

  datatype StoredMessage = StoredMessage(
    id: RowId, packetId: PacketId, senderId: string, recipientId: string,
    nonce: Bytes16, cipher: Cipher, receivedAt: nat, delivered: bool, msgCounter: int)

  datatype Db = Db(sessions: map<string, Session>, messages: seq<StoredMessage>)

  /** A blob of the wrong length is read as eight zero bytes. */
  function StoredId(s: Session): Bytes8 {
    if |s.id| == 8 then s.id else ZERO8
  }

  /** The row a call leaves behind: kept if its id is the derived one, otherwise reset or created. */
  function Row(db: Db, peer: string, secret: SharedSecret): Session {
    var expected := DeriveSessionId(secret);
    if peer in db.sessions && StoredId(db.sessions[peer]) == expected then db.sessions[peer]
    else Session(expected, 0, 0)
  }

  function GetOrCreate(db: Db, peer: string, secret: SharedSecret): (Db, Bytes8, nat) {
    var row := Row(db, peer, secret);
    (db.(sessions := db.sessions[peer := row]), DeriveSessionId(secret), row.msgCounter)
  }

  /**
   * A row is kept exactly if its blob is the derived id - read as zeros if it is not eight bytes long; otherwise both
   * counters start again at 0 under the derived id. No other row and no message changes.
   */
  lemma RowIsKeptIff(db: Db, peer: string, secret: SharedSecret)
    ensures var (db', id, counter) := GetOrCreate(db, peer, secret);
            && id == DeriveSessionId(secret) && db'.messages == db.messages && db'.sessions.Keys == db.sessions.Keys + {peer}
            && (forall other :: other in db.sessions && other != peer ==> db'.sessions[other] == db.sessions[other])
            && counter == db'.sessions[peer].msgCounter
            && (if peer in db.sessions && (db.sessions[peer].id == id || (|db.sessions[peer].id| != 8 && id == seq(8, _ => 0)))
                then db'.sessions[peer] == db.sessions[peer]
                else db'.sessions[peer] == Session(id, 0, 0))
            && GetOrCreate(db', peer, secret) == (db', id, counter)
  {
    assert ZERO8 == seq(8, _ => 0);
    var db' := GetOrCreate(db, peer, secret).0;
    assert db'.sessions[peer := db'.sessions[peer]] == db'.sessions;
  }

  function RecvHint(db: Db, peer: string): nat {
    if peer in db.sessions then db.sessions[peer].recvHint else 0
  }

  /** Fails on a missing row, when the counter is read back. */
  function Increment(db: Db, peer: string): Option<Db> {
    if peer !in db.sessions then None
    else Some(db.(sessions := db.sessions[peer := db.sessions[peer].(msgCounter := db.sessions[peer].msgCounter + 1)]))
  }

  function Max(a: nat, b: nat): nat { if a < b then b else a }

  function BumpHint(db: Db, peer: string, next: nat): Db {
    if peer !in db.sessions then db
    else db.(sessions := db.sessions[peer := db.sessions[peer].(recvHint := Max(db.sessions[peer].recvHint, next))])
  }

  /** Insert or ignore: a row with a used id or packet id is silently not stored. */
  function Save(db: Db, msg: StoredMessage): Db {
    if exists i :: 0 <= i < |db.messages| && (db.messages[i].id == msg.id || db.messages[i].packetId == msg.packetId) then db
    else db.(messages := db.messages + [msg])
  }

  function WithCounter(msg: StoredMessage, id: RowId, counter: nat): StoredMessage {
    if msg.id == id then msg.(msgCounter := counter) else msg
  }

  function SetCounter(db: Db, id: RowId, counter: nat): Db {
    db.(messages := seq(|db.messages|, i requires 0 <= i < |db.messages| => WithCounter(db.messages[i], id, counter)))
  }

  /** The database connection; every operation changes its tables in place. */
  class Database {
    var sessions: map<string, Session>
    var messages: seq<StoredMessage>

    ghost function Value(): Db
      reads this
    {
      Db(sessions, messages)
    }

    constructor ()
      ensures Value() == Db(map[], [])
    {
      sessions, messages := map[], [];
    }

    method GetOrCreateSession(peer: string, secret: SharedSecret) returns (id: Bytes8, counter: nat)
      modifies this
      ensures (Value(), id, counter) == GetOrCreate(old(Value()), peer, secret)
    {
      var expected := DeriveSessionId(secret);
      if peer in sessions {
        var existing := sessions[peer];
        var stored: Bytes8 := ZERO8;
        if |existing.id| == 8 {
          stored := existing.id;
        }
        if stored == expected {
          assert sessions[peer := existing] == sessions;
          return expected, existing.msgCounter;
        }
        sessions := sessions[peer := existing.(id := expected, msgCounter := 0, recvHint := 0)];
        return expected, 0;
      }
      sessions := sessions[peer := Session(expected, 0, 0)];
      return expected, 0;
    }

    method IncrementMsgCounter(peer: string) returns (ok: bool)
      modifies this
      ensures match Increment(old(Value()), peer)
              case Some(db) => ok && Value() == db
              case None => !ok && Value() == old(Value())
    {
      if peer !in sessions {
        return false;
      }
      sessions := sessions[peer := sessions[peer].(msgCounter := sessions[peer].msgCounter + 1)];
      return true;
    }

    method GetRecvCounterHint(peer: string) returns (hint: nat)
      ensures hint == RecvHint(Value(), peer) == if peer in sessions then sessions[peer].recvHint else 0
    {
      hint := if peer in sessions then sessions[peer].recvHint else 0;
    }

    method BumpRecvCounterHint(peer: string, next: nat)
      modifies this
      ensures Value() == BumpHint(old(Value()), peer, next)
    {
      if peer in sessions {
        sessions := sessions[peer := sessions[peer].(recvHint := Max(sessions[peer].recvHint, next))];
      }
    }

    /** Scans for a conflicting key before it appends. */
    method SaveMessage(msg: StoredMessage)
      modifies this
      ensures Value() == Save(old(Value()), msg)
    {
      var i := 0;
      while i < |messages|
        invariant 0 <= i <= |messages|
        invariant forall j :: 0 <= j < i ==> messages[j].id != msg.id && messages[j].packetId != msg.packetId
      {
        if messages[i].id == msg.id || messages[i].packetId == msg.packetId {
          return;
        }
        i := i + 1;
      }
      messages := messages + [msg];
    }

    method SetMessageCounter(id: RowId, counter: nat)
      modifies this
      ensures Value() == SetCounter(old(Value()), id, counter)
    {
      ghost var before := messages;
      var i := 0;
      while i < |messages|
        invariant 0 <= i <= |messages| == |before|
        invariant sessions == old(sessions)
        invariant forall j :: 0 <= j < |messages| ==> messages[j] == if j < i then WithCounter(before[j], id, counter) else before[j]
      {
        messages := messages[i := WithCounter(messages[i], id, counter)];
        i := i + 1;
      }
    }
  }
}
