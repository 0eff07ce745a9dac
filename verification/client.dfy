/** The commands as they run: step by step over the database, with the loops over peers, counters and rows. */
module Client {
  import opened Bytes
  import opened Packets
  import opened Keys
  import opened SessionStore
  import opened Commands

  class CommandLayer {
    const me: PrivateKey
    const db: Database

    constructor (me: PrivateKey)
      ensures this.me == me && fresh(db) && db.Value() == Db(map[], [])
    {
      this.me := me;
      db := new Database();
    }

    method SendParcel(to: string, r: Request, e: Chance) returns (out: Result<Parcel, SendError>)
      requires ValidChance(e)
      modifies db
      ensures (db.Value(), out) == Send(me, old(db.Value()), to, r, e)
    {
      if r.Text? {
        if Blank(r.text) {
          return Err(EmptyText);
        }
        if ByteLength(r.text) > MAX_TEXT {
          return Err(TextTooLong);
        }
      }
      var decoded := NodeOf(to);
      if decoded.None? {
        return Err(BadRecipient);
      }
      var peer := decoded.value;
      var session, counter := db.GetOrCreateSession(to, Ecdh(me, peer));
      var parcel := SealParcel(me, to, peer, r, session, counter, e);
      if r.Text? {
        db.SaveMessage(SentRow(PublicKeyOf(me), to, parcel, counter, e.now));
      }
      var ok := db.IncrementMsgCounter(to);
      if !ok {
        return Err(DatabaseError);
      }
      return Ok(parcel);
    }

    /** Tries a range of counters one by one and stops at the first that opens the parcel. */
    method TryWindow(peer: NodeId, session: Bytes8, lo: nat, hi: nat, p: Parcel, clock: nat) returns (hit: Option<(nat, Plain)>)
      ensures match FirstOpening(me, peer, session, lo, hi, p, clock)
              case None => hit == None
              case Some(c) => hit == Some((c, Attempt(me, peer, session, c, p, clock).value))
    {
      var counter := lo;
      while counter < hi
        invariant FirstOpening(me, peer, session, counter, hi, p, clock) == FirstOpening(me, peer, session, lo, hi, p, clock)
        decreases hi - counter
      {
        var plain := Attempt(me, peer, session, counter, p, clock);
        if plain.Some? {
          return Some((counter, plain.value));
        }
        counter := counter + 1;
      }
      return None;
    }

    /** Makes sure the peer's session row is there, then tries its window. */
    method TryPeer(name: string, peer: NodeId, p: Parcel, clock: nat) returns (found: Option<Opened>)
      modifies db
      ensures (db.Value(), found) == SearchPeer(me, old(db.Value()), name, peer, p, clock)
    {
      var session, _ := db.GetOrCreateSession(name, Ecdh(me, peer));
      var hint := db.GetRecvCounterHint(name);
      var hit := TryWindow(peer, session, WindowStart(hint), WindowEnd(hint), p, clock);
      return if hit.Some? then Some(Opened(name, peer, hit.value.0, hit.value.1)) else None;
    }

    method TryDecrypt(peers: seq<string>, p: Parcel, clock: nat) returns (found: Option<Opened>)
      modifies db
      ensures (db.Value(), found) == Receive(me, old(db.Value()), peers, p, clock)
    {
      var i := 0;
      while i < |peers|
        invariant 0 <= i <= |peers|
        invariant Search(me, db.Value(), peers[i..], p, clock) == Search(me, old(db.Value()), peers, p, clock)
      {
        assert peers[i..][0] == peers[i] && peers[i..][1..] == peers[i + 1..];
        var decoded := NodeOf(peers[i]);
        if decoded.Some? {
          found := TryPeer(peers[i], decoded.value, p, clock);
          if found.Some? {
            var o := found.value;
            if o.plain.DmPlain? {
              db.SaveMessage(ReceivedRow(o.plain.dm, p, o.counter, clock));
            }
            db.BumpRecvCounterHint(o.name, o.counter + 1);
            return;
          }
        }
        i := i + 1;
      }
      return None;
    }

    /** One row of the history: a single attempt if its counter is known, else a search that heals the row. */
    method ReadOne(peer: NodeId, msg: StoredMessage, s: Session, clock: nat) returns (text: Option<(string, nat)>)
      modifies db
      ensures text == ReadRow(me, peer, msg, s, clock)
      ensures db.Value() == HealRow(me, old(db.Value()), peer, msg, s, clock)
    {
      if msg.msgCounter >= 0 {
        var inner := TryCounter(me, peer, msg, msg.msgCounter, clock);
        return if inner.Some? then Some((inner.value.text, inner.value.timestamp)) else None;
      }
      var counter, end := 0, SearchEnd(me, msg, s);
      while counter < end
        invariant counter <= end
        invariant FirstCounter(me, peer, msg, counter, end, clock) == FirstCounter(me, peer, msg, 0, end, clock)
        invariant db.Value() == old(db.Value())
        decreases end - counter
      {
        var inner := TryCounter(me, peer, msg, counter, clock);
        if inner.Some? {
          db.SetMessageCounter(msg.id, counter);
          return Some((inner.value.text, inner.value.timestamp));
        }
        counter := counter + 1;
      }
      return None;
    }

    method ReadMessages(with: string, rows: seq<StoredMessage>, clock: nat) returns (texts: Option<seq<Option<(string, nat)>>>)
      modifies db
      ensures (db.Value(), texts) == GetMessages(me, old(db.Value()), with, rows, clock)
    {
      var decoded := NodeOf(with);
      if decoded.None? {
        return None;
      }
      var peer := decoded.value;
      var session, sendCounter := db.GetOrCreateSession(with, Ecdh(me, peer));
      var hint := db.GetRecvCounterHint(with);
      var s := Session(session, sendCounter, hint);
      ghost var entry := db.Value();
      var seen: seq<Option<(string, nat)>> := [];
      var i := 0;
      while i < |rows|
        invariant 0 <= i <= |rows|
        invariant seen == Texts(me, peer, rows, s, clock)[..i]
        invariant HealRows(me, db.Value(), peer, rows[i..], s, clock) == HealRows(me, entry, peer, rows, s, clock)
      {
        assert rows[i..][0] == rows[i] && rows[i..][1..] == rows[i + 1..];
        var text := ReadOne(peer, rows[i], s, clock);
        seen := seen + [text];
        i := i + 1;
      }
      assert rows[|rows|..] == [] && seen == Texts(me, peer, rows, s, clock);
      return Some(seen);
    }
  }
}
