/** Sending, receiving and reading back direct messages and files, as functions of the database. */
module Commands {
  import opened Bytes
  import opened Packets
  import opened Crypto
  import opened Keys
  import opened SessionStore

  datatype Kind = DmKind | FileKind

  function TypeFor(kind: Kind): PacketType {
    match kind
    case DmKind => Dm
    case FileKind => File
  }

  predicate Parses(kind: Kind, p: Plain) {
    match kind
    case DmKind => p.DmPlain?
    case FileKind => p.FilePlain?
  }

  /** The header both ends authenticate: always with the full TTL, whatever the packet's own has become. */
  function Aad(kind: Kind, id: PacketId): Bytes {
    HeaderBytes(ClampHeader(MAGIC, PROTOCOL_VERSION, TypeFor(kind), TTL_MAX, id))
  }

  /** Different packets, and a DM and a file with the same id, never share associated data. */
  lemma AadInjective(k1: Kind, id1: PacketId, k2: Kind, id2: PacketId)
    requires Aad(k1, id1) == Aad(k2, id2)
    ensures k1 == k2 && id1 == id2
  {
    var a, b := Aad(k1, id1), Aad(k2, id2);
    assert a[3] == TypeCode(TypeFor(k1)) && b[3] == TypeCode(TypeFor(k2));
    assert id1 == a[5..13] == b[5..13] == id2;
  }

  /** A sealed packet as it leaves the sender and as the receiver's command gets it. */
  datatype Parcel = Parcel(kind: Kind, packetId: PacketId, nonce: Bytes16, cipher: Cipher)

  // ---- sending ----------------------------------------------------------------------------

  /** Clock, random nonce tail and random packet id of one send. */
  datatype Chance = Chance(now: nat, nonceTail: Bytes, packetId: PacketId)

  predicate ValidChance(e: Chance) { |e.nonceTail| == 12 }

  datatype SendError = EmptyText | TextTooLong | BadRecipient | DatabaseError

  predicate IsSpace(c: char) {
    var n := c as int;
    9 <= n <= 13 || n == 32 || n == 0x85 || n == 0xA0 || n == 0x1680 || 0x2000 <= n <= 0x200A
    || n == 0x2028 || n == 0x2029 || n == 0x202F || n == 0x205F || n == 0x3000
  }

  predicate Blank(text: string) { forall i :: 0 <= i < |text| ==> IsSpace(text[i]) }

  /** Length in UTF-8 bytes. */
  function ByteLength(text: string): nat {
    if text == "" then 0
    else
      var n := text[0] as int;
      (if n < 0x80 then 1 else if n < 0x800 then 2 else if n < 0x10000 then 3 else 4) + ByteLength(text[1..])
  }

  const MAX_TEXT: nat := 4096

  /** What the user asked to send. */
  datatype Request =
    | Text(text: string, replyToId: Option<string>, replyToText: Option<string>)
    | Attachment(transferId: string, filename: string, mimeType: string, data: Bytes)

  function KindOf(r: Request): Kind { if r.Text? then DmKind else FileKind }

  function PlainFor(r: Request, me: NodeId, to: string, now: nat, session: Bytes8, counter: nat): Plain {
    match r
    case Text(text, replyId, replyText) => DmPlain(DmInner(NameOf(me), to, text, now, session, counter, replyId, replyText))
    case Attachment(tid, name, mime, data) => FilePlain(FileInner(NameOf(me), to, tid, name, mime, data, now, session, counter))
  }

  function SealParcel(me: PrivateKey, to: string, peer: NodeId, r: Request, session: Bytes8, counter: nat, e: Chance): Parcel
    requires ValidChance(e)
  {
    var nonce := GenerateNonce(e.now, e.nonceTail);
    Parcel(KindOf(r), e.packetId, nonce,
           Sealed(DeriveDmKey(Ecdh(me, peer), PublicKeyOf(me), peer, session, counter), nonce,
                  PlainFor(r, PublicKeyOf(me), to, e.now, session, counter), Aad(KindOf(r), e.packetId)))
  }

  /** The row a sent DM is stored as; files are not stored. */
  function SentRow(me: NodeId, to: string, p: Parcel, counter: nat, now: nat): StoredMessage {
    StoredMessage(SentAs(now * 1000 + counter), p.packetId, NameOf(me), to, p.nonce, p.cipher, now, false, counter)
  }

  function CheckText(r: Request): Option<SendError> {
    match r
    case Text(text, _, _) => if Blank(text) then Some(EmptyText) else if ByteLength(text) > MAX_TEXT then Some(TextTooLong) else None
    case Attachment(_, _, _, _) => None
  }

  /** `send_dm` and `send_file` as one atomic step: session, key, seal, store (a DM only), count. */
  function Send(me: PrivateKey, db: Db, to: string, r: Request, e: Chance): (Db, Result<Parcel, SendError>)
    requires ValidChance(e)
  {
    if CheckText(r).Some? then (db, Err(CheckText(r).value))
    else
      match NodeOf(to)
      case None => (db, Err(BadRecipient))
      case Some(peer) =>
        var (db1, session, counter) := GetOrCreate(db, to, Ecdh(me, peer));
        var parcel := SealParcel(me, to, peer, r, session, counter, e);
        var db2 := if r.Text? then Save(db1, SentRow(PublicKeyOf(me), to, parcel, counter, e.now)) else db1;
        match Increment(db2, to)
        case None => (db2, Err(DatabaseError))
        case Some(db3) => (db3, Ok(parcel))
  }

  // ---- receiving --------------------------------------------------------------------------

  const WINDOW_BACK: nat := 5
  const WINDOW_AHEAD: nat := 60

  function WindowStart(hint: nat): nat { if hint < WINDOW_BACK then 0 else hint - WINDOW_BACK }

  function WindowEnd(hint: nat): nat { hint + WINDOW_AHEAD }

  /** One attempt: the key for messages from `peer` at `counter`, then the parser. */
  function Attempt(me: PrivateKey, peer: NodeId, session: Bytes8, counter: nat, p: Parcel, clock: nat): Option<Plain> {
    match Decrypt(DeriveDmKey(Ecdh(me, peer), peer, PublicKeyOf(me), session, counter), p.nonce, p.cipher, Aad(p.kind, p.packetId), clock)
    case Ok(plain) => if Parses(p.kind, plain) then Some(plain) else None
    case Err(_) => None
  }

  /** The first counter in a range whose attempt succeeds. */
  function FirstOpening(me: PrivateKey, peer: NodeId, session: Bytes8, lo: nat, hi: nat, p: Parcel, clock: nat): (r: Option<nat>)
    ensures r.Some? ==> lo <= r.value < hi && Attempt(me, peer, session, r.value, p, clock).Some?
    ensures forall c :: lo <= c < (if r.Some? then r.value else hi) ==> Attempt(me, peer, session, c, p, clock).None?
    decreases hi - lo
  {
    if lo >= hi then None
    else if Attempt(me, peer, session, lo, p, clock).Some? then Some(lo)
    else FirstOpening(me, peer, session, lo + 1, hi, p, clock)
  }

  datatype Opened = Opened(name: string, peer: NodeId, counter: nat, plain: Plain)

  /** The search of one peer: its session row is created or reset, then its window is tried. */
  function SearchPeer(me: PrivateKey, db: Db, name: string, peer: NodeId, p: Parcel, clock: nat): (Db, Option<Opened>) {
    var (db1, session, _) := GetOrCreate(db, name, Ecdh(me, peer));
    var hint := RecvHint(db1, name);
    match FirstOpening(me, peer, session, WindowStart(hint), WindowEnd(hint), p, clock)
    case None => (db1, None)
    case Some(c) => (db1, Some(Opened(name, peer, c, Attempt(me, peer, session, c, p, clock).value)))
  }

  /** All known peers in order, until one opens the parcel. */
  function Search(me: PrivateKey, db: Db, peers: seq<string>, p: Parcel, clock: nat): (Db, Option<Opened>)
    decreases |peers|
  {
    if peers == [] then (db, None)
    else
      match NodeOf(peers[0])
      case None => Search(me, db, peers[1..], p, clock)
      case Some(peer) =>
        var (db1, found) := SearchPeer(me, db, peers[0], peer, p, clock);
        if found.Some? then (db1, found) else Search(me, db1, peers[1..], p, clock)
  }

  function Prefix(s: string, n: nat): string { if |s| <= n then s else s[..n] }

  function ReceivedRow(inner: DmInner, p: Parcel, counter: nat, clock: nat): StoredMessage {
    StoredMessage(ReceivedAs(Prefix(inner.senderId, 8), inner.timestamp), p.packetId, inner.senderId, inner.recipientId,
                  p.nonce, p.cipher, clock, true, counter)
  }

  /** An opened DM is stored; both kinds move the hint past their counter. */
  function Commit(db: Db, p: Parcel, o: Opened, clock: nat): Db {
    var db1 := if o.plain.DmPlain? then Save(db, ReceivedRow(o.plain.dm, p, o.counter, clock)) else db;
    BumpHint(db1, o.name, o.counter + 1)
  }

  /** `try_decrypt_packet` and `try_decrypt_file_packet`. */
  function Receive(me: PrivateKey, db: Db, peers: seq<string>, p: Parcel, clock: nat): (Db, Option<Opened>) {
    var (db1, found) := Search(me, db, peers, p, clock);
    match found
    case None => (db1, None)
    case Some(o) => (Commit(db1, p, o, clock), found)
  }

  /** What the frontend is told of an opened DM: `sender` is the node whose fingerprint it shows, if any. */
  datatype Shown = Shown(
    senderId: string, sender: Option<NodeId>, recipientId: string, text: string, timestamp: nat,
    replyToId: Option<string>, replyToText: Option<string>)

  /** All of it is taken from the plaintext, not from the peer whose key opened it. */
  function ShownFor(inner: DmInner): Shown {
    Shown(inner.senderId, NodeOf(inner.senderId), inner.recipientId, inner.text, inner.timestamp, inner.replyToId, inner.replyToText)
  }

  // ---- reading back -----------------------------------------------------------------------

  /** Keys for a stored row: ours to the peer if the row names us as sender, else the peer's to us. */
  function RowKey(me: PrivateKey, peer: NodeId, outgoing: bool, counter: nat): AeadKey {
    var secret := Ecdh(me, peer);
    if outgoing then DeriveDmKey(secret, PublicKeyOf(me), peer, DeriveSessionId(secret), counter)
    else DeriveDmKey(secret, peer, PublicKeyOf(me), DeriveSessionId(secret), counter)
  }

  function IsOutgoing(me: PrivateKey, msg: StoredMessage): bool { msg.senderId == NameOf(PublicKeyOf(me)) }

  function TryCounter(me: PrivateKey, peer: NodeId, msg: StoredMessage, counter: nat, clock: nat): Option<DmInner> {
    match Decrypt(RowKey(me, peer, IsOutgoing(me, msg), counter), msg.nonce, msg.cipher, Aad(DmKind, msg.packetId), clock)
    case Ok(DmPlain(inner)) => Some(inner)
    case _ => None
  }

  /** The first counter below `hi`, from `lo` on, that opens a stored row. */
  function FirstCounter(me: PrivateKey, peer: NodeId, msg: StoredMessage, lo: nat, hi: nat, clock: nat): (r: Option<nat>)
    ensures r.Some? ==> lo <= r.value < hi && TryCounter(me, peer, msg, r.value, clock).Some?
    ensures forall c :: lo <= c < (if r.Some? then r.value else hi) ==> TryCounter(me, peer, msg, c, clock).None?
    decreases hi - lo
  {
    if lo >= hi then None
    else if TryCounter(me, peer, msg, lo, clock).Some? then Some(lo)
    else FirstCounter(me, peer, msg, lo + 1, hi, clock)
  }

  const LEGACY_BOUND: nat := 500

  /** Where the bounded search for a row of unknown counter ends. */
  function SearchEnd(me: PrivateKey, msg: StoredMessage, s: Session): nat {
    if IsOutgoing(me, msg) then s.msgCounter + 1 else Max(s.recvHint, LEGACY_BOUND) + 60
  }

  /** The counter a row is read with: its own if it has one, else whatever the bounded search finds. */
  function CounterFor(me: PrivateKey, peer: NodeId, msg: StoredMessage, s: Session, clock: nat): Option<nat> {
    if msg.msgCounter >= 0 then Some(msg.msgCounter)
    else FirstCounter(me, peer, msg, 0, SearchEnd(me, msg, s), clock)
  }

  /** The text shown for a row: nothing if no key opens it. */
  function ReadRow(me: PrivateKey, peer: NodeId, msg: StoredMessage, s: Session, clock: nat): Option<(string, nat)> {
    match CounterFor(me, peer, msg, s, clock)
    case None => None
    case Some(c) =>
      match TryCounter(me, peer, msg, c, clock)
      case None => None
      case Some(inner) => Some((inner.text, inner.timestamp))
  }

  /** A successful search writes the counter back, so the next read takes one attempt. */
  function HealRow(me: PrivateKey, db: Db, peer: NodeId, msg: StoredMessage, s: Session, clock: nat): Db {
    if msg.msgCounter >= 0 then db
    else
      match FirstCounter(me, peer, msg, 0, SearchEnd(me, msg, s), clock)
      case None => db
      case Some(c) => SetCounter(db, msg.id, c)
  }

  function HealRows(me: PrivateKey, db: Db, peer: NodeId, rows: seq<StoredMessage>, s: Session, clock: nat): Db
    decreases |rows|
  {
    if rows == [] then db
    else HealRows(me, HealRow(me, db, peer, rows[0], s, clock), peer, rows[1..], s, clock)
  }

  function Texts(me: PrivateKey, peer: NodeId, rows: seq<StoredMessage>, s: Session, clock: nat): seq<Option<(string, nat)>> {
    seq(|rows|, i requires 0 <= i < |rows| => ReadRow(me, peer, rows[i], s, clock))
  }

  /** Session id and both counters, fetched once for the whole conversation. */
  function Fetched(me: PrivateKey, db: Db, with: string, peer: NodeId): Session {
    var (db1, session, counter) := GetOrCreate(db, with, Ecdh(me, peer));
    Session(session, counter, RecvHint(db1, with))
  }

  /** `get_messages` on the rows the query returned, which are read before the session row is touched. */
  function GetMessages(me: PrivateKey, db: Db, with: string, rows: seq<StoredMessage>, clock: nat): (Db, Option<seq<Option<(string, nat)>>>) {
    match NodeOf(with)
    case None => (db, None)
    case Some(peer) =>
      var s := Fetched(me, db, with, peer);
      var db1 := GetOrCreate(db, with, Ecdh(me, peer)).0;
      (HealRows(me, db1, peer, rows, s, clock), Some(Texts(me, peer, rows, s, clock)))
  }
}
