# CARAKA's CLAMP protocol in Dafny

CARAKA is a peer-to-peer mesh messenger. This project models the protocol underneath it and proves what it
keeps: every node floods packets through a replay cache, per-peer trust and rate limits and a hop MAC; direct
messages and files are sealed under keys derived from per-peer counters; packets travel in length-prefixed
frames. `dafny verify dfyconfig.toml` checks everything.

## How the model is built

- **One node** (`routing`, `ratelimit`, `replay_cache`, `transport`, `packets`, `framing`, `session_store`,
  `client`, `sync`). The objects the program updates in place are classes - `Router`, `TokenBucket`,
  `LruCache`, `PacketBuffer`, `PeerSenders`, `Node`, `Stream`, `Database`, `CommandLayer` - with the same loops
  and branches. Every method equates the new state with a function of the old one (`Handle`, `Consume`, `Put`,
  `ProcessRaw`, `Send`, `Receive`, ...), and the properties are proved about these functions.
- **The network** (`mesh`): a set of nodes, fixed symmetric links, a multiset of copies on the wire, and three
  events - originate, deliver any copy at any time, lose any copy. A delivery passes the packet's real bytes
  through frame, reader and decoder into the receiver's reaction. A run is any list of events each possible
  where it stands, from the state in which nothing has been sent. `verdicts` writes out what a node does with one frame,
  and `node_runs` shows that every node of a run does just that with the frames delivered to it.
- **The history of a run**: the network state also records who took what in at which depth, which links an id has
  crossed, and which copies were refused for rate or trust. `provenance` and `termination` (over the paths of `paths`)
  state what holds in every run, whatever caches forget. `flood` and `clean_run` account for caches, copies, crossings
  and inboxes of runs in which nothing is forgotten; `projection` carries that over to one id of any run: dropping all
  other ids from a run leaves a run with the same records of this one. On it rest `coverage`, `outcomes`, `late_copy`,
  `hop_order` and `flood_cost`.
- **Sessions** (`keys`, `commands`, `sessions`, `session_runs`, `history`): keys and ciphertexts are terms over
  their inputs, but the context bytes of the key derivation are real and their injectivity is proved.
- **Composition** (`end_to_end`): what the sender's command sealed is what the recipient's command reads.

## Main results

Results about floods hold for any order of deliveries and any number of other ids. Most of them ask that the flood's own
id is *remembered*: a copy that comes to a node which took the id in before finds it still in the cache of 512
(`Projection.Remembered`). At most 512 ids in all are enough for that (`Projection.FewIdsAreRemembered`), but a
network may carry any number as long as the id is not evicted while its own copies travel.

1. *Coverage.* Call a flood whole if none of its copies was lost, or dropped for rate or trust. The records that whole
   settled floods of a remembered packet can leave - who took it in, from whom, at which depth - are exactly the trees of
   the network described by `Outcomes.IsOutcome`; so whom it always reaches is decided by links, origin and TTL
   alone (`Outcomes.AlwaysReachedIff`, `Outcomes.CoverageIff`). In particular, in connected networks of at most TTL + 2
   nodes (9 for DM and file, 7 for broadcast) it reaches everyone (`Coverage.FloodCoverage`), which is tight. Broadcasts
   are never dropped for rate or trust (`Provenance.BroadcastIsNotRefused`), and nothing is with at most 200 ids
   (`Coverage.FewIdsCoverage`). Delivered in hop order, a whole flood reaches exactly the nodes within TTL + 1 links,
   in any network (`HopOrder.HopOrderCoverage`), and every packet has such a flood (`HopOrder.OrderedFloodExists`).
2. *Cleanliness.* If all nodes follow the code and at most 200 ids are originated, no packet is ever dropped for
   any reason but having been taken in before (`CleanRun.RunIsClean`).
3. *Cost and termination.* TTL alone ends every flood: in every run each delivery or loss lowers a number that only
   an origination can raise, so every run can be completed (`Termination.EndsWithin`, `Termination.Settles`). A remembered
   id crosses each directed link at most once, with at most |E| - (n-1) copies in a connected network of n nodes and |E|
   directed links, and is handed over at most once per node; a run of k remembered ids has at most k + k |E| events
   (`FloodCost`).
4. *Every run*, with any number of ids: TTL plus hop counter is constant, so neither byte ever wraps, and the MAC is the
   forwarding node's (`Mesh.HopInvariant`); what is on the wire or handed up under an id is its originator's packet
   (`Provenance.RunIsGenuine`), and nothing is taken in further than TTL + 1 links away (`Provenance.NothingBeyondRange`).
5. *One node.* What any router state makes of any bytes is written out: when a packet is taken in, which check names the
   reason for a refusal, what is handed up and relayed (`Verdicts`). A node's own pipeline, fed the frames delivered to it
   one after another, has at every point of every run the router and inbox the network theorems speak of
   (`NodeRuns.NodesRunTheCode`). Replay protection, trust and rates are exact over any list of router operations
   (`RouterHistory`): a source idle for two seconds has 200 packets in a row pass, one at a moment exactly its balance.
   The truncating token bucket has both bounds, and the lower one is met (`RateLimit`).
6. *Sessions.* All packets of a run have different keys exactly if no two sends name one node in two spellings
   (`SessionRuns.KeysDistinctIff`); at most one peer and counter open a packet, whatever the order of the peers. After
   any run a known peer's packet opens exactly if its counter is in the window around one above the largest counter opened
   from that peer (`SessionRuns.OpensExactlyInWindow`). When a message is stored, what the history command answers for
   any rows, and which lost counters it writes back are known exactly (`Sessions.ReceivedIsStoredIff`,
   `History.RunIsShown`, `History.CommandShows`, `History.ReadingHeals`); no operation drops or rewrites a row
   (`History.OpKeepsRows`).
7. *End to end.* In every run, whatever caches forget, a packet handed up under a sent id opens at the recipient as
   exactly what was sent, if its counter is in the window and the clock near its nonce, and not at all otherwise
   (`EndToEnd.MessageReadIsMessageSent`) - also in the middle of any conversation, whatever else both ends send, receive
   and read (`EndToEnd.ConversationIsRead`). A remembered one is handed up exactly once (`EndToEnd.ParcelArrives`). In a
   connected network of at most nine nodes a whole settled flood delivers it (`EndToEnd.SmallMeshDelivers`), and such a
   run follows every send into a quiet network (`EndToEnd.SomeRunDelivers`).
8. *Formats.* Packet codec, stream framing, sync payload and invite codes are inverses in both directions
   where both hold, with the exact exception where not.

## Where a promise of the code fails, and when it holds

- *History.* Reading stored messages goes through the same clock check as receiving them, so every message older than
  300 seconds is shown as "[pesan terenkripsi]", although its key is known. A stored row shows its text exactly while
  the clock is within 300 seconds of its nonce and, if it was received, it does not name the reader as its sender
  (`History.StoredRowShows`, `History.HistoryOfRun`).
- *Shown sender.* The sender shown and stored is the one the decrypted text claims; nothing compares it with the peer
  whose key opened the message, so a known peer can appear as anyone (`Sessions.PeerIsShownAsAnother`). It is that peer
  exactly if the claimed id is (`Sessions.ClaimedSenderIsShown`), as it is in everything the send command makes
  (`Sessions.HonestSenderIsShown`).
- *Spellings.* One node id can be spelled in lower- and upper-case hex (`hex::decode` accepts both; names of one node
  differ in case alone, `Keys.SameNodeIff`), and sessions are stored per spelling. From an empty database two packets of
  a run share a key exactly if two accepted sends name one node in two spellings (`SessionRuns.KeysDistinctIff`,
  `SessionRuns.TwoSpellingsShareAKey`, `SessionRuns.SpellingsOfOneNode`); never with lower-case ids, as `hex::encode`
  prints them (`SessionRuns.NoKeyUsedTwice`).
- *Migration.* The migration that gives older databases their counter columns leaves every row with -1 and restarts every
  receive hint at 0 (src-tauri/src/store.rs:186-214). A row without a counter is searched for, which agrees with its
  counter exactly if the row does not open or its counter lies below the search's end (`History.FastEqualsSlowIff`).
  So, even with one lower-case spelling per node, the migration hides exactly the rows received at counter 560 or more
  (`History.MigratedRowShows`, `History.MigrationHidesRow`). With the hint a run has made, lower-case ids do guarantee
  the agreement (`History.FastReadEqualsSlowRead`), and two spellings break it (`History.SpellingHidesRow`).
- *Sent history.* A sent message is stored under the row id "1000 x seconds + counter" and silently not stored if the row
  id or packet id is taken (`Sessions.SentIsStoredIff`): of first messages to two peers in the same second only one is
  kept (`Sessions.SecondMessageIsNotStored`).
- *Received history.* A received message's row id is eight characters of its sender and its time in seconds, so of two
  new messages of one sender with the same time only the first is stored, although both are shown when they come; they
  are both stored exactly if those parts and the packet ids differ (`Sessions.BothAreStoredIff`).
- *Replay.* A router accepts an id again exactly after 512 distinct others (`RouterHistory.ReplayWindow`); a message that was
  opened then opens again exactly while the clock is within 300 seconds of its nonce and the peer's hint at most five past
  its counter (`SessionRuns.OpensAgainIff`).
- *Range.* Flooding does not reach every node within TTL range in every delivery order (`LateCopy.NearNodeIsMissed`); it
  reaches a node for certain exactly if no tree of the network avoids it (`Outcomes.AlwaysReachedIff`).
- *Files.* `send_file` documents 5 MB, but a packet must fit in a frame. It does exactly up to
  3 floor((65473 - f) / 4) bytes, with f the printed length of the other fields, so never above 49104
  (`EndToEnd.AttachmentFitsIff`).
- *Nonces.* Time stamps are cut to 32 bits: a nonce is accepted near the time of its making exactly if that was
  before 2^32 seconds, in early 2106 (`Crypto.GeneratedNonceTimely`).
- The repository's protocol document under docs/ describes random session ids and identities put
  into a canonical order in the key context; the code derives the id from the shared secret and orders the
  identities by direction (src-tauri/src/keys.rs:153-185), and the model follows the code.

## Assumptions

- A function-valued constant without a definition (`Crypto.ComputeMac`, `Keys.DeriveSessionId`,
  `Keys.OtherFields`, `Transport.BroadcastParses`) is an arbitrary deterministic function; nothing is assumed of it.
- Secrets, keys and ciphertexts are terms: an X25519 secret is the unordered pair of identities (section 6.1 of
  RFC 7748), an HKDF output is determined by and determines its secret and context (section 2.3 of RFC 5869), and a
  ciphertext opens only under the key, nonce and associated data it was sealed with.
- Packet ids are drawn at random; a run only originates ids not originated before in it.
- Routers share one MAC key. By default it is all zeros (`routing.rs:118`); `hop_mac_key` of `state.rs` plays no part.
- Time is whole nanoseconds for rate limits and seconds for nonces; trust is counted in hundredths.
- Counters fit their columns: lemmas about runs ask for counters below 2^64 with room for the run and the window.

## Model

| member | source | states |
|---|---|---|
| `Bytes.FromLeOfLe` | src-tauri/src/keys.rs:161 | a little-endian number read back is the number modulo the width, hence unchanged below it |
| `Bytes.LeOfFromLe` | src-tauri/src/transport.rs:435-437 | every byte string is the little-endian form of its own value |
| `Packets.TypeOfCode` | src-tauri/src/packet.rs:60-75 | accepts exactly codes 1 to 8 and inverts the type's code |
| `Packets.CodesInOrder` | src-tauri/src/packet.rs:45-57 | the eight types have the codes 1 to 8 in this order |
| `Packets.Decode` | src-tauri/src/packet.rs:236-298 | accepts a byte string exactly if length, magic, version and type code are right |
| `Packets.DecodeRefusesFor` | src-tauri/src/packet.rs:236-262 | the first failing check - length, magic, version, type - names the error |
| `Packets.EncodeLayout` | src-tauri/src/packet.rs:203-227 | where every field of an encoded packet lies |
| `Packets.DecodeOfEncode` | src-tauri/src/packet.rs:212-298 | decoding undoes encoding for every packet with the right magic and version |
| `Packets.EncodeOfDecode` | src-tauri/src/packet.rs:212-298 | encoding undoes decoding for every accepted byte string: no packet has a second spelling |
| `Packets.FillHeaderBytes` | src-tauri/src/packet.rs:193-201 | the buffer filled field by field is the 13-byte header |
| `Packets.AppendPacket` | src-tauri/src/packet.rs:212-227 | the buffer extended field by field is the encoded packet that the decoder inverts |
| `Framing.FrameLayout` | src-tauri/src/transport.rs:417-429 | the length in two bytes, low byte first, then the data |
| `Framing.ReceiveOfFrame` | src-tauri/src/transport.rs:417-446 | a frame at the head of any stream is read back exactly, and nothing behind it is touched |
| `Framing.FrameOfReceive` | src-tauri/src/transport.rs:432-446 | whatever the reader accepts was a frame: re-framing rebuilds the stream |
| `Framing.FrameRefusedFor` | src-tauri/src/transport.rs:432-446 | a length of zero is refused, and an end of stream before the announced length |
| `Framing.Stream.SendRawPacket` | src-tauri/src/transport.rs:417-429 | refuses more than 65535 bytes and writes nothing then; otherwise appends one frame |
| `Framing.Stream.RecvPacket` | src-tauri/src/transport.rs:432-446 | takes exactly the first frame off the stream, or fails as specified |
| `Framing.Stream.ReadLoop` | src-tauri/src/transport.rs:201-211 | yields all packets up to the first error, in order |
| `Framing.ReadAllOfFrames` | src-tauri/src/transport.rs:417-446 | any list of non-empty items of up to 65535 bytes is read back whole with nothing left over |
| `Framing.SendableFits` | src-tauri/src/transport.rs:421-423 | a packet fits in a frame exactly if its ciphertext has at most 65473 bytes |
| `Framing.FileFitsIff` | src-tauri/src/transport.rs:417-429 | a packet with a file's base64 text among other fields fits in a frame exactly up to a size given by the length of those fields, never above 49104 bytes |
| `Framing.StreamOfPackets` | src-tauri/src/transport.rs:417-446 | any list of sendable packets survives encoding, framing, reading and decoding |
| `RateLimit.TokenBucket.ConsumeToken` | src-tauri/src/routing.rs:50-64 | refill with truncation and cap, then charge one token or refuse, as specified |
| `RateLimit.TokensBounded` | src-tauri/src/routing.rs:33-64 | tokens stay in 0..200 over every schedule of calls |
| `RateLimit.GrantsArePaid` | src-tauri/src/routing.rs:50-64 | every grant is paid by a starting token or by 10 ms that passed |
| `RateLimit.UpperBoundFromCreation` | src-tauri/src/routing.rs:44-64 | at most 200 + 100 T grants in the first T seconds |
| `RateLimit.UpperBoundInWindow` | src-tauri/src/routing.rs:44-64 | fewer than 201 + 100 T grants in any T seconds that start at a call |
| `RateLimit.LowerBound` | src-tauri/src/routing.rs:50-57 | dropping fractions costs less than half: while the cap is not hit more than 50 T - 1/2 tokens arrive, and none is lost |
| `RateLimit.SpacedCallsAreGranted` | src-tauri/src/routing.rs:50-64 | calls at least 10 ms apart are never refused |
| `RateLimit.IdleBucketIsFull` | src-tauri/src/routing.rs:50-64 | from any bucket, calls that start two seconds after its last refill are all granted, up to 200 |
| `RateLimit.BurstIsExact` | src-tauri/src/routing.rs:50-64 | of any number of calls at one moment exactly min(200, tokens + whole ticks since the last refill) are granted |
| `RateLimit.FractionsAreDropped` | src-tauri/src/routing.rs:50-57 | calls just short of two ticks apart bring an empty bucket exactly one token each, so the lower bound is met |
| `ReplayCache.LruCache.PutId` | src-tauri/src/routing.rs:187 | moves or inserts the id at the front and evicts the least recent of more than 512 |
| `ReplayCache.LruCache.Contains` | src-tauri/src/routing.rs:218-220 | whether the id is in the cache, without touching its order |
| `ReplayCache.CacheIsRecentPrefix` | src-tauri/src/routing.rs:115 | the bounded cache is the first 512 of the unbounded list of ids by recency |
| `ReplayCache.CacheMatchesHistory` | src-tauri/src/routing.rs:167-187 | an id is in the cache exactly if it was put and fewer than 512 distinct ids were put since |
| `Crypto.CheckMac` | src-tauri/src/crypto.rs:198-207 | the fold of XORs is zero exactly if the tags are equal |
| `Crypto.GeneratedNonceTimely` | src-tauri/src/crypto.rs:80-109 | before 2^32 seconds a nonce is accepted exactly within 300 s of its making, within 300 s of its making exactly before then, and none at all later |
| `Routing.Router.constructor` | src-tauri/src/routing.rs:113-121 | empty cache, no trust or bucket entries, all-zero MAC key |
| `Routing.Router.SetChannelKey` | src-tauri/src/routing.rs:124-126 | replaces the MAC key and nothing else |
| `Routing.Router.AdjustTrust` | src-tauri/src/routing.rs:277-282 | adds to one peer's score within 0..5 and changes nothing else |
| `Routing.Router.ConsumeFrom` | src-tauri/src/routing.rs:142-146 | charges the source's own bucket, made full on its first packet, and no other |
| `Routing.Router.HandleIncoming` | src-tauri/src/routing.rs:137-207 | router, packet and decision after one packet, as a function of the state before |
| `Routing.Router.ScreenIncoming` | src-tauri/src/routing.rs:156-184 | trust, then replay, then MAC unless Hello, in this order and with these penalties |
| `Routing.Router.AcceptIncoming` | src-tauri/src/routing.rs:186-206 | remembers, rewards and delivers; relays exactly while TTL is left |
| `Routing.Router.PrepareRelay` | src-tauri/src/routing.rs:198-201 | TTL down, hop counter up, MAC of this node over the new counter, in this order |
| `Routing.Router.RegisterId` | src-tauri/src/routing.rs:211-226 | puts an own or broadcast id into the cache without any check |
| `RouterHistory.CacheIsPuts` | src-tauri/src/routing.rs:167-226 | after any run the cache is the result of the accepted and registered ids, in order |
| `RouterHistory.ReplayWindow` | src-tauri/src/routing.rs:167-187 | over any run an id counts as duplicate exactly until 512 distinct ids followed it |
| `RouterHistory.AcceptedTwiceMeansManyBetween` | src-tauri/src/routing.rs:167-187 | an id is accepted again only after at least 512 distinct other ids |
| `RouterHistory.TrustStep` | src-tauri/src/routing.rs:147-190 | how many hundredths each outcome moves the source's score, and that no other score moves |
| `RouterHistory.TrustLedger` | src-tauri/src/routing.rs:17-29 | scores stay in 0..500 hundredths; while trusted, 50 per bad MAC and 100 per rate violation stay within 150 plus the accepted packets |
| `RouterHistory.TrustIsEarned` | src-tauri/src/routing.rs:17-29 | without an offence a score is exactly 200 hundredths plus one per accepted packet, up to 500 |
| `RouterHistory.DistrustIsAbsorbing` | src-tauri/src/routing.rs:157-165 | below 50 the score never rises and every later packet of the source is dropped |
| `RouterHistory.BucketFollowsArrivals` | src-tauri/src/routing.rs:143-154 | from any state a source's bucket and passed packets depend on its own arrivals alone |
| `RouterHistory.SourceRateBound` | src-tauri/src/routing.rs:143-154 | at most 200 + 100 T packets of a source pass in T seconds, whatever other peers send |
| `RouterHistory.IdleSourcePasses` | src-tauri/src/routing.rs:50-64 | from any state a source that is new or idle for two seconds has up to 200 packets in a row pass the limiter |
| `RouterHistory.SourceBurstIsExact` | src-tauri/src/routing.rs:50-64 | of a source's packets at one moment exactly its balance passes |
| `Transport.PeerSenders.Offer` | src-tauri/src/transport.rs:622-628 | offers the bytes to every channel but one; a full channel of 64 loses them |
| `Transport.PeerSenders.RelayPacket` | src-tauri/src/transport.rs:614-629 | forwards to every peer but the sender |
| `Transport.PeerSenders.BroadcastPacket` | src-tauri/src/transport.rs:632-646 | sends to every peer |
| `Transport.PeerSenders.Answer` | src-tauri/src/transport.rs:688-692 | the answer to a sync request goes to its sender alone, if there is room |
| `Transport.Node.ProcessIncoming` | src-tauri/src/transport.rs:461-591 | the whole effect of one received frame on router, inbox and queues |
| `Transport.Node.Route` | src-tauri/src/transport.rs:563-573 | the router's verdict and the rewritten packet, with inbox and queues untouched |
| `Transport.Node.Act` | src-tauri/src/transport.rs:575-590 | delivers and relays as decided, the router untouched |
| `Transport.Node.IncomingBroadcast` | src-tauri/src/transport.rs:505-544 | replay check only; parse, deliver, relay with stepped TTL and hop counter |
| `Verdicts.MacInputIff` | src-tauri/src/routing.rs:230-239 | the MAC input is 13 bytes and determines id, hop counter and the first four bytes of the node, nothing more |
| `Verdicts.AcceptedIff` | src-tauri/src/routing.rs:137-187 | a packet is taken in exactly if its source has a token and a score of 50, its id is not cached, and its tag is the MAC of id, hop counter and four bytes of the source, or it is a Hello |
| `Verdicts.RefusedFor` | src-tauri/src/routing.rs:142-184 | the first failing check names the reason and the penalty; cache and packet stay |
| `Verdicts.AcceptedLeaves` | src-tauri/src/routing.rs:186-206 | an accepted packet is remembered, earns a hundredth, and with TTL left goes one hop further under this node's MAC |
| `Verdicts.ChargedAlone` | src-tauri/src/routing.rs:143-146 | a packet touches its own source's bucket and no other |
| `Verdicts.FrameIsPacket` | src-tauri/src/transport.rs:468-474 | the bytes of a packet are handled as that packet, in any router state |
| `Verdicts.OtherFramesPass` | src-tauri/src/transport.rs:468-503 | bytes that are no packet, and sync and hello packets, change neither router nor inbox and are not relayed |
| `Verdicts.OnlyRequestsAreAnswered` | src-tauri/src/transport.rs:477-480 | a frame is answered exactly if it is the encoding of a sync request |
| `Verdicts.RoutedFrame` | src-tauri/src/transport.rs:546-591 | the exact effect of the frame of a DM, file or channel packet: handed up if taken in, relayed if TTL is left too |
| `Verdicts.BroadcastFrame` | src-tauri/src/transport.rs:505-544 | the exact effect of the frame of a broadcast, in terms of its id, its payload and its TTL |
| `Verdicts.OfferedTo` | src-tauri/src/transport.rs:614-646 | an offer appends to every channel but the excepted one that holds fewer than 64, and changes no other |
| `Verdicts.AnsweredTo` | src-tauri/src/transport.rs:688-692 | an answer appends to the requester's channel alone, if it has room |
| `Mesh.WireIsFaithful` | src-tauri/src/transport.rs:417-474 | a sendable packet arrives through frame, reader and decoder unchanged |
| `Mesh.QueuesAreCopies` | src-tauri/src/transport.rs:614-646 | what a node offers to its open channels is exactly what the network puts on the wire for it |
| `Mesh.HonestRelay` | src-tauri/src/routing.rs:195-203 | what a node relays of an honest packet is honest again, one hop further, and its MAC is never refused |
| `Mesh.HopInvariant` | src-tauri/src/routing.rs:195-272 | in every reachable state each copy's TTL and hop counter add up to the origin's TTL and its MAC is the sending node's |
| `NodeRuns.FrameIsReaction` | src-tauri/src/transport.rs:461-591 | in every run the reaction the network applies to a copy is what the node's pipeline makes of its frame |
| `NodeRuns.InboxFollows` | src-tauri/src/transport.rs:594-611 | what a frame appends to a node's inbox is what the network adds for it |
| `NodeRuns.ChannelsFollow` | src-tauri/src/transport.rs:614-629 | what a frame appends to a node's open channels is the copies the network puts on the wire: one to every neighbour but the sender, or none |
| `NodeRuns.NodesRunTheCode` | src-tauri/src/transport.rs:461-591 | over every run each node's router and inbox are what its pipeline makes of its own frames and packets, in order |
| `NodeRuns.DropsAreRecorded` | src-tauri/src/transport.rs:586-588 | every reason any node had in a run to drop a frame is in the record of drops |
| `Provenance.RunIsGenuine` | src-tauri/src/transport.rs:461-646 | in every reachable state each copy and inbox entry carries type, id, nonce, ciphertext and tag of its id's original packet, has hopped along a path from the origin, and caches hold only ids taken in |
| `Provenance.HandedIsOriginal` | src-tauri/src/transport.rs:575-611 | whatever an application is handed under an id is what the id's originator sent |
| `Provenance.NothingBeyondRange` | src-tauri/src/routing.rs:195-206 | in no run does a flood reach a node more than TTL + 1 links away |
| `Provenance.BroadcastIsNotRefused` | src-tauri/src/transport.rs:505-544 | in no run does a broadcast meet rate limit, trust or MAC |
| `Termination.StepLowers` | src-tauri/src/routing.rs:195-206 | every delivery or loss strictly lowers the work left on the wire, a function of the links and of the copies' TTLs |
| `Termination.EndsWithin` | src-tauri/src/routing.rs:195-206 | after its last origination every run has at most as many events as the work then left |
| `Termination.NeverStuck` | src-tauri/src/transport.rs:202-205 | any copy on the wire can be delivered at any time |
| `Termination.Settles` | src-tauri/src/transport.rs:201-211 | in any network every run can be completed, by deliveries alone, to one with nothing left on the wire |
| `Flood.ReactionToStamped` | src-tauri/src/routing.rs:137-207 | the only two reactions to an honest copy: take in and pass on, or drop for rate, trust or replay |
| `Flood.RunIsTracked` | src-tauri/src/transport.rs:506-646 | with at most 512 ids every cache, copy, crossing, refusal and inbox entry of any run is accounted for |
| `CleanRun.SourceHasToken` | src-tauri/src/routing.rs:50-64 | a link with a copy still to deliver has a token left |
| `CleanRun.CleanReaction` | src-tauri/src/routing.rs:142-190 | with a token and trust an honest copy is refused only as a duplicate |
| `CleanRun.RunIsClean` | src-tauri/src/routing.rs:137-262 | in any run of at most 200 ids the only drop reason that ever occurs is DuplicatePacket |
| `CleanRun.FramesOfCleanRun` | src-tauri/src/routing.rs:137-262 | so no node's pipeline refuses any frame of such a run but for a replayed id |
| `Projection.FewIdsAreRemembered` | src-tauri/src/routing.rs:115 | with at most 512 ids no node forgets any id |
| `Projection.ProjectionMirrors` | src-tauri/src/routing.rs:167-187 | dropping all ids but a remembered one from a run, and turning its refused copies into lost ones, leaves a run with the same visits, copies, crossings and inbox for that id |
| `Coverage.SettledOutcome` | src-tauri/src/transport.rs:575-629 | a whole settled flood of a remembered id reached a node exactly if it is the origin or a neighbour took the packet in with TTL left |
| `Coverage.ChainBehind` | src-tauri/src/routing.rs:195-203 | a node that takes a packet in at depth d has nodes at all depths 0..d behind it |
| `Coverage.FloodCoverage` | src-tauri/src/routing.rs:137-207 | in connected networks of at most TTL + 2 nodes a whole settled flood of a remembered id reached everyone, in any delivery order and with any number of other ids |
| `Coverage.BroadcastCoverage` | src-tauri/src/transport.rs:505-544 | a settled lossless broadcast of a remembered id covers connected networks of at most 7 nodes |
| `Coverage.FewIdsCoverage` | src-tauri/src/routing.rs:137-207 | a settled lossless flood of any packet covers them with up to 200 ids |
| `Coverage.LineEndIsNeverReached` | src-tauri/src/packet.rs:27 | the bound is tight: on a line of TTL + 3 nodes the last is never reached |
| `Outcomes.FloodLeavesOutcome` | src-tauri/src/routing.rs:137-207 | every whole settled flood of a remembered id leaves a tree of first receptions that omits no neighbour of a node with TTL left |
| `Outcomes.OutcomeHasFlood` | src-tauri/src/transport.rs:575-629 | every such tree of the network is left by some whole settled flood of the packet |
| `Outcomes.AlwaysReachedIff` | src-tauri/src/routing.rs:167-206 | a packet reaches a node in every whole settled flood that is remembered exactly if no such tree avoids the node: a condition on links, origin and TTL |
| `Outcomes.CoverageIff` | src-tauri/src/routing.rs:167-206 | it always reaches everyone exactly if every such tree spans the network |
| `LateCopy.NearNodeIsMissed` | src-tauri/src/routing.rs:167-171 | ten connected nodes and a whole settled flood that misses a node two links away |
| `HopOrder.RunIsOrdered` | src-tauri/src/transport.rs:614-629 | deliveries of one id in hop order keep its copies within one hop of every visit and every neighbour served |
| `HopOrder.HopOrderCoverage` | src-tauri/src/transport.rs:614-629 | in hop order a whole settled flood of a remembered id reached exactly the nodes within TTL + 1 links, by shortest paths, whatever happens to other ids |
| `HopOrder.SettlesInOrder` | src-tauri/src/transport.rs:201-211 | every run in hop order can be completed in hop order |
| `HopOrder.OrderedFloodExists` | src-tauri/src/transport.rs:614-629 | every packet sent into a quiet network has a whole flood that settles in hop order |
| `FloodCost.SentAtMostOnce` | src-tauri/src/routing.rs:167-187 | every directed link carries a remembered id at most once |
| `FloodCost.CopiesBound` | src-tauri/src/transport.rs:622-628 | in a connected network of n nodes at most (directed links) - (n-1) copies of a remembered id are sent, whether the flood completes or not |
| `FloodCost.EventsAreCounted` | src-tauri/src/transport.rs:461-646 | a run in which no id is forgotten has exactly as many events as ids originated and crossings ended |
| `FloodCost.RunLength` | src-tauri/src/transport.rs:461-646 | in any network a run of k remembered ids has at most k + k (directed links) events |
| `FloodCost.RunLengthConnected` | src-tauri/src/transport.rs:461-646 | in a connected network of n nodes at most k + k (directed links - (n-1)) |
| `FloodCost.HandedOnce` | src-tauri/src/transport.rs:575-590 | a node is handed a remembered id at most once, exactly once if it was reached, with the originator's contents |
| `Keys.AppendDmContext` | src-tauri/src/keys.rs:156-161 | the context extended part by part is the 92-byte context whose injectivity is proved |
| `Keys.DmContextLayout` | src-tauri/src/keys.rs:156-161 | where label, sender, receiver, session id and counter lie in the context |
| `Keys.DmContextInjective` | src-tauri/src/keys.rs:146-166 | no two directions, sessions or counters share a context |
| `Keys.BothEndsAgree` | src-tauri/src/keys.rs:123-185 | both ends derive the same secret, session id and directional key |
| `Keys.DmKeyInjective` | src-tauri/src/keys.rs:146-166 | a key determines sender, receiver and counter |
| `Keys.HexRoundTrip` | src-tauri/src/keys.rs:42-55 | hex decoding undoes hex encoding |
| `Keys.HexDecodesIff` | src-tauri/src/keys.rs:42-55 | exactly the strings of an even number of hex digits decode, and to what they are the print of in lower case |
| `Keys.SameNodeIff` | src-tauri/src/keys.rs:42-55 | names are 64 hex digits, and two name one node exactly if they differ in case alone |
| `Keys.NameRoundTrip` | src-tauri/src/keys.rs:42-55 | a node id printed in hex parses as that node and is lower case |
| `SessionStore.Database.GetOrCreateSession` | src-tauri/src/store.rs:522-572 | keeps a row with the derived id, resets any other, creates a missing one |
| `SessionStore.RowIsKeptIff` | src-tauri/src/store.rs:522-572 | a row keeps its counters exactly if its blob is the derived id; otherwise both restart at 0, and no other row changes |
| `SessionStore.Database.IncrementMsgCounter` | src-tauri/src/store.rs:575-588 | one more, or failure and no change without a row |
| `SessionStore.Database.GetRecvCounterHint` | src-tauri/src/store.rs:601-610 | the hint, or 0 without a row |
| `SessionStore.Database.BumpRecvCounterHint` | src-tauri/src/store.rs:615-621 | the hint never moves back |
| `SessionStore.Database.SaveMessage` | src-tauri/src/store.rs:221-240 | insert, or ignore if row id or packet id is taken |
| `SessionStore.Database.SetMessageCounter` | src-tauri/src/store.rs:246-252 | writes the counter of the rows with this id and changes no other |
| `Commands.AadInjective` | src-tauri/src/commands.rs:435-448 | associated data determines the kind and the packet id |
| `Commands.FirstOpening` | src-tauri/src/commands.rs:478-549 | the first counter of the window whose key opens the packet, and none before it |
| `Commands.FirstCounter` | src-tauri/src/commands.rs:673-680 | the first counter of the bounded search that opens a stored row, and none before it |
| `Client.CommandLayer.SendParcel` | src-tauri/src/commands.rs:216-365 | database and result after a send, for text (`send_dm`) and attachment (`send_file`) alike |
| `Client.CommandLayer.TryWindow` | src-tauri/src/commands.rs:475-549 | the counter loop stops at the first counter that opens the packet |
| `Client.CommandLayer.TryPeer` | src-tauri/src/commands.rs:466-549 | the session row is made sure of, then the peer's window is searched |
| `Client.CommandLayer.TryDecrypt` | src-tauri/src/commands.rs:399-555 | database and result after a reception: search, store, move the hint |
| `Client.CommandLayer.ReadOne` | src-tauri/src/commands.rs:645-681 | what one row shows, and the counter written back |
| `Client.CommandLayer.ReadMessages` | src-tauri/src/commands.rs:585-681 | what every row shows, and all counters written back |
| `Sessions.AttemptIff` | src-tauri/src/commands.rs:479-498 | one attempt succeeds exactly if the packet was sealed with that peer's key, counter and header within the clock window |
| `Sessions.AttributionUnique` | src-tauri/src/commands.rs:479-495 | at most one pair of peer and counter opens a packet by its key |
| `Sessions.OwnParcelNeverOpens` | src-tauri/src/keys.rs:138-166 | a node's own message never opens as an incoming one |
| `Sessions.SendMoves` | src-tauri/src/commands.rs:258-365 | a send moves its peer's outgoing counter by one and seals under the old one; a refused send moves nothing |
| `Sessions.SearchFinds` | src-tauri/src/commands.rs:455-552 | the search finds something exactly if some known peer sealed the packet inside its window |
| `Sessions.ReceiveMoves` | src-tauri/src/commands.rs:530-534 | a reception moves only the opening peer's hint and stores at most the opened message |
| `Sessions.WindowIsExact` | src-tauri/src/commands.rs:466-534 | a packet with counter c opens exactly if max(0, hint-5) <= c < hint+60, as that peer's at c |
| `Sessions.ClaimedSenderIsShown` | src-tauri/src/commands.rs:496-549 | the sender shown and stored is the claimed one; it is the opening peer exactly if the claimed id is that peer's |
| `Sessions.PeerIsShownAsAnother` | src-tauri/src/commands.rs:499-549 | a known peer's message is shown as any other node's if it claims so |
| `Sessions.HonestSenderIsShown` | src-tauri/src/commands.rs:284-293 | what the send command makes is shown as its sender's, with its recipient, text, time and reply |
| `Sessions.PeerOrderIrrelevant` | src-tauri/src/commands.rs:450-552 | the result and all state do not depend on the order of the peer list |
| `Sessions.SendRefusedFor` | src-tauri/src/commands.rs:224-250 | why a send is refused - blank text, more than 4096 bytes, no node id, in this order - and that nothing else makes it fail |
| `Sessions.ByteLengthAdds` | src-tauri/src/commands.rs:227-229 | the length counted adds up over the parts of a text, one to four bytes a character |
| `Sessions.RequestIsKept` | src-tauri/src/commands.rs:284-318 | the sealed record holds the whole request - text and reply fields, or a file's id, name, type and bytes - with sender, recipient, time, session and counter |
| `Sessions.SentIsStoredIff` | src-tauri/src/commands.rs:341-359 | a sent text is stored exactly if its row id, 1000 times the second plus the counter, and its packet id are free, with these fields; a sent file never is |
| `Sessions.SecondMessageIsNotStored` | src-tauri/src/commands.rs:341-365 | first messages to two peers in the same second are both accepted and only one is stored |
| `Sessions.ReceivedIsStoredIff` | src-tauri/src/commands.rs:514-534 | an opened DM is stored exactly if its packet id and its row id, of eight characters of the claimed sender and the claimed time, are free, with these fields |
| `Sessions.BothAreStoredIff` | src-tauri/src/commands.rs:514-519 | two new DMs opened one after the other are both stored exactly if packet ids differ and times or sender prefixes do |
| `SessionRuns.CountersMove` | src-tauri/src/store.rs:574-621 | no operation moves a counter or hint back, or an outgoing counter by more than one |
| `SessionRuns.CountersBounded` | src-tauri/src/store.rs:574-621 | over a run an outgoing counter grows by at most the run's length |
| `SessionRuns.SentItemsOk` | src-tauri/src/commands.rs:258-365 | every packet sent in a run is sealed under its peer and counter, and counters to one name strictly grow |
| `SessionRuns.KeysCoincideIff` | src-tauri/src/commands.rs:258-273 | which two packets of a run share a key: those to one node under two spellings at the same counter |
| `SessionRuns.KeysDistinctIff` | src-tauri/src/commands.rs:258-374 | over any interleaving from an empty database all packets have different keys exactly if no two accepted sends name one node in two spellings |
| `SessionRuns.OneSpellingSuffices` | src-tauri/src/commands.rs:258-374 | that condition suffices from any database |
| `SessionRuns.NoKeyUsedTwice` | src-tauri/src/commands.rs:258-374 | in particular with ids in lower case |
| `SessionRuns.TwoSpellingsShareAKey` | src-tauri/src/store.rs:530-538 | two sends to one node under two spellings use the same key |
| `SessionRuns.SpellingsOfOneNode` | src-tauri/src/commands.rs:246-250 | such spellings exist |
| `SessionRuns.HintIsNextCounter` | src-tauri/src/store.rs:601-621 | over any run the hint is determined by the counters opened from that peer |
| `SessionRuns.HintIsLeastBound` | src-tauri/src/store.rs:615-621 | that is, one above the largest, and 0 if there was none |
| `SessionRuns.OpensExactlyInWindow` | src-tauri/src/commands.rs:466-534 | after any run of sends, receptions from anyone and reads, a known peer's packet opens exactly if its counter is in the window of the hint the counters opened from that peer give |
| `SessionRuns.NothingLostInWindow` | src-tauri/src/commands.rs:475-534 | in any run each packet that comes inside the window as it then stands is opened, as that peer's at its counter |
| `SessionRuns.OpensAgainIff` | src-tauri/src/commands.rs:466-534 | an opened packet opens again, after anything else, exactly while its nonce is timely and the hint at most five past its counter |
| `History.RunKeepsRowsOk` | src-tauri/src/commands.rs:341-365 | every row a run stores was sealed at its stored counter, below the send counter or the hint, with its own nonce and packet id |
| `History.OpensOnlyAsSealed` | src-tauri/src/commands.rs:645-654 | a sealed row opens at no counter but the one it was sealed at, for no peer but the other end, and in no other direction |
| `History.OnlyAtItsCounter` | src-tauri/src/commands.rs:645-654 | so a stored row opens at no counter but its own and for no peer but its own |
| `History.StoredRowShows` | src-tauri/src/commands.rs:645-662 | what a stored row shows: its text within 300 s of its nonce, unless it was received and names the reader as sender, and nothing otherwise |
| `History.HistoryOfRun` | src-tauri/src/commands.rs:606-705 | so for every row of every run; outside 300 s it shows nothing, whoever it is read with |
| `History.CommandShows` | src-tauri/src/commands.rs:606-705 | the command's answer for any rows of a conversation, with their counters or without: one entry per row, in order, with its text exactly if the clock is near its nonce and its counter known or within the search |
| `History.RunIsShown` | src-tauri/src/commands.rs:606-705 | the same for any rows that any run has stored, read with any peer |
| `History.SentIsReadBack` | src-tauri/src/commands.rs:341-365 | a message just sent and stored is read back with its text and time |
| `History.ReceivedIsReadBack` | src-tauri/src/commands.rs:514-534 | a message just received and stored is read back as its sender's |
| `History.FastEqualsSlowIff` | src-tauri/src/commands.rs:656-681 | for every sealed row the single attempt and the bounded search agree exactly if the row does not open or its counter lies below the search's end |
| `History.FastReadEqualsSlowRead` | src-tauri/src/commands.rs:598-681 | with lower-case ids, and the counter and hint a run has made, they agree for every row the run stores |
| `History.LegacyRowShows` | src-tauri/src/commands.rs:663-681 | what a row without a counter shows: its text exactly if the clock is near its nonce and its counter below the search's end |
| `History.MigratedRowShows` | src-tauri/src/store.rs:186-214 | of the rows a run stores under lower-case ids the migration hides exactly those received at counter 560 or more, and leaves every other as it was |
| `History.MigrationHidesRow` | src-tauri/src/store.rs:186-214 | a run under one lower-case spelling whose stored message the migration hides |
| `History.SpellingHidesRow` | src-tauri/src/commands.rs:668-672 | runs, with files of any ids, after which, with two spellings, the search ends too early for a received row |
| `History.HealedRowReadsSame` | src-tauri/src/commands.rs:673-680 | writing back the counter found does not change what the row shows |
| `History.HealingKeepsReads` | src-tauri/src/store.rs:246-252 | a whole history read changes what no row shows |
| `History.ReadingHeals` | src-tauri/src/commands.rs:668-681 | a read writes a lost counter back exactly into the rows it shows, as the counter they were sealed at, and changes nothing else |
| `History.OpKeepsRows` | src-tauri/src/store.rs:221-252 | no operation drops a row, rewrites more of it than its counter, or stores a row id or packet id twice |
| `History.RunKeepsRows` | src-tauri/src/store.rs:221-252 | over every run ids stay unique and a stored row stays where it is |
| `EndToEnd.AadIsOriginalHeader` | src-tauri/src/commands.rs:297-313 | the receiver rebuilds the very header bytes the sender authenticated |
| `EndToEnd.SentIsOriginated` | src-tauri/src/commands.rs:332-339 | a sent packet that fits in a frame is one the network takes as originated |
| `EndToEnd.AttachmentFitsIff` | src-tauri/src/commands.rs:1344-1411 | an attachment can be sent exactly up to a size given by its other fields, never above 49104 bytes |
| `EndToEnd.SentParcelIsSealedBy` | src-tauri/src/commands.rs:258-318 | what one end seals opens for the other at the sender's counter |
| `EndToEnd.HandedIsSent` | src-tauri/src/transport.rs:594-611 | in any run whatever is handed up under a sent id is the packet that was sent |
| `EndToEnd.ParcelArrives` | src-tauri/src/transport.rs:594-611 | wherever a remembered flood reaches, exactly one copy is handed up, and it is the packet that was sent |
| `EndToEnd.MessageReadIsMessageSent` | src-tauri/src/commands.rs:399-555 | in any run the recipient opens anything handed up under the id as exactly what was sent, if the counter is in its window and the clock within 300 s of the nonce, and not at all otherwise |
| `EndToEnd.SmallMeshDelivers` | src-tauri/src/commands.rs:216-555 | in a connected network of at most nine nodes a whole settled flood of a remembered id delivers exactly the sent text |
| `EndToEnd.SomeRunDelivers` | src-tauri/src/commands.rs:216-555 | every send into a quiet small network has a run after which the recipient reads the sent text |
| `EndToEnd.ConversationIsRead` | src-tauri/src/commands.rs:216-555 | the same for every send and every reception inside arbitrary runs of sends, receptions and reads of both ends, with the window given by the counters opened from the sender so far |
| `Sync.ComputeMissingForPeer` | src-tauri/src/sync.rs:15-27 | selects as specified through a hash set |
| `Sync.MissingPositions` | src-tauri/src/sync.rs:22-26 | keeps exactly the local positions the peer lacks, in order, duplicates included |
| `Sync.Reconciled` | src-tauri/src/sync.rs:13-27 | two nodes that add what they are missing end with the union, and owe each other nothing |
| `Sync.ParseOfBuild` | src-tauri/src/sync.rs:44-82 | a built request parses back exactly if its list is shorter than 2^32, otherwise truncated |
| `Sync.BuildOfParse` | src-tauri/src/sync.rs:44-82 | re-building a parsed request gives a prefix of the input |
| `Sync.RequestLayout` | src-tauri/src/sync.rs:44-56 | where node id, number of entries and each entry lie in a request |
| `Sync.BuildSyncReqPayload` | src-tauri/src/sync.rs:44-56 | the loop builds the request that the parser inverts |
| `Sync.ParseSyncReqPayload` | src-tauri/src/sync.rs:59-82 | the loop parses the request, or refuses a short or truncated one |
| `Invite.DecodeOfEncode64` | src-tauri/src/commands.rs:1250-1260 | strict unpadded base64url decoding (section 5 of RFC 4648) undoes encoding |
| `Invite.EncodeOfDecode64` | src-tauri/src/commands.rs:1257-1260 | encoding undoes decoding: only the code itself decodes to given bytes |
| `Invite.DigitsOfDecimal` | src-tauri/src/commands.rs:1269-1275 | parsing undoes decimal printing |
| `Invite.SplitOnce` | src-tauri/src/commands.rs:1264 | splits at the first colon and rebuilds |
| `Invite.PartsOfRaw` | src-tauri/src/commands.rs:1264-1272 | the four parts of a raw code, with and without colons in its fields |
| `Invite.ParseOfGenerate` | src-tauri/src/commands.rs:1231-1279 | a generated code parses back to kind, id, address and port exactly if id and address are free of colons |
| `Invite.GeneratedCodeParses` | src-tauri/src/commands.rs:1220-1280 | the codes the program makes, of a hex id and an IPv4, onion or unknown address, always parse back |
| `Invite.TrimTakesBlanks` | src-tauri/src/commands.rs:1257-1258 | trimming takes exactly the blanks at both ends |
| `Invite.PaddedCodeParses` | src-tauri/src/commands.rs:1257-1260 | blanks around a code change nothing |
| `Invite.PortIsReadOrDefault` | src-tauri/src/commands.rs:1264-1279 | a port below 65536 is read, anything else gives the default of the code's kind |
| `Utf8.ByteLengthIsEncodedLength` | src-tauri/src/commands.rs:227-229 | the length limit counts the bytes of the text's UTF-8 form |
| `Utf8.RawCodeReads` | src-tauri/src/commands.rs:1232-1247 | a code's text: caraka0 or caraka1, id, address and port between colons |
| `Utf8.IsSpaceIff` | src-tauri/src/commands.rs:224 | the 25 white-space characters that count as blank |
| `Utf8.IsUtf8Iff` | src-tauri/src/commands.rs:1261-1262 | the bytes a code may decode to are exactly the UTF-8 forms of texts |

## Left out

- Sockets, tokio tasks, Tor, hotspot, discovery, interface probing, the user interface and its events, the vault
  file, settings, migrations, MIME tables and file saving: I/O or easy members.
- Internals of Ascon, X25519, HKDF and SHA-256: terms and deterministic functions, see Assumptions.
- RateLimit.TokenBucket.ConsumeToken: elapsed time is exact, without the f32 rounding of seconds; the saturation to 32
  bits is kept. Trust is exact too.
- JSON: a printed record is taken to parse as that record and as at most one of the two record types; how a
  message's size grows in print is not modelled.
- `read_file_for_transfer` (size limit and file access of `send_file`) and what follows the hint's move in
  `try_decrypt_file_packet` (base64 of the file, saving it).
- SQLite errors, and the query, order and limit of `get_messages`: the rows it returned are a parameter.
- Rows added by `handle_sync_data`, what `handle_sync_resp` tells the frontend, and the contents of the answer to a
  sync request, which is a parameter.
- Interleaving inside one send, reception or history read: each is one step.
- The `PeerSenders` connection lifecycle and identities before the Hello: links are fixed and symmetric, and
  a writer that stops after an oversized packet shows only as lost copies.
- Packets of type Channel pass the router but no code originates them, so runs originate DM, file and broadcast.
- `register_peer`, `get_trust`, `get_all_peers`, `derive_channel_mac_key`, `fingerprint` and QR codes: easy members.
- Text is a list of characters; slicing a sender id at eight bytes is slicing eight characters.
- ParseOfGenerate: says nothing about codes no generator makes; base64url text with stray bits is refused, not normalised.
- MigratedRowShows: about rows sealed under the derived session id; older databases may also hold rows sealed under a
  random one (src-tauri/src/store.rs:517-521), which are not modelled.
