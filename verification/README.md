# keet-agent: a verified model

This project models the protocol core of the gateway and proves what it promises: the replicated append-only log, the
Merkle tree that authenticates it, the Kademlia routing table and lookup, the µTP transport, the encrypted record
layer, and the codecs between them. `dafny verify dfyconfig.toml` checks the whole project.

| part | modules |
|---|---|
| bytes and big-endian integers | `Bytes` |
| Merkle tree and its binding | `Merkle` |
| replication: messages, log files, block cache, session, two-party protocol, authenticity | `Wire`, `Storage`, `BlockRepo`, `Session`, `Replication`, `Authenticity`, `BlockService`, `Answers` |
| Kademlia: distance, nearest contacts, buckets, iterative lookup, RPC codec | `NodeId`, `Closest`, `RoutingTable`, `Lookup`, `Rpc` |
| µTP: packets, connection, stop-and-wait over a lossy network and what it delivers, retransmit queue, timeout, TURN relaying | `UtpPacket`, `UtpConn`, `SentDatagrams`, `StopAndWait`, `Delivery`, `WriteRuns`, `RetransmitQueue`, `Rto`, `Turn` |
| records inside frames | `SecureChannel` |
| protobuf codec | `Varints`, `Protobuf`, `ProtobufMessages` |
| all binary forms byte by byte | `Layouts` |

How the source's form is kept: objects whose fields change are classes (`Storage.Store`, `Session.SyncSession`,
`BlockService.Service`, `RoutingTable.Table`, `UtpConn.UTPConn`, `RetransmitQueue.Queue`, `Rto.RTOCalculator`,
`SecureChannel.SecureConn`), buffers filled in place are arrays, loops are loops, and each such method is proved equal
to a function on values. The properties of whole runs are proved about those functions, as lemmas over all sequences
of events.

What is assumed, and where it is written down:

- The hash is an arbitrary function from byte strings to 32 bytes. Nothing assumes it is injective: a claim that would
  need it ends in two different strings with one hash, and says in which computation each was hashed (that two such
  strings merely exist is true of every hash).
- `Replication.Paired`: signatures by A's key verify for B, zlib undoes itself, both ends negotiated the same
  extensions, and the connection takes frames up to one limit (65519 bytes over records with 16-byte tags,
  `SecureChannel.FrameLimit`).
- `Authenticity.RunIsVouchedFor`: of the pairs of root and signature that one run hands to the signature check, those
  that verify are on roots of prefixes of the signed log. It says nothing of other digests, for which verifying
  signatures exist under every key. `Authenticity.HonestPeerIsVouchedFor` proves it of whatever an honest peer sends.
- `SecureChannel.Opens`: a record opens under its own number. `SecureChannel.LaterRecordsRejected`: the records that one
  run writes after a refused one do not open under the refused one's number. `SecureChannel.TaggingCipherFits` proves
  both of a cipher with 16-byte tags, for every run of fewer than 2^64 records.
- One appender per log at a time: the length check and the append of a session are one step.
- The queues between two sessions are unbounded and first-in first-out; there are no timers. Events of both sides
  interleave arbitrarily, which stands for goroutine scheduling.
- The µTP network loses datagrams and keeps their order, and there is one writer.
- A file write is all or nothing per record; a crash may fall between the data write and the index write.
- In a lookup the network is one function from contacts to answers. A lookup asks no contact twice
  (`Lookup.IsLookup`), so this covers every behaviour.

## Model

| member | source | states |
|---|---|---|
| `Merkle.ComputeRootHash` | pkg/hypercore/merkle.go:24-48 | The nested loops with odd-node promotion return the root of section 2.1 of RFC 6962 for every non-empty leaf list, and an error for the empty one; from the hash of 0 and any leaf, its audit path climbs to that root with hashes of 1, left and right |
| `Merkle.AuditPathLeadsToRoot` | pkg/hypercore/merkle.go:9-48 | For every leaf, hashing its bytes behind a 0 and then each sibling on its own side behind a 1 gives the root (section 2.1.1 of RFC 6962) |
| `Merkle.AuditPathIsShort` | pkg/hypercore/merkle.go:34-45 | The path of a leaf among at most 2^h has at most h siblings |
| `Merkle.SmallRoots` | pkg/hypercore/merkle.go:9-48 | The roots of one, two and three leaves with all hashed bytes written out |
| `Merkle.Ascend` | pkg/hypercore/merkle.go:35-44 | The inner loop computes one level from pairs, promoting the odd node |
| `Merkle.FoldOfLeavesIsTreeHash` | pkg/hypercore/merkle.go:29-47 | Combining the leaf digests by recursive splitting at the largest power of two below n is the tree hash of the leaves |
| `Merkle.FoldSkipsALevel` | pkg/hypercore/merkle.go:34-45 | One level of pairing does not change what the digests fold to: the loop's invariant |
| `Merkle.SplitPointIsLargestPowerOfTwo` | pkg/hypercore/merkle.go:34-45 | The split used by the tree hash is the largest power of two below n, and the only one with that property |
| `Merkle.Collision` | pkg/hypercore/merkle.go:9-48 | From any two different leaf lists, of any lengths, with equal roots, computes two different strings with equal hash, one hashed for each root |
| `Merkle.SameRootInput` | pkg/hypercore/merkle.go:9-22 | The 0x00/0x01 prefixes separate leaves from nodes: different lists whose last hashed string is the same are both split, with equal half roots and a half that differs |
| `Wire.RoundTrip` | pkg/hypercore/wire.go:86-241 | Every Handshake, Have, Want, Request and Data within the size limits comes back from its encoding |
| `Wire.DecodeIsCanonical` | pkg/hypercore/wire.go:106-241 | What the decoders accept begins with the encoding of the message they return, whose fields are in range; only a handshake may also end before the count of its extensions, and then has none |
| `Wire.DecodesExactly` | pkg/hypercore/wire.go:131-241 | Have, Want, Request and Data are decoded from exactly the byte strings that begin with their encoding |
| `Layouts.ReplicationMessages` | pkg/hypercore/wire.go:131-227 | Each byte of Have, Want, Request and Data: type, big-endian numbers, lengths before contents |
| `Layouts.Handshake` | pkg/hypercore/wire.go:86-104 | Each byte of a handshake |
| `Wire.EncodeHandshakeBuffer` | pkg/hypercore/wire.go:86-104 | The buffer appended step by step is the handshake's encoding, extension loop included |
| `Wire.DecodeExtensions` | pkg/hypercore/wire.go:119-129 | The reader loop returns all announced extensions in order, or fails where the bytes run out or a length is over the limit |
| `Storage.Store.Open` | pkg/hypercore/storage.go:26-85 | Opening reads every whole index record, and for the files of a log gives its blocks |
| `Storage.Store.Append` | pkg/hypercore/storage.go:87-112 | Exactly the block goes to the end of the data file and one record to the index; the sequence of blocks gains it at its end |
| `Storage.Store.Get` | pkg/hypercore/storage.go:114-131 | Returns the indexed block, and an error exactly when the index is past the end |
| `Storage.Store.Len` | pkg/hypercore/storage.go:133-137 | The number of blocks |
| `Storage.CloseAndReopen` | pkg/hypercore/storage.go:26-85 | Reopening gives the same sequence of blocks |
| `Storage.CrashKeepsIndexedBlocks` | pkg/hypercore/storage.go:87-112 | Orphaned data bytes change no block, and the next append adds exactly its own |
| `Storage.HistoryKeepsCompletedBlocks` | pkg/hypercore/storage.go:26-137 | Over any history of appends and crashes the files hold exactly the completed blocks, in order |
| `Layouts.StoredForms` | pkg/hypercore/storage.go:87-112 | Each byte of an index record: offset, then length; and of a cached block: value, then signature, each behind its length |
| `BlockRepo.BlockRoundTrip` | pkg/db/bbolt.go:163-193 | A cached value and signature below 4 GiB come back from their encoding |
| `BlockRepo.DecodesExactly` | pkg/db/bbolt.go:174-193 | A value and signature are decoded from exactly the byte strings that begin with their encoding |
| `Session.SyncSession.Greet` | pkg/hypercore/sync.go:93-118 | Sends Have of the local length and a Want from there, and fails at the first frame the connection refuses |
| `Session.SyncSession.NotifyHave` | pkg/hypercore/sync.go:44-54 | Sends one Have of the given length, or fails when the connection refuses it |
| `Session.SyncSession.SendBlockData` | pkg/hypercore/sync.go:265-310 | Sends the cached block with its signature, else the stored block with a fresh signature on the root of its prefix, else nothing; fails exactly when the connection refuses the frame |
| `Session.SyncSession.SendWanted` | pkg/hypercore/sync.go:179-191 | Answers a Want with one Data per held block of the range, whose end wraps at 64 bits, up to the first refused frame |
| `Session.SyncSession.RequestMissing` | pkg/hypercore/sync.go:159-178 | Requests every index from the local length up to the announced one, in order, up to the first refused frame |
| `Session.SyncSession.ReceiveData` | pkg/hypercore/sync.go:200-259 | Appends and caches the unpacked value exactly when it is the next index and the signature on the root of the extended log verifies; ignores other indices; stops on a bad signature or bad compression |
| `Session.SyncSession.HandleFrame` | pkg/hypercore/sync.go:138-263 | One turn of the read loop on arbitrary bytes: new log and cache, frames written, and whether the loop goes on, which a refused write ends |
| `Session.AcceptedExactly` | pkg/hypercore/sync.go:312-323 | All of a sequence of frames is written if and only if each is within the connection's limit |
| `Session.LogGrowsByOne` | pkg/hypercore/sync.go:138-263 | No frame changes the log except by adding one block at its end |
| `Answers.WantIsAnswered` | pkg/hypercore/sync.go:179-191 | The messages sent for a Want are Data of consecutive blocks from its start, each of its own block; when all are taken, of exactly the held blocks of the range, with the wrap at 2^64 stated apart |
| `Answers.RequestIsAnswered` | pkg/hypercore/sync.go:192-199 | One Data of the block asked for, with the cached signature or a fresh one on the root up to it; nothing exactly when there is no such block |
| `Answers.HaveIsAnswered` | pkg/hypercore/sync.go:159-178 | One Request for each block announced and lacking, in order |
| `Answers.TagsAreUndone` | pkg/hypercore/sync.go:206-217 | What the receiver makes of a value, tag by tag |
| `Answers.LoopEndsExactly` | pkg/hypercore/sync.go:138-263 | Which frames end the loop and change nothing, which are passed over, and which append |
| `Answers.StoredBlockIsServed` | pkg/hypercore/sync.go:192-310 | The value and signature that an accepted frame or append_block cached are, after any further run, the answer to a Request for the block, or its frame is refused |
| `Answers.FittingAnswer` | pkg/hypercore/sync.go:265-310 | That answer is sent when its frame is within the limit, and decodes to the index, the value and the signature |
| `Answers.ThirdSessionTakesIt` | pkg/hypercore/sync.go:192-310 | A session that trusts A and has its log up to a block takes the block from B, which has it from A in its cache, whatever happened to B since |
| `Replication.ReplicationIsCorrect` | pkg/hypercore/sync.go:93-310 | In every run of two sessions B's log is a prefix of A's, no read loop stops, and whenever both queues are empty B holds every block A announced |
| `Replication.DeliveriesConverge` | pkg/hypercore/sync.go:138-263 | Without new appends and announcements every sequence of deliveries is bounded by a computed amount of work, and ends with B holding everything announced |
| `Replication.RunKeepsInv` | pkg/hypercore/sync.go:93-310 | Every interleaving keeps the invariant: what is queued, or will be sent for queued requests, takes B's log as far as B has heard |
| `Replication.DataFromAIsAccepted` | pkg/hypercore/sync.go:200-259 | B never rejects a Data of A: it appends A's block if it is the next and ignores it otherwise |
| `Replication.SignatureIsAccepted` | pkg/hypercore/sync.go:280-287 | A's signature on the root of a prefix convinces B |
| `Replication.UnpackPayload` | pkg/hypercore/sync.go:206-217 | Undoing the compression tag gives back every value that was sent, with and without deflate |
| `Replication.RequestStopsExactly` | pkg/hypercore/sync.go:192-199 | Asked for a block it has, A's read loop goes on if and only if the connection takes the block's frame |
| `Replication.WantStopsExactly` | pkg/hypercore/sync.go:179-191 | Asked for a range, it goes on if and only if the connection takes the frame of each held block in it; the blocks before the first refused one are sent |
| `Replication.GreetingStopsExactly` | pkg/hypercore/sync.go:93-191 | So already the Want of B's greeting ends A's session if and only if a block in the wanted window is over the limit |
| `Replication.LargeBlockIsNotSent` | pkg/hypercore/sync.go:179-191 | One block of 65438 bytes for which it does: A ends having sent only its own greeting |
| `Replication.ReadByA` | pkg/hypercore/sync.go:179-199 | What A does with each message of B: its state is unchanged, every answer is well-formed Data, and the answers weigh less than the message |
| `Replication.ReadByB` | pkg/hypercore/sync.go:159-259 | What B does with each message of A: its log stays a prefix, it goes on, its answers are well-formed and weigh less than the message |
| `Authenticity.AcceptedLogIsAuthentic` | pkg/hypercore/sync.go:219-246 | When an arbitrary frame changes the log and its signature is not a forgery, the whole resulting log is a prefix of the signed log, or a collision between the two computations is exhibited; and a log that is such a prefix needs no forgery |
| `Authenticity.RunIsAuthentic` | pkg/hypercore/sync.go:200-259 | The same right after each accepted Data in every run of arbitrary frames and local appends in which no checked signature is a forgery |
| `Authenticity.ReplicaStaysAuthentic` | pkg/hypercore/sync.go:200-259 | Without local appends, and from an authentic start, it holds in every state of such a run |
| `Authenticity.ChangeIsChecked` | pkg/hypercore/sync.go:200-246 | The log changes exactly when a signature is checked and verifies, on the root of the log it becomes |
| `Authenticity.HonestPeerIsVouchedFor` | pkg/hypercore/sync.go:200-310 | Whatever an honest peer sends, every signature checked in the run verifies only on roots of prefixes of its log |
| `Authenticity.HonestBlockIsTaken` | pkg/hypercore/sync.go:200-246 | In such a run the check is reached and each next block is taken |
| `Authenticity.HypothesesAreConsistent` | pkg/hypercore/sync.go:200-246 | One concrete session meets all the hypotheses together and accepts a block |
| `Authenticity.LogOnlyGrows` | pkg/hypercore/sync.go:138-263 | In every run earlier logs are prefixes of later ones |
| `BlockService.Service.AppendBlock` | pkg/ipc/socket.go:251-297 | Appends to the log, answers with the block's index, and caches it under the feed or the default feed |
| `BlockService.Service.GetBlockByIndex` | pkg/ipc/socket.go:298-346 | Answers from the log first and from the cache only past its end |
| `BlockService.CacheAgreesOverRuns` | pkg/ipc/socket.go:251-346 | Over all sequential runs of socket appends and replicated frames each cache entry, of any feed, equals the log's block of its index, so get_block and a replication answer serve the same value from either source |
| `Answers.CacheAnswersPastTheLog` | pkg/ipc/socket.go:298-346 | get_block answers with the log's block, and past the log's end with the cached one of the named or the default feed |
| `NodeId.XorDistance` | pkg/dht/routing.go:121-127 | The loop computes the exclusive or |
| `NodeId.XorBitAt` | pkg/dht/routing.go:121-127 | A bit of the exclusive or is set exactly when it is set in one of the two |
| `NodeId.CompareDistance` | pkg/dht/routing.go:129-139 | The byte loop answers -1, 0 or 1 as the first distance is less, equal or greater |
| `NodeId.LessIsNumeric` | pkg/dht/routing.go:129-139 | Comparing byte by byte is comparing the 256-bit numbers |
| `NodeId.XorInjective` | pkg/dht/routing.go:121-127 | For a fixed target the distance determines the identifier |
| `NodeId.NearerTotal` | pkg/dht/routing.go:109-113 | Of two different identifiers exactly one is nearer |
| `NodeId.NearerTransitive` | pkg/dht/routing.go:109-113 | Being nearer is transitive |
| `NodeId.CommonPrefixLength` | pkg/dht/routing.go:28-48 | The nested loops count the common leading bits, clamped to 255 |
| `NodeId.PrefixCountsEqualBits` | pkg/dht/routing.go:28-48 | The prefix length is at least n exactly when the identifiers agree on their first n bits |
| `NodeId.LongerPrefixIsNearer` | pkg/dht/routing.go:28-48 | A longer common prefix with the local identifier means a strictly smaller distance, so bucket order agrees with distance order |
| `Closest.SortAndCutIsClosest` | pkg/dht/routing.go:105-118 | Sorting by distance and cutting gives an ascending list of the nearest min(count, n) contacts |
| `Closest.ClosestIsUnique` | pkg/dht/routing.go:91-119 | Only one list has that property |
| `Closest.AscendingIsUnique` | pkg/dht/routing.go:109-113 | Sorting has one possible result whatever algorithm the library uses |
| `RoutingTable.Table.AddContact` | pkg/dht/routing.go:51-89 | The bucket edit is the specified step for the whole table |
| `RoutingTable.BucketIsMostRecent` | pkg/dht/routing.go:50-89 | After any sequence of additions bucket i lists, in order of last sighting, the 20 or fewer most recently seen distinct identifiers that belong there |
| `RoutingTable.MostRecentIsUnique` | pkg/dht/routing.go:50-89 | Only one list has that property |
| `RoutingTable.StoredAddress` | pkg/dht/routing.go:72-86 | The address of a listed contact is the last non-empty one it was seen with since it entered the bucket |
| `RoutingTable.NoDuplicates` | pkg/dht/routing.go:50-89 | No identifier occurs twice in a bucket or in two buckets |
| `RoutingTable.ContactsAreDistinct` | pkg/dht/routing.go:96-99 | All buckets together list no identifier twice |
| `RoutingTable.NeverLocal` | pkg/dht/routing.go:52-54 | The local identifier is never in the table |
| `RoutingTable.Table.FindClosestPeers` | pkg/dht/routing.go:92-119 | Returns the ascending list of the min(count, n) contacts of the table nearest to the target |
| `Lookup.PickUnqueried` | pkg/dht/dht.go:299-307 | Picks the first three contacts of the list not asked yet, in order, or all of them when there are fewer |
| `Lookup.MergeAnswer` | pkg/dht/dht.go:366-375 | Adds the contacts of an answer that are new and not local, and only those; nothing listed before is lost or replaced; the search invariant is kept |
| `Lookup.ReadResult` | pkg/dht/dht.go:353-376 | A failed contact leaves the list; an answering one goes into the routing table and its answer is merged; the search invariant is kept |
| `Lookup.ReadResults` | pkg/dht/dht.go:313-376 | Reads a round's results in an arbitrary order and keeps the search invariant |
| `Lookup.IterativeFindNode` | pkg/dht/dht.go:280-384 | For every responder behaviour the loop ends; every identifier ever named other than the local one was asked exactly once and nothing else was; the result is exactly the at most 20 nearest of the contacts that answered, sorted; and exactly those were added to the table |
| `Lookup.LookupAsksNothingElse` | pkg/dht/dht.go:292-378 | Everything asked lies in every set that holds the candidates and is closed under the answers of the contacts that can be reached |
| `Lookup.AskedIsClosed` | pkg/dht/dht.go:292-378 | When contacts with one identifier agree on whether they answer and on the identifiers they name, the asked identifiers are themselves closed, hence the least closed set |
| `Lookup.LookupIsDeterministic` | pkg/dht/dht.go:292-384 | Then two lookups of one network from the same candidates ask the same identifiers and return the same sequence of identifiers, in whatever order results arrive |
| `Lookup.AnswersMustAgree` | pkg/dht/dht.go:366-375 | Without some such agreement not: a network in which one identifier has two addresses, and two lookups of it that differ in who is asked |
| `Rpc.RoundTripExactly` | pkg/dht/rpc.go:45-220 | For all seven types a message is read back if and only if its lengths, counts and port fit 16 bits and it does not end in an empty address or peer |
| `Rpc.RoundTripWithRest` | pkg/dht/rpc.go:129-220 | With any byte after it, every message that fits is read back, an empty end included |
| `Layouts.RpcMessages` | pkg/dht/rpc.go:45-119 | Each byte of the messages without lists |
| `Layouts.RpcLists` | pkg/dht/rpc.go:73-119 | Each byte of an answer with two contacts or two peers |
| `Rpc.BodyRoundTrip` | pkg/dht/rpc.go:63-217 | Within 16 bits the only failure is the read error at the end of the input for a final empty string |
| `Rpc.TruncatedExactly` | pkg/dht/rpc.go:129-220 | A message cut short anywhere is accepted if and only if at least one byte of its final identifier, address or peer is left, and then what is missing of that field reads as zeros |
| `Rpc.OneByteOfTopic` | pkg/dht/rpc.go:192-195 | A lookup with one byte of its 32-byte topic is accepted |
| `Rpc.EncodeContacts` | pkg/dht/rpc.go:73-90 | The loop writes the count and each identifier and address in order |
| `Rpc.DecodeContacts` | pkg/dht/rpc.go:161-182 | The loop reads that many contacts, with a short read leaving zeros and an empty rest failing |
| `Rpc.EncodePeers` | pkg/dht/rpc.go:105-119 | The loop writes the count and each peer in order |
| `Rpc.DecodePeers` | pkg/dht/rpc.go:197-213 | The loop reads that many peers |
| `UtpPacket.Encode` | pkg/utp/packet.go:45-78 | Fills the buffer in place with the 20-byte header and the payload |
| `UtpPacket.PacketRoundTrip` | pkg/utp/packet.go:45-124 | Every version-1 packet with fields in range comes back from its encoding |
| `UtpPacket.DecodesExactly` | pkg/utp/packet.go:81-124 | Any 20 bytes of version 1 are decoded, each to the packet it is the encoding of, and nothing else is |
| `Layouts.UtpHeader` | pkg/utp/packet.go:45-78 | Each byte of the header |
| `UtpConn.SentPacketIsRouted` | pkg/utp/mux.go:111-121 | A packet sent to a connection passes the STUN filter and reaches it unchanged |
| `SentDatagrams.RoutedExactly` | pkg/utp/mux.go:111-137 | A datagram reaches a connection exactly when it encodes a packet for its identifier and bytes 4 to 7 are not the STUN cookie |
| `UtpConn.UTPConn.HandlePacket` | pkg/utp/conn.go:124-182 | What FIN, STATE and DATA packets change, which acknowledgement is written, and that a FIN on a closed connection panics |
| `UtpConn.SecondFinPanics` | pkg/utp/conn.go:113-145 | Handled one after the other on an open connection, packets panic if and only if two of them are FINs |
| `SentDatagrams.LastNumberIsKept` | pkg/utp/conn.go:124-182 | The number acknowledged next is that of the last data or FIN handled |
| `SentDatagrams.RepliesAcknowledge` | pkg/utp/conn.go:129-175 | Data and FIN and nothing else are answered, with a STATE packet that decodes to the connection's identifier and their number |
| `SentDatagrams.FinSentEndsExactly` | pkg/utp/conn.go:147-163 | After a FIN was sent, STATE packets close the connection exactly when one carries its number |
| `UtpConn.UTPConn.Read` | pkg/utp/conn.go:185-223 | Returns the leftover first; else, as the select chooses, the front of the next payload, the end of the stream when closed, or the passed deadline |
| `UtpConn.ReadKeepsStream` | pkg/utp/conn.go:185-223 | However it chooses, as many bytes as fit come off the front of the stream and any other result leaves it as it was; the end is reported on closed connections only |
| `UtpConn.ClosedReadCanMissBytes` | pkg/utp/conn.go:206-219 | A concrete closed connection with an unread byte for which Read can report the end of the stream |
| `UtpConn.UTPConn.Write` | pkg/utp/conn.go:226-318 | Each chunk up to the last one started has its 16-bit number and is transmitted once, and once more after every wait that is not its own acknowledgement; a socket error, a passed deadline and a closed connection end it; the count returned is that of the acknowledged bytes, and all of them exactly when the Write succeeds |
| `SentDatagrams.WriteSendsItsPieces` | pkg/utp/conn.go:226-312 | After any packets handled, every datagram of a Write is decoded to data with the connection's identifier, the number of the last data or FIN, the consecutive 16-bit numbers and its own piece of 1400 bytes |
| `SentDatagrams.PlacesOfPiece` | pkg/utp/conn.go:237-315 | The copies of a piece stand together, behind those of the pieces before it |
| `SentDatagrams.TransmissionsExactly` | pkg/utp/conn.go:269-312 | A chunk is transmitted once for every wait up to the first that decides, and the loop ends as that wait says |
| `UtpConn.ScheduleCoversChunks` | pkg/utp/conn.go:237-315 | Every started chunk is transmitted at least once, but for a last one the socket refuses, and a Write succeeds exactly when all were started |
| `UtpConn.ReadStepKeepsStream` | pkg/utp/conn.go:185-223 | A Read of any size takes its bytes off the front of the stream and changes nothing else |
| `UtpConn.ChunksConcat` | pkg/utp/conn.go:234-242 | The pieces put together are the written bytes |
| `Delivery.DeliveryIsInOrder` | pkg/utp/conn.go:147-318 | Over any losses the chunks that reach the reader are the written ones in order, each one or more times in a row and none skipped; the enqueued payloads are those that found room, in order; acknowledged chunks have reached the reader; Read returns a prefix of what was enqueued; when no Write runs, every chunk has reached the reader |
| `StopAndWait.RunKeepsInv` | pkg/utp/conn.go:147-318 | Every event keeps the invariant that only the current and the previous chunk are in the network, in order |
| `StopAndWait.AckIsForCurrent` | pkg/utp/conn.go:296-301 | Write sees its own 16-bit number exactly when the current chunk was acknowledged, wrap-around included |
| `WriteRuns.WriteIsRun` | pkg/utp/conn.go:226-318 | Whatever a Write does for its waits, a run of the transmission's events does: same number, same datagrams towards the reader, and all written chunks acknowledged exactly when it succeeds |
| `Delivery.FirstCopiesArePlan` | pkg/utp/conn.go:163-180 | Without the repetitions an unbroken list of payloads is exactly the first chunks of the plan |
| `Delivery.WholeWriteArrives` | pkg/utp/conn.go:226-318 | When no Write runs and the read queue was never full, the first copies are exactly the bytes written; all enqueued payloads are so if and only if the schedule delivers as many datagrams as it cuts chunks |
| `Delivery.OneTransmissionEach` | pkg/utp/conn.go:226-318 | In particular when every chunk is transmitted once |
| `Delivery.NoneSkippedExactly` | pkg/utp/conn.go:163-180 | When no Write runs, no chunk is missing from what was enqueued if and only if each has a delivery that fires below the read queue's capacity |
| `Delivery.KeptAllExactly` | pkg/utp/conn.go:163-180 | Everything that reached the reader was enqueued if and only if no delivery met a full read queue |
| `Delivery.QueueAccounts` | pkg/utp/conn.go:163-223 | The read queue holds the deliveries that found room less the payloads taken by Reads, so never more than all deliveries less those |
| `Delivery.RoomyKeepsAll` | pkg/utp/conn.go:163-223 | With Reads of at least 1400 bytes, everything that reached the reader was enqueued if and only if the schedule never delivers while 100 deliveries are ahead of the Reads |
| `Delivery.RunAccounts` | pkg/utp/conn.go:163-318 | In every run datagrams delivered, lost and on the way add up to those transmitted, and what was enqueued is what the schedule delivers below capacity |
| `Delivery.ChunkCanArriveTwice` | pkg/utp/conn.go:163-180 | A concrete run in which a one-byte write, transmitted twice, is enqueued twice |
| `Delivery.AcknowledgedChunkCanBeLost` | pkg/utp/conn.go:163-180 | A run of 101 one-byte Writes that all return, after which the reader has 100 bytes |
| `RetransmitQueue.AgreesWithSerialOrder` | pkg/utp/reliability.go:58-60 | The 16-bit comparison is the order of section 3.2 of RFC 1982, and answers true both ways at distance 2^15, where that order is undefined |
| `RetransmitQueue.UnwrappedOrder` | pkg/utp/reliability.go:58-60 | Unwrapped numbers that differ by -32768 to 32767 are compared as numbers |
| `RetransmitQueue.Queue.Add` | pkg/utp/reliability.go:77-81 | Adds the packet at the end |
| `RetransmitQueue.Queue.Ack` | pkg/utp/reliability.go:91-115 | Splits the queue into the packets at or below the number and the others, keeping order, and clears exactly the counts at or below it |
| `RetransmitQueue.Queue.HandleDupAck` | pkg/utp/reliability.go:118-124 | Counts the call and answers whether it is the third |
| `RetransmitQueue.AckRemovesAPrefix` | pkg/utp/reliability.go:91-107 | In increasing unwrapped order an acknowledgement removes exactly the prefix numbered at or below it |
| `RetransmitQueue.EachPacketDecides` | pkg/utp/reliability.go:91-107 | In a queue of any order each packet is acknowledged or kept by its own number, in its place |
| `RetransmitQueue.QueueConservesPackets` | pkg/utp/reliability.go:77-115 | In every run the acknowledged packets followed by the queued ones are the added ones, in order |
| `RetransmitQueue.FiresOnTheThird` | pkg/utp/reliability.go:118-124 | While nothing clears a number, exactly the call that brings its count to three answers true, whatever happens to other numbers |
| `RetransmitQueue.FiresOnceBetweenClears` | pkg/utp/reliability.go:108-124 | After a clearing acknowledgement fast retransmit fires once if there are three duplicates before the next, and otherwise not at all |
| `Rto.RTOCalculator.Update` | pkg/utp/reliability.go:25-48 | The first sample sets srtt to it and rttvar to half of it; a later one takes 7/8 and 1/8, and 3/4 and 1/4 of the distance from the old srtt, cut to whole nanoseconds; the timeout is srtt and four rttvar, between 200 ms and 60 s |
| `Rto.RTOCalculator.GetRTO` | pkg/utp/reliability.go:51-55 | 500 ms before the first sample, after one the sample and four times its half within the bounds, and always between 200 ms and 60 s |
| `Rto.StaysNearUnrounded` | pkg/utp/reliability.go:25-40 | Over all runs the integer fields stay within 7 ns and 10 ns of SRTT and RTTVAR of section 2 of RFC 6298 computed without rounding |
| `Rto.DeviationIsKept` | pkg/utp/reliability.go:29-40 | A lower bound of the deviation over all runs: of half the first sample no more than a quarter is lost at each further one, but for 3 ns |
| `Rto.EstimateStaysWithinSamples` | pkg/utp/reliability.go:25-40 | For all runs of samples srtt lies between the smallest and the largest, and rttvar is at most the larger of half the first sample and the spread |
| `Rto.TimeoutCoversEstimate` | pkg/utp/reliability.go:41-47 | With samples up to 12 s the upper clamp is never reached and the timeout is never below srtt |
| `Rto.SettledIsFixed` | pkg/utp/reliability.go:39-40 | A sample leaves srtt unchanged exactly when srtt is at most 7 ns below it |
| `Rto.ConstantSampleSettles` | pkg/utp/reliability.go:33-47 | Under a constant sample the estimate settles after a computed number of steps: from above at exactly the sample with no deviation, from below within 7 ns, and the timeout with it |
| `SecureChannel.SecureConn.Write` | pkg/crypto/noise.go:132-144 | Puts one length-framed record on the network, or refuses it above 65535 bytes with its number used up |
| `SecureChannel.SecureConn.Read` | pkg/crypto/noise.go:146-171 | Returns leftover bytes first, else opens the next record and keeps what does not fit |
| `SecureChannel.SecureConn.ReadFull` | pkg/hypercore/sync.go:325-339 | Repeated reads fill a buffer with the next bytes of the stream exactly when the stream has so many, empty records included |
| `SecureChannel.WriteFrame` | pkg/hypercore/sync.go:312-323 | Writes the length and the payload as two records, and succeeds exactly when both fit |
| `Layouts.Records` | pkg/crypto/noise.go:191-203 | Each byte of a record and of the two Writes of a frame |
| `SecureChannel.FrameLimit` | pkg/crypto/noise.go:191-195 | With a tag of fixed size, the records of a message frame fit exactly up to 65535 bytes less the tag |
| `SecureChannel.ReadFrame` | pkg/hypercore/sync.go:325-339 | Reads a frame exactly when the stream starts with one within the limit, however it was cut into records |
| `SecureChannel.ReadStepKeepsStream` | pkg/crypto/noise.go:146-171 | Each Read gives the next bytes of what was written and fails only when every record was read |
| `SecureChannel.AnyBufferSizes` | pkg/crypto/noise.go:146-171 | For every choice of buffer sizes the reads give the written bytes in order and without gaps |
| `SecureChannel.MessagesComeBack` | pkg/crypto/noise.go:132-218 | A sequence of wire messages whose records fit comes back as the same sequence, for every choice of read sizes and leftover states |
| `SecureChannel.ReceiveMessages` | pkg/hypercore/sync.go:325-339 | Reading and decoding k frames, from any state of the leftover buffer, returns the messages at the front of the stream: the messages sent are the messages returned |
| `SecureChannel.SendMessages` | pkg/hypercore/sync.go:312-323 | Writing a frame per message puts exactly their records on the network if and only if all of them fit |
| `SecureChannel.Exchange` | pkg/hypercore/sync.go:312-339 | One end writes messages, the other reads what arrives: it returns the messages sent, if and only if every record fits |
| `SecureChannel.SentWithoutRefusal` | pkg/crypto/noise.go:191-203 | Without a refused record the reader has exactly the written records in front of it |
| `SecureChannel.ReadTakesReceived` | pkg/crypto/noise.go:146-171 | A Read of any size with an empty leftover buffer takes the next of the records the reading end gets, and fails exactly when there is none |
| `SecureChannel.RefusalEndsTheStream` | pkg/crypto/noise.go:132-171 | The reading end gets exactly the writes before the first refused one, whatever is written after it |
| `SecureChannel.ReadUnlessRefused` | pkg/crypto/noise.go:132-171 | Write number i is read if and only if neither it nor one before it was refused |
| `SecureChannel.TaggingCipherFits` | pkg/crypto/noise.go:132-171 | What these assume of the cipher holds of one with 16-byte tags, in every run of fewer than 2^64 records |
| `Varints.VarintRoundTrip` | pkg/network/protobuf.go:245-269 | Every 64-bit value comes back from its varint, whatever bytes follow |
| `Varints.EncodeVarint` | pkg/network/protobuf.go:245-253 | The shift loop writes the base-128 digits |
| `Varints.DecodeVarintLoop` | pkg/network/protobuf.go:255-269 | The shift-and-or loop is the base-128 value cut to 64 bits, with an error for no final byte within ten |
| `Varints.VarintSize` | pkg/network/protobuf.go:245-253 | A number of k base-128 digits takes exactly k bytes |
| `Varints.AcceptedExactly` | pkg/network/protobuf.go:255-269 | A varint is read exactly up to the first byte below 128, which must be among the first ten |
| `Layouts.SmallVarints` | pkg/network/protobuf.go:245-253 | Each byte of a varint below 2^21 |
| `Protobuf.UnmarshalFields` | pkg/network/protobuf.go:302-349 | The field loop hands the receiver the fields in order and ends as specified: done, failed, or out of range when 64-bit arithmetic on a length overflows |
| `Protobuf.NextField` | pkg/network/protobuf.go:309-347 | One turn of that loop, with every bound checked as the source does |
| `Protobuf.DecodingIsSequential` | pkg/network/protobuf.go:302-349 | For every receiver, decoding a concatenation is decoding the second part on top of the first |
| `Protobuf.UnknownFieldsChangeNothing` | pkg/network/protobuf.go:302-349 | Fields unknown to the receiver, put between two records, change neither result nor success |
| `Protobuf.PanicsExactly` | pkg/network/protobuf.go:330-338 | Within the frame limit the slice expression panics if and only if the frame is a part that decodes without error followed by the head of a length-delimited field whose end is 2^63 or more |
| `Protobuf.WrittenFramesDoNotPanic` | pkg/network/protobuf.go:271-349 | No written frame does so |
| `ProtobufMessages.ElevenBytesPanic` | pkg/network/protobuf.go:330-338 | Eleven bytes that do so |
| `Protobuf.FieldsRoundTrip` | pkg/network/protobuf.go:271-349 | Written fields are read back, in order, with their numbers and values |
| `Layouts.SmallFields` | pkg/network/protobuf.go:271-300 | Tag, length and content of a field |
| `Layouts.FieldNumbers` | pkg/network/protobuf.go:48-222 | Under which numbers, and in which order, each message writes its fields |
| `Layouts.HandshakeBytes` | pkg/network/protobuf.go:81-102 | Each byte of a small handshake |
| `ProtobufMessages.HandshakeOfAnyFields` | pkg/network/protobuf.go:105-132 | From fields in any order and number a handshake takes the last of each, and all extensions |
| `ProtobufMessages.RequestOfAnyFields` | pkg/network/protobuf.go:152-171 | The same of a request |
| `ProtobufMessages.DataOfAnyFields` | pkg/network/protobuf.go:195-216 | The same of data |
| `ProtobufMessages.SmallMessagesOfAnyFields` | pkg/network/protobuf.go:58-241 | The same of cancel and feed |
| `ProtobufMessages.MarshalHandshake` | pkg/network/protobuf.go:81-102 | Writes the present fields in order, extensions by a loop, and refuses exactly the frames over the limit |
| `ProtobufMessages.HandshakeRoundTrip` | pkg/network/protobuf.go:81-132 | Every handshake that is not refused comes back, with repeated extensions in order |
| `ProtobufMessages.RequestRoundTrip` | pkg/network/protobuf.go:136-171 | Every request comes back |
| `ProtobufMessages.DataRoundTrip` | pkg/network/protobuf.go:175-216 | A data message is written exactly when its whole frame is within the limit, and then comes back |
| `ProtobufMessages.CancelRoundTrip` | pkg/network/protobuf.go:220-241 | Every cancel comes back |
| `ProtobufMessages.FeedRoundTrip` | pkg/network/protobuf.go:48-67 | A feed message that is written comes back if and only if its key is at least five bytes below 8 MiB, because Marshal does not count the tag and length |
| `ProtobufMessages.LongKeyIsNotReadBack` | pkg/network/protobuf.go:48-67 | A key of 8,388,604 bytes is written and cannot be read |
| `Turn.BuildSendIndication` | pkg/utp/turn.go:164-195 | Fills the packet in place with header, masked peer address and padded data, and refuses a peer without an IPv4 form |
| `Layouts.SendIndication` | pkg/utp/turn.go:164-195 | Each byte of the packet: type, length, cookie, transaction, masked port and address, payload, padding |
| `Turn.ParseDataIndication` | pkg/utp/turn.go:198-268 | The attribute walk stays in bounds and ends on every input; type, cookie and length are checked and an absent payload is an error |
| `Turn.ParseChecks` | pkg/utp/turn.go:198-217 | What is parsed has the type, the cookie and the announced length |
| `Turn.ParseOfAttributes` | pkg/utp/turn.go:218-268 | A packet with any list of attributes is parsed into what they say |
| `Turn.LastAttributeDecides` | pkg/utp/turn.go:218-262 | The last payload, the last address of eight bytes and the last one of family 1 decide |
| `Turn.OthersArePassedOver` | pkg/utp/turn.go:218-262 | Attributes of other types, short addresses and other families set nothing |
| `Turn.RelayRoundTrip` | pkg/utp/turn.go:164-268 | A Send Indication whose type is changed to Data Indication gives back peer, port and payload if and only if the port fits 16 bits and the payload has 1 to 65516 bytes |
| `Turn.PortTwice` | pkg/utp/turn.go:185-248 | Masking a port with the cookie twice gives it back |
| `Turn.AddressTwice` | pkg/utp/turn.go:186-255 | Masking an address with the cookie twice gives it back |

## Where the code and its promise differ

- A remote buffer can make the protobuf decoder panic: the end of a length-delimited field is computed in signed 64-bit
  arithmetic before it is compared (`ProtobufMessages.ElevenBytesPanic`, `Protobuf.PanicsExactly`).
- µTP can deliver a chunk more than once (`Delivery.ChunkCanArriveTwice`; `Delivery.WholeWriteArrives` says which
  schedules deliver each once), and acknowledges a chunk that it drops for lack of room
  (`Delivery.AcknowledgedChunkCanBeLost`; `Delivery.NoneSkippedExactly` says when none is lost, and
  `Delivery.RoomyKeepsAll` how an application avoids it).
- A session over encrypted records ends when it is asked, by a Request or by the Want of a greeting, for a block whose
  frame is over their limit, although messages may be up to 10 MiB (`Replication.LargeBlockIsNotSent`; exactly when:
  `Replication.RequestStopsExactly`, `Replication.WantStopsExactly`, `Replication.GreetingStopsExactly`).
- A second FIN panics, because it closes a closed channel (`UtpConn.SecondFinPanics`), and a Read on a closed connection
  can report the end of the stream before the last bytes (`UtpConn.ClosedReadCanMissBytes`).
- `MarshalFeed` checks the key and not the frame, so the last five lengths it accepts cannot be read
  (`ProtobufMessages.FeedRoundTrip`).
- The DHT reader fails on a final empty address or peer (`Rpc.RoundTripExactly`), and accepts a truncated final
  identifier, address or peer, filled up with zeros (`Rpc.OneByteOfTopic`, `Rpc.TruncatedExactly`).
- A record refused for its size has used up a number, so the connection is unusable from then on
  (`SecureChannel.RefusalEndsTheStream`).
- The 16-bit comparison holds both ways at distance 2^15 (`RetransmitQueue.AgreesWithSerialOrder`).
- TURN lengths are cut to 16 bits without an error (`Turn.RelayRoundTrip`).

## Left out

- Handshake negotiation and the choice of extensions in `SyncSession.Run`: both ends start with the same setting.
- A log's owner with a cache: `Replication` keeps A on flat files, which sign afresh, and lets B have a cache; what is served from a cache is stated in `Answers`.
- Two appenders on one log at a time: the length check and the append are one step here.
- Torn index records and partial data writes: the code does not realign, so a record is written whole or not at all.
- µTP connection set-up, the timer of Close, several writers, and reordering networks.
- Writes that are abandoned by a deadline, a socket error or a closed connection end `UtpConn.UTPConn.Write`, but `StopAndWait` does not start another Write after them.
- UtpConn.UTPConn.HandlePacket: removing the connection from the multiplexer is not modelled, nor anything after a panic.
- Session.SyncSession.WriteFrame: the four length bytes that a refused frame may leave on the network are not modelled; the session ends there.
- The timers of Write: `UtpConn.UTPConn.Write` is given what each of its turns meets, and `StopAndWait` lets a chunk be transmitted at any time while it is unacknowledged.
- Packets handled while a Write runs: `UtpConn.UTPConn.Write` has the connection to itself, `StopAndWait` interleaves the two.
- The end of the record numbers at 2^64, where the cipher refuses to go on.
- LEDBAT congestion control: floating point that does not come out even; what remains is a clamp.
- Rto.RTOCalculator.Update: covers non-negative samples below 2^50 ns, where the float64 steps are exact.
- The count of duplicate acknowledgements is unbounded here and 64 bits wide in the source.
- Protobuf.UnmarshalFields: the closures that write into the receiver are functions to a new receiver, so aliasing of the receiver is not modelled; nil and empty slices are one value.
- `Handshake.Validate` and the protobuf `Validate` checks: left out because they are single comparisons.
- Noise key exchange, key conversion, BLAKE2b, Ed25519 and zlib: library code, abstract functions here.
- What a connection does after a failed Read: the session ends there.
- Other TURN and STUN requests, relaying fallback, announcements, dispatcher timers and swarm upkeep: network plumbing.
- DHT storage of announced peers, resolution of addresses, and the request handler: map operations and I/O.
- bbolt transactions and buckets are a map; an error of the database is left out.
- Logger, configuration, Postgres, gateway, HTTP proxy and chat: I/O or thin wrappers.
