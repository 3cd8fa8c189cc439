# Models of an Ethereum sentry

Dafny models of the networking core of an Ethereum sentry node, and proofs about them: the RLPx transport
(`devp2p/src/ecies`, `devp2p/src/mac.rs`), the swarm's connection lifecycle with the capability server
(`devp2p/src/rlpx.rs`, `src/main.rs`), capability negotiation and message multiplexing (`devp2p/src/peer.rs`),
the Kademlia table and lookup (`discv4/src`), and the EIP-1459 tree resolver (`dnsdisc/src/lib.rs`).
`dafny verify dfyconfig.toml` checks everything.

| file | what it holds |
|---|---|
| Wrappers, Bytes, Crypto | optional values; bytes, exclusive-or, big-endian numbers; foreign primitives as functions under stated laws |
| Framing, Handshake, Codec | one direction of a session, the auth/ack handshake, the incremental decoder, as values |
| WireFormat | the bytes of envelopes and frames and the session secrets in terms of the primitives alone, and exactly what is accepted |
| Session | two endpoints over two byte pipes: all runs, all chunkings, all interleavings |
| SessionProgress, Tampering | no run is ever stuck; what changed tags lead to |
| Transport | the same endpoint and codec as objects updated in place, proved equal to the values above |
| Swarm | dials, reapers, incoming connections and sessions as a transition system, one step per lock region |
| SwarmLife | whole lives of dials and sessions, and who is let in |
| CapabilityServer, PeerStreams | the peer tables and the swarm as objects, proved against the transition system |
| Egress | the egress loop of a session |
| Capabilities, Multiplexing, PeerStream | negotiation, message ids, the peer stream and its disconnect latch |
| EndToEnd | peer streams over a session: what one stream sends, the other yields |
| Distance, Kademlia, RepeatedIds | distances, routing table, when a bucket holds an id twice |
| Lookup, Inflight | iterative lookup, outstanding requests |
| DnsTree, BranchRecord | tree resolution against reachability; the text of a branch |

How to read the results:

- Cryptography is a record of functions, `Crypto.Primitives`. Theorems hold for every record that satisfies
  `Lawful()`: shared secrets are symmetric, recovering a signature gives its signer, keys and lists parse back.
  `Crypto.LawsAreConsistent` shows that the laws can be met.
- A failed `unwrap`, `assert!` or slice is an error value (`Panic`, `fault`, `Abort`), so its absence is a theorem.
- Objects have methods whose postconditions equate the new state with a function of the old one; what the system
  promises is then proved of those functions, over all runs.

Where the code does not do what it is meant to:

- The receive loop of `devp2p/src/peer.rs:456-461` compares with `>` and does not stop at the matching capability.
  `Multiplexing.ReceiveInverts` gives the exact condition under which it still undoes the sender's numbering,
  `Multiplexing.SecondCapabilityConfuses` an id that arrives at the wrong capability, and
  `Multiplexing.FirstFitInverts` shows that the intended loop is the inverse for every table.
- Only one byte of message id is read (`devp2p/src/peer.rs:390`), so ids from 0x80 on never arrive, and a frame of
  2^24 bytes or more aborts in `write_header` although its payload is within the receiver's limit.
  `PeerStream.SubprotocolRoundTrip` is an equivalence that includes both; `PeerStream.PayloadWithinLimitAborts` is a
  payload of the second kind.
- A Disconnect is written as a bare integer (`devp2p/src/peer.rs:519`) and read as a list
  (`devp2p/src/peer.rs:418-421`): `PeerStream.DisconnectArrivesMalformed` shows that none ever arrives as itself.
- A dial whose future is dropped before its first poll lowers `currently_connecting` without having raised it:
  `Swarm.UnpolledDialWraps` is such a run and `Swarm.DialCounter` says exactly when the counter is right.
- `push_replacement` does not look for duplicates (`discv4/src/kad.rs:40-44`) and `remove` promotes without looking
  (`discv4/src/kad.rs:185-191`), so a bucket can come to hold an id twice: `RepeatedIds.SomeRunRepeatsAnId` is such a
  run, and `RepeatedIds.IdsStayDistinctIff` says that over a run ids stay distinct exactly when no removal promotes a
  node that its bucket still holds.
- A removed id may still resolve: `Kademlia.EvictedStillKnown` says exactly when.
- The receive loop accepts one id more than a capability has: `PeerStream.ShippedNumbering`.
- A branch child of up to 26 bytes need not come back from its text: `BranchRecord.BranchRoundTrip` says exactly when.

## Model

| member | source | states |
|---|---|---|
| Crypto.Primitives.IdRoundTrip | devp2p/src/util.rs:26-35 | a public key survives being sent as a 64-byte id |
| Framing.HeaderRoundTrip | devp2p/src/ecies/algorithm.rs:469-504 | a receiver in step with the sender accepts the header's MAC, reads its size and is in step again |
| Framing.BodyRoundTrip | devp2p/src/ecies/algorithm.rs:526-559 | the same for a body of any length, padding removed |
| Framing.Half.CryptInvolution | devp2p/src/ecies/algorithm.rs:463-504 | encrypting twice at one keystream position gives the data back |
| WireFormat.FrameOnTheWire | devp2p/src/ecies/algorithm.rs:469-543 | the bytes of a frame and the state after it, in terms of keystream, block cipher and hash alone |
| WireFormat.HeaderOpensIff | devp2p/src/ecies/algorithm.rs:486-504 | for every 32 bytes: accepted exactly when the tag is that of the MAC's history with them, else a tag error; what is read and what state remains |
| WireFormat.BodyOpensIff | devp2p/src/ecies/algorithm.rs:545-559 | the same for every body of the declared length |
| WireFormat.OnlySealedHeadersOpen | devp2p/src/ecies/algorithm.rs:486-504 | a header opens if and only if a sender in step sealed it, and is read as what was sealed |
| WireFormat.OnlySealedBodiesOpen | devp2p/src/ecies/algorithm.rs:545-559 | a body opens if and only if a sender in step sealed it, and is read as what was sealed |
| Handshake.Kdf | devp2p/src/ecies/algorithm.rs:36-58 | the loop over `written` and `ctr` fills the buffer with the counted hash blocks |
| Handshake.DeriveKeys | devp2p/src/ecies/algorithm.rs:184-189 | the encryption and MAC keys are the two halves of 32 derived bytes, the second hashed |
| Handshake.DecryptEncrypt | devp2p/src/ecies/algorithm.rs:175-235 | what is encrypted to a key behind its length prefix decrypts to the data: the authenticated length is the prefix, so the tag matches |
| WireFormat.DerivedBlock | devp2p/src/ecies/algorithm.rs:36-58 | each derived block is the hash of its big-endian number from one, the secret and the shared information |
| WireFormat.EnvelopeOnTheWire | devp2p/src/ecies/algorithm.rs:175-207 | the bytes of an encrypted message in terms of the primitives alone |
| WireFormat.DecryptsIff | devp2p/src/ecies/algorithm.rs:209-235 | for every input: the exact condition for decryption, the plaintext, and which error otherwise |
| WireFormat.AuthOnTheWire | devp2p/src/ecies/algorithm.rs:237-285 | the auth is signed by the ephemeral key over the static secret masked by the nonce, and encrypted to the server |
| WireFormat.AckOnTheWire | devp2p/src/ecies/algorithm.rs:333-369 | the ack carries the server's ephemeral id and nonce, encrypted to the client |
| WireFormat.AuthAcceptedIff | devp2p/src/ecies/algorithm.rs:287-325 | the exact condition for an auth list to be adopted, and the five fields then set |
| WireFormat.AckAcceptedIff | devp2p/src/ecies/algorithm.rs:371-390 | the exact condition for an ack list to be adopted, and the fields then set |
| WireFormat.HandshakeAborts | devp2p/src/ecies/algorithm.rs:91-131 | which missing fields make the handshake's calls abort, and that a client needs an id that is a key |
| Handshake.ServerReadsAuth | devp2p/src/ecies/algorithm.rs:237-331 | for all keys, nonces and padding the server accepts the auth and holds the client's id, key, nonce, ephemeral key and the shared ephemeral secret |
| Handshake.ClientReadsAck | devp2p/src/ecies/algorithm.rs:333-460 | after the ack both ends hold the same secrets, each one's egress cipher and MAC equal the other's ingress |
| WireFormat.SecretsByRole | devp2p/src/ecies/algorithm.rs:400-460 | the AES and MAC secrets named by the parties' roles, and both ends' ciphers and MACs after the handshake in terms of them |
| Codec.DecodeExtends | devp2p/src/ecies/proto.rs:72-136 | a call decides from the bytes it has, or leaves a state from which decoding resumes as if the bytes had come together |
| Codec.DrainExtends | devp2p/src/ecies/proto.rs:72-136 | decoding a prefix to exhaustion and then the rest is decoding the whole |
| Codec.FeedJoins | devp2p/src/ecies/proto.rs:72-136 | two chunks give what their concatenation gives |
| Codec.ChunkIndependence | devp2p/src/ecies/proto.rs:72-136 | any split of a byte stream gives the same items, state and error as the whole stream |
| Codec.MessageEncodesIff | devp2p/src/ecies/proto.rs:143-161 | a message is sealed if and only if the session keys are set and it is below 2^24 bytes; else encoding aborts |
| Codec.DecodeAborts | devp2p/src/ecies/proto.rs:105-131 | decoding a header without keys or a body of unknown size aborts, so that its absence in Session.EveryRunIsSafe means something |
| Session.DecodeProgress | devp2p/src/ecies/proto.rs:72-136 | on any arrived prefix of sealed messages, `decode` yields the next message or waits, and stays in step |
| Session.InvRun | devp2p/src/ecies/proto.rs:177-232 | every run of the pair from connect on keeps the two directions in step |
| Session.EveryRunIsSafe | devp2p/src/ecies/proto.rs:72-232 | in every run no MAC or tag check fails and no `unwrap` aborts, each side has received a prefix of what the other sent, and the server knows the client's id |
| Session.EveryRunCatchesUp | devp2p/src/ecies/algorithm.rs:469-559 | once all bytes have arrived and polling yields nothing, all messages were received and keystream position and MAC history equal the sender's |
| Session.PollsDeliverAll | devp2p/src/ecies/proto.rs:246-258 | from any established pair in step with all bytes arrived, a run of polls brings in every missing message |
| Session.EveryRunDelivers | devp2p/src/ecies/proto.rs:246-258 | in every run, once both sides are established and a direction's bytes have arrived, one poll for each message sent delivers them all |
| Session.HandshakeNeverStalls | devp2p/src/ecies/proto.rs:177-232 | in every run, with its bytes arrived, the side waiting for auth or ack moves on at its next poll |
| SessionProgress.SendIsSealed | devp2p/src/ecies/proto.rs:143-161 | a send of an established side puts exactly its sealed frame on the wire and changes nothing else |
| SessionProgress.EveryRunCanSend | devp2p/src/ecies/proto.rs:271-276 | in every run an established side's send is sealed and recorded |
| SessionProgress.EveryRunCanFinish | devp2p/src/ecies/proto.rs:177-232 | every run, whatever has happened, can go on until both sides are established and have received all that was sent |
| Tampering.ForgedTagsAreRefused | devp2p/src/ecies/algorithm.rs:486-559 | in every run, a header or body tag changed on the way breaks the receiving side off with a tag error, and nothing more is received |
| Tampering.ForgedAuthIsRefused | devp2p/src/ecies/algorithm.rs:209-235 | a server that is sent an auth with a changed tag breaks off with a tag error and takes nothing from it |
| Transport.Mac.UpdateHeader | devp2p/src/mac.rs:27-38 | the in-place loop absorbs the encrypted digest XORed with the header |
| Transport.Mac.UpdateBody | devp2p/src/mac.rs:40-53 | the in-place loop absorbs the body and then the digest XORed with its encryption |
| Transport.Mac.Digest | devp2p/src/mac.rs:55-57 | the first half of the hash of everything absorbed |
| Transport.Ecies.EncryptMessage | devp2p/src/ecies/algorithm.rs:175-207 | the message written is the one whose decryption is proved to give the data back; it fails exactly when its size exceeds 16 bits |
| Transport.Ecies.DecryptMessage | devp2p/src/ecies/algorithm.rs:209-235 | decryption of every input, short, badly keyed and badly tagged ones included |
| Transport.Ecies.WriteAuth | devp2p/src/ecies/algorithm.rs:237-285 | the fields and the message are those of the handshake specification |
| Transport.Ecies.ReadAuth | devp2p/src/ecies/algorithm.rs:327-331 | as above for a received auth, on every input |
| Transport.Ecies.ParseAuth | devp2p/src/ecies/algorithm.rs:287-325 | the items are adopted one by one, and each kind of malformed item stops with the fields before it set and the others not |
| Transport.Ecies.SetupFrame | devp2p/src/ecies/algorithm.rs:400-460 | the ciphers and MACs are set as in the specification whose secrets WireFormat.SecretsByRole names, or the call aborts |
| Transport.Ecies.WriteAck | devp2p/src/ecies/algorithm.rs:333-369 | as specified, with frame setup |
| Transport.Ecies.ReadAck | devp2p/src/ecies/algorithm.rs:392-398 | as specified on every input, with frame setup |
| Transport.Ecies.ParseAck | devp2p/src/ecies/algorithm.rs:371-390 | the items are adopted one by one up to the first malformed one |
| Transport.Ecies.WriteHeader | devp2p/src/ecies/algorithm.rs:463-484 | writes the sealed header and advances only the egress direction, or aborts on a size of more than three bytes or missing keys |
| Transport.Ecies.WriteBody | devp2p/src/ecies/algorithm.rs:520-543 | writes the sealed body and advances only the egress direction |
| Transport.Ecies.ReadHeader | devp2p/src/ecies/algorithm.rs:486-504 | opens a header, setting `body_size`; a bad tag leaves the MAC advanced and the cipher not |
| Transport.Ecies.ReadBody | devp2p/src/ecies/algorithm.rs:545-559 | opens a body, clearing `body_size`; exactly the sealed ones open, by WireFormat.OnlySealedBodiesOpen |
| Transport.EciesCodec.Decode | devp2p/src/ecies/proto.rs:72-136 | the loop over the four states computes the decoding function that is chunk-independent |
| Transport.EciesCodec.Encode | devp2p/src/ecies/proto.rs:143-161 | sets the state and writes what the encoding function gives |
| Swarm.InvStep | devp2p/src/rlpx.rs:726-838 | every atomic step keeps ownership of entries, the peer bound and the counter |
| Swarm.InvRun | devp2p/src/rlpx.rs:703-840 | every run keeps them |
| Swarm.LiveDialFindsItsEntry | devp2p/src/rlpx.rs:806-837 | in every reachable state a dial that completes finds its own `Connecting` entry, so adopting or removing without comparing ids is sound |
| Swarm.ReaperTakesOnlyItsOwn | devp2p/src/rlpx.rs:727-747 | a reaper removes only its own dial's entry, only when that dial is over, and never a connected one |
| Swarm.SessionDropsItsOwn | devp2p/src/rlpx.rs:299-329 | the last statement of a session removes that session's entry and no other |
| Swarm.PipesServeLiveSessions | src/main.rs:122-152 | no assertion or `unwrap` of the capability server fires; pipes and block table have the same peers, exactly those with a session connected and not torn down, at most one each, also across reconnections |
| Swarm.PeerBound | devp2p/src/rlpx.rs:755-783 | the map holds at most `max_peers` entries plus the present ones of unchecked dials |
| Swarm.CheckedDialsKeepTheLimit | devp2p/src/node_filter.rs:14-16 | with checked dials and incoming peers only, the limit holds in every run |
| Swarm.BannedStayOut | devp2p/src/node_filter.rs:14-46 | with checked dials and incoming peers only, a banned peer outside the map stays outside in every run |
| Swarm.DialCounter | devp2p/src/rlpx.rs:726-753 | `currently_connecting` is the number of started dials with an unfinished reaper if and only if every reaped dial had been polled, and is then zero when all are done |
| Swarm.UnpolledDialWraps | devp2p/src/rlpx.rs:726-753 | a future dropped before its first poll makes the counter wrap |
| SwarmLife.IncomingIsAdmittedIff | devp2p/src/rlpx.rs:397-424 | in every reachable state an incoming peer gets an entry, a session, pipes and block zero if and only if it is absent, there is room and it is not banned; otherwise nothing changes |
| SwarmLife.DialEntersIff | devp2p/src/rlpx.rs:755-788 | a dial's entry is inserted if and only if its peer is absent and, for a checked dial, there is room and no ban |
| SwarmLife.DialStarts | devp2p/src/rlpx.rs:703-788 | a call and the first poll of its future count the dial and enter it |
| SwarmLife.DialConnects | devp2p/src/rlpx.rs:703-840 | from every reachable state, the whole life of a dial that succeeds: the exact state after it and its reaper, the counter as before |
| SwarmLife.DialFails | devp2p/src/rlpx.rs:828-833 | a dial that fails leaves everything but its own record as it was |
| SwarmLife.DroppedDialIsReaped | devp2p/src/rlpx.rs:727-747 | so does one whose future is dropped: its reaper takes its entry back |
| SwarmLife.SessionEnds | devp2p/src/rlpx.rs:299-329 | a session that leaves takes exactly its own pipes, block and entry with it |
| SwarmLife.BanTakesEffect | devp2p/src/node_filter.rs:43-45 | a ban keeps an absent peer out of every later run of checked dials and incoming connections |
| SwarmLife.FaultsAreRecorded | src/main.rs:122-128 | a fault is recorded exactly where `setup_peer` would assert or `next` unwrap in vain |
| CapabilityServer.PeersByBlockExact | src/main.rs:62-66 | the index by block holds each peer under exactly its block, and no empty set |
| CapabilityServer.BlockTracker.SetBlockNumber | src/main.rs:69-80 | records the block and keeps the two maps exact inverses |
| CapabilityServer.BlockTracker.RemovePeer | src/main.rs:82-92 | forgets the peer and keeps the two maps exact inverses |
| CapabilityServer.BlockTracker.PeersWithMinBlock | src/main.rs:94-101 | returns exactly the peers whose recorded block is at least the given one |
| CapabilityServer.Server.SetupPeer | src/main.rs:122-128 | adds the pipes and block zero, under the source's `assert!` |
| CapabilityServer.Server.AcceptStatus | src/main.rs:192-202 | a peer whose status fits becomes valid; its pipes stay |
| CapabilityServer.Server.TeardownPeer | src/main.rs:144-152 | removes the peer from both tables and from the valid peers |
| PeerStreams.PeerSwarm.AddPeer | devp2p/src/rlpx.rs:703-749 | the step of the transition system, keeping its invariant |
| PeerStreams.PeerSwarm.FirstPoll | devp2p/src/rlpx.rs:749-753 | counts the dial |
| PeerStreams.PeerSwarm.InsertEntry | devp2p/src/rlpx.rs:755-788 | inserts `Connecting` unless the peer is present or refused |
| PeerStreams.PeerSwarm.CompleteDial | devp2p/src/rlpx.rs:806-837 | adopts exactly when the handshake succeeded; `setup_peer` is called only where its assertion holds |
| PeerStreams.PeerSwarm.Reap | devp2p/src/rlpx.rs:731-744 | the reaper's lock region is its step |
| PeerStreams.PeerSwarm.ReleaseCount | devp2p/src/rlpx.rs:745-745 | the reaper's last statement lowers the counter, modulo the word size |
| PeerStreams.PeerSwarm.DropFuture | devp2p/src/rlpx.rs:749-840 | dropping the future at an await point drops the sender its reaper waits on |
| PeerStreams.PeerSwarm.HandleIncoming | devp2p/src/rlpx.rs:397-424 | the step that SwarmLife.IncomingIsAdmittedIff spells out; `setup_peer` is called only where its assertion holds |
| PeerStreams.PeerSwarm.NextEvent | src/main.rs:389-399 | a running session finds pipes, and they are its own |
| PeerStreams.PeerSwarm.LeaveSession | devp2p/src/rlpx.rs:288-299 | a session with a reason to end asks for no further event |
| PeerStreams.PeerSwarm.TeardownSession | devp2p/src/rlpx.rs:299-314 | the disconnect event tears down the session's pipes |
| PeerStreams.PeerSwarm.DisconnectPeer | devp2p/src/rlpx.rs:78-82 | the entry is present and is removed |
| PeerStreams.PeerSwarm.BanPeer | devp2p/src/node_filter.rs:36-46 | banning keeps the invariant |
| Egress.EgressLoop | devp2p/src/rlpx.rs:235-329 | the loop ends with the first round that has a reason, after exactly the specified effects |
| Egress.EndsOnce | devp2p/src/rlpx.rs:235-329 | the server is told of the disconnect exactly once, `next` is not called after it, and a disconnect is the last message sent |
| Egress.Body | devp2p/src/rlpx.rs:239-314 | one selection's effects, and whether it ends the session |
| Egress.EachRoundSendsItsMessage | devp2p/src/rlpx.rs:244-297 | while a session lasts each round sends exactly one message: a ping when one is due, a pong when one is due, else the server's |
| Egress.CallsMatchEvents | devp2p/src/rlpx.rs:238-253 | `next` is called once and once more for each message it gave, and each ping sent releases its pinger |
| Egress.HowSessionsEnd | devp2p/src/rlpx.rs:255-314 | for each kind of ending, exactly what is sent, waited for and told, with which reason |
| Capabilities.FromMap | devp2p/src/rlpx.rs:445-463 | the cached list holds each entry of the capability map once |
| Capabilities.LessIsLexicographic | devp2p/src/peer.rs:325-325 | names are sorted by their first difference, a prefix first |
| Capabilities.Negotiate | devp2p/src/peer.rs:303-325 | the list computed by push, retain and sort is sorted by name and holds exactly the highest common version of each common name |
| Capabilities.KeepBest | devp2p/src/peer.rs:317-323 | the `retain` loop keeps exactly the highest version of each name |
| Capabilities.NegotiationIsSymmetric | devp2p/src/peer.rs:303-325 | both sides compute the same names and versions in the same order |
| Capabilities.NothingShared | devp2p/src/peer.rs:346-353 | the list is empty exactly when nothing is common |
| Capabilities.MapsAgree | devp2p/src/rlpx.rs:445-463 | for any two capability maps both sides get one list, the highest shared version of each shared name, empty exactly when the maps share no key |
| Multiplexing.WireId | devp2p/src/peer.rs:529-569 | a wire id is sent exactly for a known capability and an id below its length, and is the base plus the preceding lengths plus the id |
| Multiplexing.Demultiplex | devp2p/src/peer.rs:454-468 | the imperative loop computes the recursive form whose exact inverse condition is proved, and rejects an index past the table |
| Multiplexing.ReceiveInverts | devp2p/src/peer.rs:454-468 | the written loop undoes the numbering if and only if the id is not the first of a later capability and not above any later length |
| Multiplexing.SecondCapabilityConfuses | devp2p/src/peer.rs:454-468 | with lengths 17 and 5, id 10 of the first arrives as id 5 of the second |
| Multiplexing.SingleCapabilitySurvives | src/main.rs:624-626 | with one capability every id comes back |
| Multiplexing.FirstFitInverts | devp2p/src/peer.rs:454-468 | the intended loop, not the written one, inverts the numbering for every table |
| Multiplexing.RangesTile | devp2p/src/peer.rs:529-569 | the ranges of the capabilities cover exactly the ids up to the sum of lengths |
| Multiplexing.NumberingIsInjective | devp2p/src/peer.rs:529-569 | distinct capabilities and ids get distinct wire ids |
| PeerStream.FirstByte | devp2p/src/peer.rs:385-400 | one byte of an RLP number keeps exactly the numbers below 0x80 |
| PeerStream.NumberReadsIff | devp2p/src/peer.rs:390-391 | a byte is read as a number exactly when it is that number's whole item |
| PeerStream.LargeNumberItem | devp2p/src/peer.rs:571-573 | an id from 0x80 on is written as its length and its big-endian digits |
| PeerStream.SendOutcomes | devp2p/src/peer.rs:506-591 | refused once disconnected, dropped without a table entry, aborted if too long, else the exact frame |
| PeerStream.ControlFrames | devp2p/src/peer.rs:517-528 | the bytes of ping, pong and disconnect |
| PeerStream.FramesPoll | devp2p/src/peer.rs:389-453 | what a frame stands for by its first byte, the reason of a well-formed disconnect and every refusal included |
| PeerStream.CompressedFramesPoll | devp2p/src/peer.rs:395-412 | with compression the same, after refusing what does not decompress or is above 16 MiB |
| PeerStream.ShippedNumbering | src/main.rs:624-626 | the shipped table's ids 0 to 16 are sent as 0x10 to 0x20, other names and larger ids are dropped, and 0x10 to 0x21 are accepted |
| PeerStream.PeerStream.StartSend | devp2p/src/peer.rs:506-591 | the frame written, what is dropped silently, the broken-pipe error, the aborts on what is too long for the compressor or the frame's size field, and the latch |
| PeerStream.PeerStream.PollNext | devp2p/src/peer.rs:380-493 | the item yielded for a frame, for an error and for the end of the transport, every error included, and the latch |
| PeerStream.SubprotocolRoundTrip | devp2p/src/peer.rs:380-591 | a subprotocol message is sent and arrives unchanged if and only if its wire id is below 0x80, its packed payload with the id byte is below 2^24 bytes, its payload is within the receiver's limit, and the loop maps its id back |
| PeerStream.ShippedTableRoundTrips | src/main.rs:624-626 | with the shipped table of one capability of 17 ids a message arrives unchanged if and only if its payload fits, and every payload whose worst-case compressed size fits does |
| PeerStream.PayloadWithinLimitAborts | devp2p/src/peer.rs:575-588 | under a lawful compressor, a payload within the receiver's limit on which sending aborts |
| PeerStream.PingPongRoundTrip | devp2p/src/peer.rs:436-443 | ping and pong are always sent and arrive as themselves |
| PeerStream.DisconnectArrivesMalformed | devp2p/src/peer.rs:416-435 | every disconnect is sent, arrives as a malformed one, and still latches the receiver |
| PeerStream.LatchedIsSilent | devp2p/src/peer.rs:383-417 | a latched stream writes and yields nothing in any run of calls |
| PeerStream.NothingAfterDisconnect | devp2p/src/peer.rs:506-519 | after a disconnect is sent or received, whatever came before, no later call writes or yields |
| EndToEnd.ArrivesExactly | devp2p/src/peer.rs:380-591 | any message of any kind is sent and read back if and only if it is deliverable, a condition on the table and the payload alone |
| EndToEnd.MessagesArrive | devp2p/src/peer.rs:588-590 | in every run of the encrypted session, the receiving stream yields exactly the deliverable messages the sending stream was given, in order, up to what has been received, and all of them once every byte has arrived and is polled for |
| Distance.LogDistance | discv4/src/kad.rs:61-72 | the byte scan returns the floor of the binary logarithm of the 256-bit distance, none exactly for equal hashes |
| Distance.BucketIndex | discv4/src/kad.rs:61-72 | the reference: none exactly for equal hashes, else a logarithm below 256 |
| Distance.LogFromFirstByte | discv4/src/kad.rs:61-72 | the first nonzero byte fixes the logarithm of the whole number |
| Distance.LowerBucketIsCloser | discv4/src/kad.rs:61-72 | a node in a lower bucket is strictly closer than one in a higher bucket |
| Distance.BigEndianInjective | discv4/src/kad.rs:17-19 | distances as numbers are as good as hashes for map keys |
| Bytes.XorBitsIsXor | discv4/src/kad.rs:17-19 | the exclusive-or of distances, bit by bit |
| Kademlia.EveryTableIsValid | discv4/src/kad.rs:126-228 | over every sequence of operations: placement by log-distance, bounds on both queues, no local and no IPv6 node, no bucket ever shorter, and a node count that never decreases and is at most 4096 |
| Kademlia.VerifiedIsKnown | discv4/src/kad.rs:128-148 | what each id resolves to after `add_verified` |
| Kademlia.VerifiedGoesFirst | discv4/src/kad.rs:136-142 | a verified node that is stored is at the front, the others in their order behind it, less its old entry |
| Kademlia.SeenIsKnown | discv4/src/kad.rs:152-172 | what each id resolves to after `add_seen`, which never overrides |
| Kademlia.EvictedIsReplaced | discv4/src/kad.rs:176-197 | what every id, the removed one included, resolves to after `remove` |
| Kademlia.EvictedStillKnown | discv4/src/kad.rs:176-197 | a removed id still resolves if and only if nothing replaced it, it was there twice, or the replacement has it |
| Kademlia.FullBucketQueues | discv4/src/kad.rs:40-44 | any mixture of new verified and seen nodes queues behind a full bucket in order of arrival, up to the limit |
| Kademlia.PromotedInOrder | discv4/src/kad.rs:176-197 | any run of evictions promotes the replacements in order of arrival and spares every other id |
| RepeatedIds.VerifiedWaitsForAPlace | discv4/src/kad.rs:128-197 | a verified node that found its bucket full resolves once a node of that bucket is removed |
| Kademlia.AdditionResolves | discv4/src/kad.rs:128-172 | what every id resolves to in the whole table after an addition, IPv6 and local nodes included |
| Kademlia.RemovalResolves | discv4/src/kad.rs:176-197 | what every id resolves to in the whole table after a removal |
| Kademlia.TotalIsScan | discv4/src/kad.rs:224-228 | the count is the number of nodes in the table |
| Kademlia.OthersFilters | discv4/src/kad.rs:199-213 | neighbours are a filter of the bucket, order and repetitions kept |
| RepeatedIds.AddingKeepsDistinct | discv4/src/kad.rs:128-172 | neither adding operation repeats an id |
| RepeatedIds.EvictionKeepsDistinctIff | discv4/src/kad.rs:176-197 | a removal keeps ids distinct if and only if it does not promote a node its bucket still holds |
| RepeatedIds.IdsStayDistinctIff | discv4/src/kad.rs:126-197 | over every sequence of operations ids are distinct throughout if and only if no removal meets that guard |
| RepeatedIds.SeenTwicePromotedTwice | discv4/src/kad.rs:40-44 | for any hash function and any seventeen nodes of one bucket, a run after which the bucket holds one of them twice |
| RepeatedIds.SomeRunRepeatsAnId | discv4/src/kad.rs:185-191 | such a run with concrete ids |
| Kademlia.GetAgreesWithScan | discv4/src/kad.rs:90-100 | looking into one bucket finds what scanning the table finds |
| Kademlia.ByDistanceExact | discv4/src/kad.rs:215-222 | the entries by distance cover every node, each key holding the last node at that distance |
| Kademlia.RoutingTable.FindPeerPos | discv4/src/kad.rs:30-38 | the first position of an id |
| Kademlia.RoutingTable.AddVerifiedNode | discv4/src/kad.rs:128-148 | the in-place update is the operation on values, and keeps the table valid |
| Kademlia.RoutingTable.AddSeenNode | discv4/src/kad.rs:152-172 | the in-place update appends or queues the node as on values, touches no other bucket, and keeps the table valid |
| Kademlia.RoutingTable.RemoveNode | discv4/src/kad.rs:176-197 | the in-place swap for a replacement is the operation on values, touches no other bucket, and keeps the table valid |
| Kademlia.RoutingTable.Get | discv4/src/kad.rs:90-100 | the endpoint a scan of the whole table would give |
| Kademlia.RoutingTable.Neighbours | discv4/src/kad.rs:199-213 | the other nodes of the id's bucket in order, at most 16; none exactly for the local id |
| Kademlia.RoutingTable.Len | discv4/src/kad.rs:224-228 | the number of nodes, at most 4096 |
| Kademlia.RoutingTable.NearestNodeEntries | discv4/src/kad.rs:215-222 | the whole table by distance to the target |
| Lookup.LookupInner | discv4/src/node.rs:681-880 | on a valid table and for every behaviour of responders the lookup starts from the table's closest nodes and terminates; the queries of every round are exactly the unasked among the three closest distances then known, in order, and at the end none is due; known nodes are the starting ones and the first told of at each other distance; the result is exactly the responders by increasing distance |
| Lookup.Rounds | discv4/src/node.rs:691-880 | the same for any entries keyed by distance |
| Lookup.AsksExactlyStep | discv4/src/node.rs:711-734 | a round that asks what is due keeps the queries of all rounds exact |
| Lookup.OneRound | discv4/src/node.rs:711-868 | one round keeps all that and asks at least one new distance |
| Lookup.Pick | discv4/src/node.rs:711-727 | exactly the unqueried among the closest, nearest first |
| Lookup.ProcessRound | discv4/src/node.rs:842-865 | answers set `responded` and add the first node at each unseen distance, whatever they contain |
| Lookup.QueriedBounded | discv4/src/node.rs:709-869 | the termination measure: no more distances can be asked than there are |
| Inflight.InflightFindNode.TryAdd | discv4/src/node.rs:139-160 | a vacant id is taken and guarded, a clash changes nothing; stored pairs stay those of live guards |
| Inflight.InflightFindNode.Drop | discv4/src/node.rs:175-193 | dropping a live guard never reaches the `assert!` or `unreachable!` and removes only its pair |
| Inflight.InflightFindNode.Get | discv4/src/node.rs:162-168 | one sender for each live guard of the node |
| Inflight.RemoveMatches | discv4/src/node.rs:175-193 | after a drop the stored pairs are those of the remaining guards and no inner map is empty |
| DnsTree.Sound | dnsdisc/src/lib.rs:243-395 | whatever a run has yielded so far, finished or not, cyclic store or not, is reachable |
| DnsTree.Blame | dnsdisc/src/lib.rs:243-395 | a run fails only over a reachable record that is wrong |
| DnsTree.DoneCovers | dnsdisc/src/lib.rs:243-395 | a run that ends well has looked at everything reachable and yielded all of it |
| DnsTree.ResolvesExactly | dnsdisc/src/lib.rs:243-395 | a run that ends well has yielded exactly the reachable node records |
| DnsTree.MergeConserves | dnsdisc/src/lib.rs:341-347 | whatever order tasks deliver in, a branch neither loses nor repeats a record |
| DnsTree.OrderIsIrrelevant | dnsdisc/src/lib.rs:243-395 | any two runs that end well yield the same records, each as often |
| DnsTree.EndingsAgree | dnsdisc/src/lib.rs:243-395 | whether a finished run failed does not depend on the order |
| DnsTree.EndsWellIff | dnsdisc/src/lib.rs:243-395 | some run ends well if and only if chains of records are bounded and every reachable record is right |
| DnsTree.OutGrows | dnsdisc/src/lib.rs:243-349 | as a run goes on, what it has yielded is only added to |
| DnsTree.CanEnd | dnsdisc/src/lib.rs:243-395 | where chains are bounded no order gets stuck: every run, however far it has come, can go on to an end |
| DnsTree.AcyclicStoresResolve | dnsdisc/src/lib.rs:351-395 | over an acyclic store with right records no run fails, every run can go on to end well, and each that has yields exactly what is reachable |
| DnsTree.LinkedTreesAreTrusted | dnsdisc/src/lib.rs:223-233 | at every depth a linked tree is on the whitelist the query began with, and is entered only if its root verifies under its link's key |
| DnsTree.TreeYields | dnsdisc/src/lib.rs:351-395 | a tree yields what its link root and node root yield, if a root record is there, signed by the key if one is given, and above the sequence already seen; otherwise nothing |
| DnsTree.NodeYields | dnsdisc/src/lib.rs:243-340 | what a child yields for each kind of record, with the names looked up and the whitelist spelled out |
| DnsTree.WrongRecordsFail | dnsdisc/src/lib.rs:285-330 | every misplaced, malformed or unsigned record fails at once with nothing yielded, and a missing one is passed over |
| BranchRecord.SplitJoin | dnsdisc/src/lib.rs:119-128 | splitting at commas undoes joining |
| BranchRecord.BranchRoundTrip | dnsdisc/src/lib.rs:194-211 | a branch parses back to the set it was printed from, in whatever order, if and only if every child is non-empty, comma-free and within 26 bytes and the joined text has no outer white space |
| BranchRecord.HashesArePrintable | dnsdisc/src/lib.rs:119-128 | Base32 hashes, and no children at all, always meet that condition |
| BranchRecord.BranchText | dnsdisc/src/lib.rs:119-128 | the text of a branch of none, one or two children |
| BranchRecord.LeadingSpaceIsLost | dnsdisc/src/lib.rs:194-211 | a child that does not come back |

## Left out

- Internals of secp256k1, AES, Keccak, SHA-256, HMAC and Snappy: functions under laws; nothing is claimed about secrecy or forgery.
- RLP bytes of auth, ack, hello and discovery messages: reading inverts writing, with trailing padding ignored as in EIP-8, and a bare number is not a list.
- Buffers changed in place by encryption: the transport's methods take and return byte sequences, so aliasing of one buffer's parts is not captured.
- Session.EveryRunCatchesUp: messages are below 2^24 bytes; on longer ones `encode` aborts (Transport.EciesCodec.Encode).
- Transport.Ecies.WriteBody: a missing egress cipher, on which its only caller has aborted before.
- Transport.Ecies.ReadBody: bytes of another number than `body_len` gives, which its only caller never passes; likewise for ReadHeader.
- Handshake.Kdf: destinations that are not whole 32-byte blocks, for which the source indexes out of bounds; its one use is 32 bytes.
- Session.EveryRunIsSafe: the bytes come from the two endpoints; of bytes changed on the way only what WireFormat and Tampering state is claimed, and no collision resistance.
- Swarm.LiveDialFindsItsEntry: connection ids are taken to be distinct, as random UUIDs are; the task group's shutdown and a change of `max_peers` while running are not modelled.
- Swarm.DialCounter: fewer than 2^64 dials.
- Containment of `valid_peers` in the peers with pipes, and the `unwrap` of `sender` in `src/main.rs:374-376`: an ingress handler may outlive the teardown of its peer.
- Egress.EgressLoop: its selections are a given sequence; ingress and pinger loops appear only through what they make it select.
- PeerStream.SubprotocolRoundTrip: both peers are taken to give a shared capability the same length, and wire ids to be below 2^64.
- EndToEnd.MessagesArrive: the hello exchange is an arbitrary sequence of earlier messages; messages that are not deliverable are covered one at a time by EndToEnd.ArrivesExactly.
- Capabilities.FromMap: the order in which the map is iterated, which negotiation does not depend on.
- Lookup.LookupInner: the ping, pong and timeouts before each query are part of what a node answers or fails to answer; the table is read once, as in the source.
- Pings of the oldest-node pinger in `discv4/src/node.rs:640`: they carry the local id and are dropped; eviction is modelled as the table operation.
- Header-range arithmetic at `src/main.rs:227-236`: unchecked arithmetic without a stated bound.
- Printing and parsing of DNS Root and Link records: Root prints one Base64 alphabet (`dnsdisc/src/lib.rs:87`) and parses another (`dnsdisc/src/lib.rs:156`), Link depends on key encodings.
- DnsTree.Sound: records do not change during a resolution, and channels are taken to be unbounded, which allows every order that the bounded ones do.
- Sockets, UPnP, real time, task spawning, gRPC, configuration, DNS clients, discovery pumps and logging.
