# Models of go-iroh-examples in Dafny

Nine files of the repository hold logic of their own: a signed key-value store and its wire format,
a pipe with a handshake, a lock-step sync protocol, an in-process packet switch, a notification made
of closed channels, a drain, two bounded parallel loops with the export that follows them, a framed
stream codec, and the parser of the README's reading order. These modules model that logic and prove
what it promises. Sequential code that changes things in place is a class or a method with loops,
proved against a specification; concurrent code is a state machine in which every goroutine's next
statement is an act of its own, and the theorems hold of every interleaving.

| modules | what they model |
|---|---|
| `Varint`, `KvCodec` | the LEB128 numbers and the postcard message of the gossip store |
| `KvStore`, `KvConvergence`, `KvNetwork` | the last-writer-wins store, when order matters to it, and nodes on a network |
| `Tunnel`, `TunnelTheorems` | dumbpipe: the handshake, and `forward` at both ends |
| `Streams`, `Endian`, `Frames`, `SyncFrames` | byte streams, fixed-width integers, and the two length-prefixed codecs |
| `LockStep`, `LockStepTheorems` | the two automerge peers |
| `Bus`, `BusTheorems`, `BusBuffers` | the custom transport's switch, as acts and as buffers |
| `Neighbors` | the neighbour notification of gossip-topic |
| `Drain` | the handler that finishes its request before it shuts down |
| `ParallelLoops`, `Paths`, `Export` | sendme: the parallel loops, the names, and receiving a collection |
| `ParseArgs` | the flag loop dumbpipe and sendme share |
| `Slug`, `ReadmeLines`, `Catalog`, `CatalogTheorems`, `CatalogWitness`, `Load` | the reading order and its check against the tree |

Six results say that the code does less than a comment or a reader might expect. In each case the
model follows the code, a concrete input shows it, and the exact condition is proved:

- `apply` is commented as independent of the order of updates (cmd/go-iroh-gossip-kv/main.go:307).
  Two writes of one key at one timestamp keep whichever came first; a node that puts two values at
  one clock reading makes such writes. `KvConvergence` proves when order matters, and `KvNetwork`
  that a node's own scope is not affected by other writers' ties.
- A sync message of no bytes is on the wire the "done" frame. One in the last round makes one end
  return nil and the other an error; where no message is refused, both return nil if and only if
  there is none. No sync state, well-behaved or not, leaves the two ends waiting for one another.
- A frame of no bytes is written by `writeFrame` and refused by `readFrame`, alone of all payloads.
- "--" protects the one argument after it from `parseArgs`. It protects all that follow if and only
  if none of them needs it.
- A second `Accept` on one graceful handler closes a closed channel; with at most one, none is.
- A README may repeat a heading. The rows of each key stand together if and only if no key comes
  back after another one.

## Model

| member | source | states |
|---|---|---|
| Varint.AppendUvarint | cmd/go-iroh-gossip-kv/main.go:242 | the loop over a shrinking uint64 appends the reference encoding, for every 64-bit value |
| Varint.Uvarint | cmd/go-iroh-gossip-kv/main.go:287 | the loop over at most ten bytes, its shifts within 64 bits, returns the value and width, or the zero or negative count, that the reference reader gives for every input |
| Varint.EncodeMeans | cmd/go-iroh-gossip-kv/main.go:215-218 | an encoding is terminated, minimal, and stands for its number |
| Varint.EncodeFits | cmd/go-iroh-gossip-kv/main.go:224 | every 64-bit number's encoding is one a reader takes |
| Varint.EncodeIsTheOnlyMinimal | cmd/go-iroh-gossip-kv/main.go:215-218 | of all the encodings of a number `Encode`'s is the shortest, and the only one that is minimal |
| Varint.TerminatedUnique | cmd/go-iroh-gossip-kv/main.go:215-218 | encodings delimit themselves: one string cannot start with two |
| Varint.ReadTakes | cmd/go-iroh-gossip-kv/main.go:287 | the reader takes a whole encoding and stops there, whatever follows |
| Varint.ReadOnlyTakes | cmd/go-iroh-gossip-kv/main.go:268-272 | a positive width is within the input, and what was taken is an encoding of what was returned |
| KvCodec.DecodeComplete | cmd/go-iroh-gossip-kv/main.go:250-296 | every message of the grammar is accepted and means what its parts say |
| KvCodec.DecodeSound | cmd/go-iroh-gossip-kv/main.go:250-296 | every accepted byte string is a message of the grammar |
| KvCodec.WireUnique | cmd/go-iroh-gossip-kv/main.go:228-239 | the grammar is unambiguous, and no message is a proper front of another |
| KvCodec.RoundTrip | cmd/go-iroh-gossip-kv/main.go:246-284 | decoding an encoded update gives it back, for all keys, values and 64-bit timestamps |
| KvCodec.NormalForm | cmd/go-iroh-gossip-kv/main.go:230-284 | re-encoding an accepted message keeps the update, is never longer, and changes nothing exactly when its three numbers are minimal |
| KvCodec.EncodeIsShortest | cmd/go-iroh-gossip-kv/main.go:230-239 | of all the messages that carry an update, `encode`'s is the shortest |
| KvCodec.PrefixFree | cmd/go-iroh-gossip-kv/main.go:250-284 | no accepted message is a proper prefix of another |
| KvCodec.SigningDataInjective | cmd/go-iroh-gossip-kv/main.go:220-226 | a signature covers exactly one key, timestamp and value |
| KvStore.Kv.constructor | cmd/go-iroh-gossip-kv/main.go:298-299 | a new store is empty |
| KvStore.Kv.Apply | cmd/go-iroh-gossip-kv/main.go:309-332 | a grammatical message whose signature verifies is stored as what its bytes say, under its signer, unless an entry as late is there, and no other entry changes; one that does not verify gives the verify error, anything else the decode error, and the store is as it was |
| KvStore.AcceptedExactly | cmd/go-iroh-gossip-kv/main.go:309-316 | an update is accepted from a message if and only if the message is one of the grammar that says it and its signature verifies over key, timestamp and value |
| KvStore.Kv.MergeIn | cmd/go-iroh-gossip-kv/main.go:317-331 | the in-place merge, with its inner map made on demand, is the merge of values |
| KvStore.Node.constructor | cmd/go-iroh-gossip-kv/main.go:154-160 | a node starts with its key and an empty store |
| KvStore.Node.Put | cmd/go-iroh-gossip-kv/main.go:171-178 | the store applies, and the caller gets, the encoding of the update signed at that clock reading |
| KvStore.SignedIsAccepted | cmd/go-iroh-gossip-kv/main.go:205-213 | what a node signs, every node decodes, verifies and accepts |
| KvStore.PutShows | cmd/go-iroh-gossip-kv/main.go:323-330 | after a write the store shows its value exactly unless it already held another value with as late a timestamp |
| KvStore.MergeLookup | cmd/go-iroh-gossip-kv/main.go:317-331 | a merge changes the one key it writes, and only if the timestamp is later |
| KvStore.StoreIsFold | cmd/go-iroh-gossip-kv/main.go:309-332 | after any deliveries a key holds the first arrival among its latest accepted writes, and is absent exactly if nothing wrote it |
| KvStore.WinnerUnique | cmd/go-iroh-gossip-kv/main.go:323 | that delivery is unique |
| KvStore.NoEmptyScope | cmd/go-iroh-gossip-kv/main.go:318-322 | the inner maps made on demand are never left empty |
| KvStore.SameLookupsSameStore | cmd/go-iroh-gossip-kv/main.go:298-305 | stores that agree on every lookup are equal |
| KvStore.ApplyIdempotent | cmd/go-iroh-gossip-kv/main.go:307-309 | delivering a message again, at any later time, changes nothing |
| KvConvergence.SameEntry | cmd/go-iroh-gossip-kv/main.go:307-332 | two deliveries of one set agree on every key whose latest writes do not tie |
| KvConvergence.SameSetSameStore | cmd/go-iroh-gossip-kv/main.go:307-332 | with no tie for the latest write, any order and duplication of one set gives one store |
| KvConvergence.FirstStays | cmd/go-iroh-gossip-kv/main.go:323 | delivered first, a latest write is what its key keeps |
| KvConvergence.TopTieSplits | cmd/go-iroh-gossip-kv/main.go:323 | given a tie for the latest write, two orders of the same messages, each delivered once, end in different stores |
| KvConvergence.OrderMattersExactly | cmd/go-iroh-gossip-kv/main.go:307-332 | order is immaterial to a set of messages if and only if no key's latest writes tie |
| KvConvergence.EveryPartConvergesExactly | cmd/go-iroh-gossip-kv/main.go:307-332 | every part of a set converges if and only if no two accepted writes share scope, key and timestamp with different values |
| KvConvergence.TieSplits | cmd/go-iroh-gossip-kv/main.go:323 | any two tying writes, in the two orders, leave two different stores |
| KvConvergence.SignedPutsTie | cmd/go-iroh-gossip-kv/main.go:171-178 | the messages of two puts of one name and two values at one clock reading do tie, so order matters to them |
| KvNetwork.RunKeepsFolds | cmd/go-iroh-gossip-kv/main.go:171-193 | in every run of puts, deliveries and foreign broadcasts each store is the fold of what its node applied |
| KvNetwork.StoresExactly | cmd/go-iroh-gossip-kv/main.go:171-193 | in every run a store is the fold of exactly the node's own signed writes and what it received, in order, and the topic holds exactly what was broadcast |
| KvNetwork.NetworkConverges | cmd/go-iroh-gossip-kv/main.go:171-193 | in every run, nodes that applied the same messages hold one store if no latest writes tie |
| KvNetwork.TopicStaysAuthentic | cmd/go-iroh-gossip-kv/main.go:309-316 | if nobody forges a signature, whatever verifies under a node's scope is something a node of that scope wrote |
| KvNetwork.OwnedScopesConverge | cmd/go-iroh-gossip-kv/main.go:171-193 | outsiders cannot split a node's scope: nodes that applied the same messages agree on it if its own clock readings do not repeat with different values |
| KvNetwork.PutsAtOneReadingSplit | cmd/go-iroh-gossip-kv/main.go:171-193 | there is a run of two such puts in which two nodes apply the same messages and hold different stores |
| TunnelTheorems.SameProtocolSameHandshake | cmd/go-iroh-dumbpipe/main.go:219-231 | ends that negotiate one protocol agree on the handshake unless exactly one spells the default protocol out |
| TunnelTheorems.AlpnExactly | cmd/go-iroh-dumbpipe/main.go:219-231 | what each custom protocol stands for: none the default with the handshake, text behind "utf8:", the bytes of hex digits, and anything else an error |
| TunnelTheorems.HexDecodesExactly | cmd/go-iroh-dumbpipe/main.go:226-230 | a hex name decodes to some bytes if and only if it spells their digits, in either case |
| Tunnel.DoKeepsInv | cmd/go-iroh-dumbpipe/main.go:737-760 | every act of every goroutine keeps the tunnel's invariant |
| Tunnel.RunKeepsInv | cmd/go-iroh-dumbpipe/main.go:737-760 | so does every interleaving |
| TunnelTheorems.DeliversPrefixes | cmd/go-iroh-dumbpipe/main.go:729-760 | at every moment each end has received a prefix of the other's source, without the handshake |
| TunnelTheorems.HandshakeMatches | cmd/go-iroh-dumbpipe/main.go:718-727 | with equal settings the handshake is never refused for its bytes, however the reads split |
| TunnelTheorems.ClosesAtTheEnd | cmd/go-iroh-dumbpipe/main.go:739-752 | a write side closes only after everything was carried or the copy failed |
| TunnelTheorems.WriteSidesClose | cmd/go-iroh-dumbpipe/main.go:739-752 | a goroutine about to report has closed the write side it copied to, the destination's where it has one and the stream's unless that failed; so two nil returns leave every write side that can be closed closed |
| TunnelTheorems.ReportsNeverBlock | cmd/go-iroh-dumbpipe/main.go:738-752 | a goroutine about to report always finds room in the channel |
| TunnelTheorems.SilentDialerBlocks | cmd/go-iroh-dumbpipe/main.go:375-392 | until the dialer writes or closes there is no stream to accept: the listener reads nothing from its own source and nothing is delivered |
| TunnelTheorems.GreetingOpens | cmd/go-iroh-dumbpipe/main.go:390-404 | with the handshake the stream is there to accept once openPipe has returned |
| TunnelTheorems.NilMeansAll | cmd/go-iroh-dumbpipe/main.go:753-759 | if both forwards return nil, both directions were carried whole |
| TunnelTheorems.NilMeansDeliveredExactly | cmd/go-iroh-dumbpipe/main.go:375-404 | then the listener has exactly the dialer's source if and only if the two agree on the handshake |
| TunnelTheorems.ErrorsAreReal | cmd/go-iroh-dumbpipe/main.go:753-759 | each end's forward returns after both goroutines, with an error exactly if a copy or the closing of the stream failed |
| TunnelTheorems.CanAlwaysFinish | cmd/go-iroh-dumbpipe/main.go:375-404 | from every state reached without a failure the tunnel can still deliver everything, close every write side that can be closed, and return nil at both ends |
| TunnelTheorems.DialerCanReturn | cmd/go-iroh-dumbpipe/main.go:737-760 | whatever has failed at either end, the dialer's forward can return in eight acts of its own |
| TunnelTheorems.ListenerCanReturn | cmd/go-iroh-dumbpipe/main.go:737-760 | and so can the listener's |
| TunnelTheorems.ForwardsCanReturn | cmd/go-iroh-dumbpipe/main.go:737-760 | so a forward waits for nothing but its own reads and writes, in every reachable state |
| Streams.Reader.Read | cmd/go-iroh-framed-messages/main.go:188 | one read gives some bytes in order, the end only when nothing is left |
| Streams.ReadFull | cmd/go-iroh-framed-messages/main.go:188-201 | however reads split, the buffer is filled with exactly the next bytes, or everything is consumed and the end reported |
| Streams.Writer.Write | cmd/go-iroh-framed-messages/main.go:177-180 | a write appends a prefix, all of it unless there is an error |
| Endian.LittleMeans | cmd/go-iroh-automerge/main.go:187 | reading a little-endian number gives what was written |
| Endian.LittleOnly | cmd/go-iroh-automerge/main.go:205 | and every string of that width is some number's |
| Endian.LittleFirst | cmd/go-iroh-automerge/main.go:187 | the least significant byte comes first |
| Endian.BigMeans | cmd/go-iroh-framed-messages/main.go:176 | reading a big-endian number gives what was written |
| Endian.BigOnly | cmd/go-iroh-framed-messages/main.go:191 | and every string of that width is some number's |
| Endian.BigFour | cmd/go-iroh-framed-messages/main.go:176 | the four bytes of a length, the most significant first |
| Frames.WriteFrame | cmd/go-iroh-framed-messages/main.go:171-182 | a payload over the bound writes nothing; otherwise the frame is written, or a front of it and there is an error exactly if a write failed |
| Frames.ReadFrame | cmd/go-iroh-framed-messages/main.go:186-203 | result and rest of the stream are the reference parser's, for every stream, every end and every split |
| Frames.ParseExactly | cmd/go-iroh-framed-messages/main.go:171-203 | a stream yields a payload if and only if the payload has 1 to 1000 bytes and the stream starts with its length in four bytes and it |
| Frames.OnlyEmptyRefused | cmd/go-iroh-framed-messages/main.go:171-203 | of the payloads that can be written the empty one is refused and no other |
| Frames.ManyRoundTrip | cmd/go-iroh-framed-messages/main.go:171-203 | a list of payloads written frame by frame is read back as that list, and the tail is untouched |
| Frames.SendMove | cmd/go-iroh-framed-messages/main.go:151-153 | the frame of the move's four bytes is written, or a front of it with an error |
| Frames.RecvMove | cmd/go-iroh-framed-messages/main.go:156-168 | it returns a move exactly when the stream starts with that move's frame |
| SyncFrames.SendSyncMessage | cmd/go-iroh-automerge/main.go:182-196 | the message's frame is written, or a front of it and there is an error exactly if a write failed |
| SyncFrames.ReceiveSyncMessage | cmd/go-iroh-automerge/main.go:200-218 | the sync state is handed exactly the reference parser's message, and left alone on "done" and on every error |
| SyncFrames.ReceivedAsSent | cmd/go-iroh-automerge/main.go:182-218 | what is read of each thing sent: the message, "done" also for an empty one, and a refusal after the header for one over the bound |
| SyncFrames.SentAsReceived | cmd/go-iroh-automerge/main.go:200-218 | nothing but eight bytes of length and 1 to 16 MiB behind them is read as a message, and nothing but eight zero bytes as "done" |
| LockStep.PullInFlight | cmd/go-iroh-automerge/main.go:200-218 | reading any part of a frame under way leaves the rest under way, completes it with the effect of receiving it, or is refused |
| LockStepTheorems.RunsAreConversations | cmd/go-iroh-automerge/main.go:130-178 | for every sync state, every reachable state is one point of the sequential exchange, the speakers strictly alternating, or of its end |
| LockStepTheorems.OneFrameAtATime | cmd/go-iroh-automerge/main.go:130-178 | at most one direction carries anything, and until a party returns it is part of one frame |
| LockStepTheorems.NeverDeadlocks | cmd/go-iroh-automerge/main.go:130-178 | for every sync state, until both have returned, nil or an error, one of them can move |
| LockStepTheorems.ReturnsExactly | cmd/go-iroh-automerge/main.go:130-178 | at the conversation's last turn an end returns nil exactly if it stops there: it said nothing and heard a zero length |
| LockStepTheorems.ReturnedMeansOver | cmd/go-iroh-automerge/main.go:130-178 | nobody returns from a conversation that has no last turn |
| LockStepTheorems.BothNilExactly | cmd/go-iroh-automerge/main.go:130-178 | both return nil if and only if neither had anything to say in the last round, then with both channels drained and in the same round; both return errors if and only if a message was refused |
| LockStepTheorems.OneOutcome | cmd/go-iroh-automerge/main.go:130-178 | what both ends return, and if nil the round and both final states, do not depend on the schedule |
| LockStepTheorems.EmptyMessageExactly | cmd/go-iroh-automerge/main.go:182-218 | where none is refused, both return nil if and only if the last round has no empty message; the end that sent one gets an error and the other returns nil |
| LockStepTheorems.EmptyMessageSplits | cmd/go-iroh-automerge/main.go:182-218 | a pair of sync states, one always saying an empty message, for which every complete run ends in nil at the responder and an error at the initiator |
| LockStepTheorems.AgreeableNeverFails | cmd/go-iroh-automerge/main.go:130-178 | with no message empty, over the bound or refused up to the last turn, neither end fails |
| LockStepTheorems.InitiatorFinishesLast | cmd/go-iroh-automerge/main.go:130-153 | then initiateSync returns nil only when respondSync has, in the same round, with both channels drained |
| LockStepTheorems.ResponderFinishesFirst | cmd/go-iroh-automerge/main.go:156-178 | then, once respondSync has returned, all that can happen is initiateSync reading its "done" and returning |
| LockStepTheorems.RunsAreBounded | cmd/go-iroh-automerge/main.go:130-178 | if the exchange has a last turn no schedule is longer than it allows, so every one ends with both returned |
| LockStepTheorems.RunsComplete | cmd/go-iroh-automerge/main.go:130-178 | and from every state such an end is reached |
| Bus.RunKeepsInv | cmd/go-iroh-custom-transport/main.go:80-149 | every interleaving of senders and Serve loops keeps the bus's invariant |
| Bus.PortAccounting | cmd/go-iroh-custom-transport/main.go:94-121 | at every moment a port's counter trails its intake by the senders between enqueue and count, and intake is what is queued and what was taken |
| Bus.FifoWithinCapacity | cmd/go-iroh-custom-transport/main.go:98-149 | what Serve hands over is, in order, a prefix of what was enqueued, and a queue never exceeds 64 |
| Bus.Conservation | cmd/go-iroh-custom-transport/main.go:98-149 | with nothing pending, delivered and dropped together are the sends finished and the datagrams refused |
| BusTheorems.EnqueuedExactly | cmd/go-iroh-custom-transport/main.go:98-149 | a port has been given exactly the datagrams, bytes and all and in select order, of the sends addressed to it that found fewer than 64 queued, and recv has been called with a prefix of them |
| BusTheorems.AnswersExactly | cmd/go-iroh-custom-transport/main.go:98-121 | send answers true if and only if its select found room, and false only if the address is no port or the queue held 64 |
| BusTheorems.CountersExactly | cmd/go-iroh-custom-transport/main.go:94-149 | with nothing pending the counters are the answers send gave and the refusals of recv |
| BusTheorems.RoomMeansQueued | cmd/go-iroh-custom-transport/main.go:112-115 | a send that finds room is queued, counted and answered true in two acts of its own |
| BusTheorems.SendAnswers | cmd/go-iroh-custom-transport/main.go:98-121 | every call of send can go on to its answer |
| BusBuffers.Switch.constructor | cmd/go-iroh-custom-transport/main.go:72-77 | a new bus has no ports and counts nothing |
| BusBuffers.Switch.Attach | cmd/go-iroh-custom-transport/main.go:80-91 | the name's address has an empty queue and its count is zero, and nothing else changes |
| BusBuffers.Copied | cmd/go-iroh-custom-transport/main.go:110 | a new buffer with the same bytes |
| BusBuffers.Switch.Send | cmd/go-iroh-custom-transport/main.go:98-121 | send is true exactly when the address is attached and its queue not full; then the caller's bytes join the end of that queue and its count goes up, else one drop is counted |
| BusBuffers.Switch.Enqueue | cmd/go-iroh-custom-transport/main.go:113-115 | one queue grows by the datagram and one count by one |
| BusBuffers.Switch.ServeOne | cmd/go-iroh-custom-transport/main.go:136-149 | Serve hands over the oldest datagram, and a refusal is one drop |
| BusBuffers.SendAndReuse | cmd/go-iroh-custom-transport/main.go:98-121 | writing to the caller's buffer after a send changes no datagram queued anywhere |
| Neighbors.RunKeepsInv | cmd/go-iroh-gossip-topic/main.go:244-282 | every interleaving of setters and waiters keeps the lock, the channels' order and the readings consistent |
| Neighbors.NoDoubleClose | cmd/go-iroh-gossip-topic/main.go:244-250 | no channel is closed twice: whenever a setter is about to close, the channel is open |
| Neighbors.ParkedOnCurrent | cmd/go-iroh-gossip-topic/main.go:268-282 | a waiter parked on an open channel holds the current one and its neighbour is down, or a setter is about to close that channel |
| Neighbors.ReturnsOnlyIfUp | cmd/go-iroh-gossip-topic/main.go:268-282 | nil is returned only for a neighbour that has been up |
| Neighbors.NoLostWakeup | cmd/go-iroh-gossip-topic/main.go:244-282 | a parked waiter whose neighbour is up can wake, now or after the close under way |
| Neighbors.LockIsReleased | cmd/go-iroh-gossip-topic/main.go:244-282 | whoever holds the lock can always go on to release it |
| Neighbors.UpMeansReturn | cmd/go-iroh-gossip-topic/main.go:268-282 | a waiter whose neighbour is up can return nil in six acts of its own |
| Neighbors.UpExactly | cmd/go-iroh-gossip-topic/main.go:244-250 | whenever the lock is free a neighbour is up if and only if the last call that named it said so |
| Neighbors.ReturnsOnlyIfCalledUp | cmd/go-iroh-gossip-topic/main.go:268-282 | nil is returned only if some call said that the neighbour is up |
| Neighbors.CalledUpMeansReturn | cmd/go-iroh-gossip-topic/main.go:268-282 | a waiter whose neighbour the last call said is up can return nil within six acts |
| Neighbors.NoCallIsMissed | cmd/go-iroh-gossip-topic/main.go:244-282 | with no call inside, a waiter parked though the last call said its neighbour is up can wake |
| Neighbors.WakesExactly | cmd/go-iroh-gossip-topic/main.go:268-282 | a parked waiter can wake if and only if a setter has closed the channel since it read the state |
| Neighbors.GivesUpExactly | cmd/go-iroh-gossip-topic/main.go:278-280 | a waiter gives up if and only if its context was done |
| Drain.RunKeepsInv | cmd/go-iroh-graceful-shutdown/main.go:116-153 | every interleaving of Accept, Shutdown and WaitStarted keeps the drain's invariant |
| Drain.DoneMeansFinished | cmd/go-iroh-graceful-shutdown/main.go:136-144 | Shutdown leaves by its done branch only after an Accept has finished |
| Drain.NilMeansReadAndReleased | cmd/go-iroh-graceful-shutdown/main.go:116-134 | an Accept returns nil only once it has itself read its request and a Shutdown released it |
| Drain.StartedMeansRead | cmd/go-iroh-graceful-shutdown/main.go:146-153 | WaitStarted returns nil only once some Accept has read its request in full |
| Drain.ReleasedCanFinish | cmd/go-iroh-graceful-shutdown/main.go:116-134 | once released, an Accept can finish without its context being cancelled, and returns nil if its calls succeed |
| Drain.DrainCompletes | cmd/go-iroh-graceful-shutdown/main.go:116-144 | a Shutdown, wherever it is, can always be let go by its done branch, within nine acts |
| Drain.AcceptReturnsExactly | cmd/go-iroh-graceful-shutdown/main.go:116-134 | Accept returns an error if and only if a call of its own failed or its context was done; else it has read, announced, been released and closed its stream |
| Drain.OthersReturnExactly | cmd/go-iroh-graceful-shutdown/main.go:136-153 | Shutdown and WaitStarted return by the branch their select took, and each channel is closed if and only if some goroutine closed it |
| Drain.StartedMeansReturn | cmd/go-iroh-graceful-shutdown/main.go:146-153 | once some Accept has announced its request WaitStarted can return nil at once |
| Drain.SecondAcceptPanics | cmd/go-iroh-graceful-shutdown/main.go:117 | with two Accepts there is a run that closes a closed channel |
| Drain.OneAcceptExactly | cmd/go-iroh-graceful-shutdown/main.go:116-153 | no run closes a channel twice if and only if at most one Accept is made |
| ParallelLoops.AtMostJobs | cmd/go-iroh-sendme/main.go:420-424 | at most `jobs` bodies are past the semaphore |
| ParallelLoops.RunLength | cmd/go-iroh-sendme/main.go:421-442 | every schedule is finite: six acts a file |
| ParallelLoops.CanMove | cmd/go-iroh-sendme/main.go:420-442 | with at least one job no schedule gets stuck |
| ParallelLoops.StuckExactly | cmd/go-iroh-sendme/main.go:420-442 | some schedule gets stuck if and only if there are no jobs and there is a file |
| ParallelLoops.RefinesSequential | cmd/go-iroh-sendme/main.go:414-446 | whatever the schedule, an error is reported exactly when some body fails by itself, and otherwise every entry, name and hash, and the size are the sequential loop's |
| ParallelLoops.ResultsExactly | cmd/go-iroh-sendme/main.go:433-441 | at every moment the error is that of the first body to get the mutex with one, the size the sum of what was brought, and each body that had the mutex has its entry |
| ParallelLoops.ImportRecordsAll | cmd/go-iroh-sendme/main.go:421-442 | importFiles, which cancels nothing, records every file even when one fails |
| Paths.JoinSplit | cmd/go-iroh-sendme/main.go:701 | joining what was split gives the name back |
| Paths.SplitJoin | cmd/go-iroh-sendme/main.go:396-402 | splitting what was joined gives the components back |
| Paths.ExportStaysInside | cmd/go-iroh-sendme/main.go:698-708 | an exported name lies below root, no component being empty, "." or ".." or having a slash of either kind, and no two names share a place |
| Paths.ExportsExactly | cmd/go-iroh-sendme/main.go:698-708 | a name is refused if and only if a component is empty, "." or "..", or has a back slash; otherwise its components follow root |
| Paths.WalksExactly | cmd/go-iroh-sendme/main.go:382-407 | walk names exactly the regular files, by their components from the root's own name on, and refuses one with a slash in a component |
| Paths.WalkedIsExportable | cmd/go-iroh-sendme/main.go:382-410 | every name walk yields is one exportPath takes, to the same place under the new root |
| Paths.WalkedDoNotCollide | cmd/go-iroh-sendme/main.go:382-410 | two walked files are exported to places of which neither contains the other |
| Export.Disk.Lstat | cmd/go-iroh-sendme/main.go:593 | success means something is there; failure means nothing is, or that the path is one on which Lstat may fail |
| Export.Disk.Mkdir | cmd/go-iroh-sendme/main.go:600 | one directory is added, unless it is there, something else is, or there is a fault |
| Export.Disk.MkdirAll | cmd/go-iroh-sendme/main.go:600-602 | it changes nothing that is there and adds only directories above its path; it fails only for a fault or for something in the way |
| Export.Disk.WriteFile | cmd/go-iroh-sendme/main.go:685-696 | it changes one file, which without an error holds the content; it fails only for a fault or where no file can be |
| Export.Disk.Rename | cmd/go-iroh-sendme/main.go:623 | it moves one file or changes nothing, which it does only for a fault or where no file can be |
| Export.Disk.RemoveAll | cmd/go-iroh-sendme/main.go:603 | it removes nothing outside its path, and everything under it unless it stops partway |
| Export.DecimalInjective | cmd/go-iroh-sendme/main.go:670 | different indices give different file names |
| Export.Download | cmd/go-iroh-sendme/main.go:659-696 | it changes nothing outside the directory, on success each index's file holds its entry's content, and it fails only for a fault or something in the way |
| Export.Targets | cmd/go-iroh-sendme/main.go:587-596 | it refuses if a name is invalid or Lstat finds a target, for the first such name and with its reason, and otherwise lists the targets |
| Export.MoveOne | cmd/go-iroh-sendme/main.go:613-625 | a turn moves one file to a place where Lstat found nothing, or adds directories only; it refuses a target that is there and fails otherwise only for a fault or something in the way |
| Export.MoveOut | cmd/go-iroh-sendme/main.go:609-626 | what was there stays on every outcome, new files are targets, on success every target holds its content, targets on which Lstat may fail excepted; and where the targets are free and apart only a fault stops it |
| Export.FetchAndMove | cmd/go-iroh-sendme/main.go:603-626 | so do the download and the moves together, and the temporary directory is gone afterwards unless its removal stopped partway |
| Export.ReceiveInto | cmd/go-iroh-sendme/main.go:599-626 | and so from the making of the temporary directory on |
| Export.Receive | cmd/go-iroh-sendme/main.go:585-626 | no file there before is changed on any outcome, nothing at all is if a target exists or a name is bad, and on success every entry is at its own place; paths on which Lstat may fail are excepted. Where there is room for the collection only a fault makes it fail, and it leaves nothing behind in the temporary directory |
| Export.PlacedApart | cmd/go-iroh-sendme/main.go:609-626 | so on success no entry's place contains another's |
| ParseArgs.FlagSet.Parse | cmd/go-iroh-dumbpipe/main.go:206-208 | the flags before the first other argument are set in order, and the rest is left |
| ParseArgs.Run | cmd/go-iroh-dumbpipe/main.go:203-215 | the loop ends on every argument list, with the reference's positionals and flag values, or its error |
| ParseArgs.FlagIsRead | cmd/go-iroh-dumbpipe/main.go:206 | a flag spelled in full is read as that flag and value, whatever follows |
| ParseArgs.StepEscaped | cmd/go-iroh-dumbpipe/main.go:203-215 | "--" protects the next argument and no other |
| ParseArgs.UnitsAreParsed | cmd/go-iroh-sendme/main.go:181-193 | every command line made of flags with their values and positionals is accepted and means what they say |
| ParseArgs.ParsedIsUnits | cmd/go-iroh-sendme/main.go:181-193 | every accepted command line is one of those, save for a last "--" |
| ParseArgs.ReturnedAsIsExactly | cmd/go-iroh-dumbpipe/main.go:203-215 | a command line is returned as it stands, nothing set, if and only if all of it is positional |
| ParseArgs.EscapeProtectsExactly | cmd/go-iroh-dumbpipe/main.go:203-215 | everything after "--" is returned as it stands if and only if nothing behind the next argument looks like a flag |
| ParseArgs.EscapeFails | cmd/go-iroh-sendme/main.go:181-193 | in "-- a -v" the flag is set |
| ParseArgs.InterleavingIsFree | cmd/go-iroh-sendme/main.go:179-193 | command lines with the same flags in order and the same other arguments in order mean the same, wherever the flags stand |
| Slug.SlugIsJoinedWords | internal/catalog/catalog.go:150-153 | replacing runs and trimming gives the lower-cased title's words joined by single dashes |
| Slug.SlugIsKey | internal/catalog/catalog.go:104 | only a-z, 0-9 and "-", with no dash first, last or doubled |
| Slug.SlugKeepsLetters | internal/catalog/catalog.go:150-153 | the characters of the title that lower to a-z or 0-9 are kept, lowered, all of them and in order |
| Slug.KeysAreFixed | internal/catalog/catalog.go:150-153 | a text is left alone if and only if it is a key already |
| Slug.SlugIsIdempotent | internal/catalog/catalog.go:150-153 | a slug is its own slug |
| Slug.SlugsCollideExactly | internal/catalog/catalog.go:150-153 | two titles share a key if and only if their lower-cased words are the same |
| ReadmeLines.Shortest | internal/catalog/catalog.go:102 | a heading's title is the text with the white space behind it cut off, never empty |
| ReadmeLines.RowExactly | internal/catalog/catalog.go:103 | a line is the row of a name if and only if it starts with that name in back quotes in a cell of its own |
| ReadmeLines.EntryExactly | internal/catalog/catalog.go:103 | and such a line is no heading |
| ReadmeLines.ProgressionExactly | internal/catalog/catalog.go:100 | the section's heading is exactly a line "## Progression" with only white space behind it |
| ReadmeLines.HeadingExactly | internal/catalog/catalog.go:102 | a group's heading is exactly "### " and a title with only white space behind it, the title ending in none |
| Catalog.FindBody | internal/catalog/catalog.go:114-122 | the section's lines are those from its heading to the next top heading |
| Catalog.BodyExactly | internal/catalog/catalog.go:114-122 | the section is what stands between the first such heading and the next line that starts with "## " |
| Catalog.FindSections | internal/catalog/catalog.go:127 | the positions found are those of all the headings, in order |
| Catalog.ReadRows | internal/catalog/catalog.go:136-142 | the rows below one heading are added under its key, up to the first name that came before |
| Catalog.ReadSections | internal/catalog/catalog.go:127-143 | heading by heading gives what one pass over the lines gives |
| Catalog.Progression | internal/catalog/catalog.go:109-148 | outline or error are the one-pass reading's, for every README |
| CatalogTheorems.ScanTells | internal/catalog/catalog.go:124-143 | the outline is the list of sections with their rows in order, or the error names the first row that came again |
| CatalogTheorems.AcceptedExactly | internal/catalog/catalog.go:109-148 | a README is accepted if and only if it has the section, a heading in it and no row twice; then order has no duplicates and the group map's names are exactly its names |
| CatalogTheorems.RowsTogetherExactly | internal/catalog/catalog.go:128-142 | the rows of each key stand together if and only if no key comes back after a section with another |
| CatalogWitness.RepeatedHeadingSplits | internal/catalog/catalog.go:128-142 | seven README lines whose third heading repeats the first are accepted, and the rows recorded under its key are apart |
| Load.Without | internal/catalog/catalog.go:183-193 | the names the others lack, all of them and no more |
| Load.Marked | internal/catalog/catalog.go:174-181 | the map's keys are exactly the names |
| Load.Unmarked | internal/catalog/catalog.go:182-193 | the loop collects, in order, the names not in the map |
| Load.Agree | internal/catalog/catalog.go:173-202 | no error exactly when README and tree have the same names; otherwise the error lists what is missing and what is extra |
| Load.Load | internal/catalog/catalog.go:73-96 | it succeeds exactly when both are read, agree, and every directory scans, and the examples are in reading order with their groups; each error says what failed, a disagreement in full and a directory the first that does not scan |
| Load.EachDirectoryOnce | internal/catalog/catalog.go:70-73 | an accepted README agrees with the tree if and only if it lists every directory exactly once |

## Left out

- go-iroh itself: endpoints, QUIC, relays, the gossip overlay, blob verification and stores. Connections are reliable FIFO byte streams, the topic is the set of what was broadcast, a blob's hash stands for its content.
- Ed25519 and key parsing: `Crypto` is arbitrary but for the law that a signature verifies under its own key; a public key and a signature are their bytes.
- The Automerge document and sync state: `Library` is any pair of functions, with messages shorter than 2^64 bytes.
- Tunnel: a stream without `CloseWrite`, for which `forward` falls back to `Close`, and the error values themselves; a write side of `dst` that does not exist is one that is not closed.
- LockStepTheorems: a stream that fails while both ends are at work. A party that returns closes its stream; its peer reads the end or has a write refused.
- Streams.Reader.Read: a read of no bytes without an error, which `io.Reader` allows and discourages.
- Bus: ports attached while others send, or attached twice; in the concurrent model all ports are attached before the first send. BusBuffers has `attach`, one call at a time.
- ParallelLoops: a negative `jobs`, for which making the channel panics; the collection stored after the loop.
- Export: what becomes of a target on which Lstat fails though a file is there (the code takes any error for "not there", and `Rename` may replace it); such paths lie outside the temporary directory.
- Export: an entry whose name lies inside the temporary directory, symbolic links, other writers, Windows separators. The order in which files are fetched is that of the list; ParallelLoops proves it immaterial.
- Export: a file at a path that holds one already is replaced by `Rename`, as on Unix.
- Paths: the order in which WalkDir visits and the final sort of the names; which names walk gives is modelled path by path.
- ParseArgs: the flag package's messages, and flags whose `Set` fails after changing something; a flag either takes a value or is an error.
- Catalog: the regular expression engine. Each expression is anchored at a line's start and is modelled on one line; the white space behind a heading that runs on over blank lines is not part of any row or title.
- Slug.Slug: the whole of `strings.ToLower`, which is a parameter that leaves a-z, 0-9 and "-" alone.
- Load.Load: scanning a directory's source and its doc comment; it is a parameter.
- awaitMessage, consume and neighbors in gossip-topic, limitWriter, humanBytes and firstSentence: they would add only easy members, or formatting.
- The demo programs, printing, flag wiring, timeouts, clocks (a parameter) and environment lookup.
- The other examples (echo, ping, hooks, metrics, tickets, qlog, datagram frames, the interop peers): thin wrappers or easy.
