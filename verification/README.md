# Verified model of rnet's coder, floodsub, multiplexer and codecs

A Dafny model of the parts of rnet where correctness is an argument over all inputs or all runs, with
proofs of what they promise. `dafny verify dfyconfig.toml` checks everything.

## What is modelled

**The random linear network coder** (`GF256`, `LinearAlgebra`, `Elimination`, `PartialElimination`,
`RlncCoder`). The byte loops of the field, the encoder and the in-place Gauss-Jordan elimination are
imperative methods. Each is proved against a function, and the functions carry the theory. `Elimination`
rests on two facts about one column step: it commutes with multiplying rows by a vector, and it is injective
on right-hand sides. From these follow, for every number of packets and every width, that the elimination
ends at the identity exactly for independent coefficient vectors, that it is one invertible map even for
singular matrices, and that all packets are recovered exactly when the vectors are independent.
`PartialElimination` adds rows of any lengths, with the panics of the source.

**The engine around the coder** (`RlncEngine`). It is modelled as it is written: it decodes when the n-th
packet arrives, without that packet. The cache discipline is proved over all runs, and so is the
consequence: in no run are the bytes it returns for a payload as long as the payload.

**Floodsub** (`Floodsub`, `FloodsubCache`, `FloodsubMembership`, `FloodsubNetwork`). One node is a class
whose handlers are proved to compute functions on node states. On these functions are built runs of the
seen-cache, runs of the peer table, and a network of nodes whose links are their outgoing queues. The main
results are delivery to exactly the reachable subscribers, exactly once, and the end of every flood, which
can be reached from every state.

**Mplex** (`Varint`, `MplexHeaders`, `MplexConn`, `MplexPair`, `MplexBytes`, `MplexDrain`,
`MplexNegotiation`). The frame codec down to its bits, the connection as a class over byte queues, and two
ends joined by wires in every interleaving of connection handlers and stream tasks, which may end at any
time. `MplexBytes` shows that two connections over the byte streams of `TcpFraming` have the same runs as the
two ends over frames, `MplexDrain` that what is in flight can arrive, and `MplexNegotiation` that the two
tasks of a stream agree on a protocol.

**Framing and text** (`TcpFraming`, `FloodsubApiFrame`, `Multiaddr`). Printers and parsers that undo each
other, with the exact inputs for which they do. Socket reads may hand over any positive number of bytes.

`Bytes` holds fixed-width integers in both byte orders, `Utf8` says which bytes are a string, namely those
that encode characters (`Utf8.IsStringIff`), and `Wrappers` holds the option and result types.

## Where code, documentation and expectation differ

- The coder's README ends with `reconstruct(data, original_len)`. The code takes no length and truncates
  nothing (`examples/rlnc/src/main.rs:195-204`), so the padding zeros stay in the output.
  `RlncCoder.JoinedIsPayloadIff` says when there are none, `RlncCoder.PaddingStays` is an input with some.
- The engine answers with the decode of n-1 packets (`crates/protocols/ping/src/rlnc/engine.rs:39-47`), so
  `RlncEngine.EngineNeverRecovers` is a property of the code. The decode theorem is stated for the coder
  fed n packets.
- Two ends that open a stream at the same time use one id twice (`MplexPair.SimultaneousOpensCollide`).
  `MplexPair.OpeningsFreshIffOrderly` gives the exact condition over runs: an opening is made only while no
  opening of the other end is in flight towards it.
- A stream task that returns leaves its stream in the table, and the next data frame for it brings the
  connection handler down (`MplexBytes.HandlerFails`). `MplexBytes.HandlerFailsIff` says that nothing else
  does.
- The 32-bit header loses the top three bits of a stream id. `MplexHeaders.IdSurvivesIff` is the exact
  condition.
- Two messages of one origin in the same second have one key, and the second is dropped
  (`Floodsub.SecondIsDroppedIff`).
- A string that reads `none` comes back from the API frame as no string (`FloodsubApiFrame.RoundTripIff`).
- Two streams of one peer can leave the topic table naming a peer that has no queue
  (`FloodsubMembership.TwoStreamsOfOnePeer`). The second join does no harm by itself; a subscription of a
  peer that has left, or never joined, does, and nothing else (`FloodsubMembership.AlwaysInTableIff`).
- `Multiaddr::replace_value_for_protocol` goes on after an `ip4` component and stops after any other.

## Model

| member | source | states |
|---|---|---|
| `GF256.Inverse` | crates/protocols/ping/src/rlnc/payload.rs:171-179 | every nonzero byte has a nonzero inverse |
| `GF256.InverseUnique` | crates/protocols/ping/src/rlnc/payload.rs:171-179 | and only one |
| `GF256.GfInv` | crates/protocols/ping/src/rlnc/payload.rs:171-179 | the search over 1..255 returns that inverse, and finds none exactly for zero |
| `GF256.MulComm` | crates/protocols/ping/src/rlnc/payload.rs:150-169 | multiplication is commutative |
| `GF256.MulAssoc` | crates/protocols/ping/src/rlnc/payload.rs:150-169 | multiplication is associative |
| `GF256.MulAddLeft` | crates/protocols/ping/src/rlnc/payload.rs:150-169 | multiplication distributes over addition on the left factor |
| `GF256.MulAddRight` | crates/protocols/ping/src/rlnc/payload.rs:150-169 | and on the right factor |
| `GF256.MulOne` | crates/protocols/ping/src/rlnc/payload.rs:150-169 | one is the unit |
| `GF256.RoundKeepsProduct` | crates/protocols/ping/src/rlnc/payload.rs:153-166 | a round of shift and reduce keeps accumulator plus remaining product |
| `GF256.GfMul` | crates/protocols/ping/src/rlnc/payload.rs:150-169 | the eight-round loop computes the product of the field whose laws are the rows above |
| `GF256.FipsExample` | crates/protocols/ping/src/rlnc/payload.rs:150-169 | and gives the example product of FIPS 197, so the field is that one |
| `Elimination.OpRowsOnProducts` | crates/protocols/ping/src/rlnc/payload.rs:81-123 | one column step on the rows, then times a vector, is the step on the product: row operations commute with multiplying by unknowns |
| `Elimination.OpColumnInjective` | crates/protocols/ping/src/rlnc/payload.rs:81-123 | one column step never identifies two right-hand sides |
| `Elimination.PivotsMakeUnitColumns` | crates/protocols/ping/src/rlnc/payload.rs:81-123 | while no column is skipped, the first columns are unit columns |
| `Elimination.SkippedColumnGivesKernelVector` | crates/protocols/ping/src/rlnc/payload.rs:81-90 | the first column without a pivot yields a nonzero vector that the original matrix sends to zero |
| `Elimination.IdentityIffTrivialKernel` | crates/protocols/ping/src/rlnc/payload.rs:78-124 | for every size: the leading block ends at the identity iff no column is skipped iff the original has a trivial kernel |
| `Elimination.TrivialKernelInvertible` | crates/protocols/ping/src/rlnc/payload.rs:78-124 | a matrix with a trivial kernel has, on both sides, the inverse its elimination builds |
| `Elimination.EliminationIsOneInvertibleMap` | crates/protocols/ping/src/rlnc/payload.rs:78-124 | singular or not, one invertible matrix maps the leading block and the data to their results, and the solutions of the system stay the same |
| `PartialElimination.EliminateOnSolvable` | crates/protocols/ping/src/rlnc/payload.rs:78-124 | on rows that fit together the elimination never panics and is the one of the rows above |
| `PartialElimination.GetsThroughIffUniform` | crates/protocols/ping/src/rlnc/payload.rs:78-124 | for independent coefficient vectors, the elimination gets through without a panic iff all data rows have one length |
| `PartialElimination.StepEntries` | crates/protocols/ping/src/rlnc/payload.rs:81-115 | entry by entry, what one column does to matrix rows of any lengths |
| `PartialElimination.StepDataEntries` | crates/protocols/ping/src/rlnc/payload.rs:102-121 | and to data rows of any lengths |
| `RlncCoder.Split` | examples/rlnc/src/main.rs:45-58 | the loops produce the zero-padded packets of the payload, for every chunk size |
| `RlncCoder.PacketsCount` | crates/protocols/ping/src/rlnc/payload.rs:16-29 | the packets hold the payload and less than one packet more |
| `RlncCoder.ConcatPackets` | crates/protocols/ping/src/rlnc/payload.rs:16-29 | joining the packets gives the payload followed by as many zeros as the last packet lacks |
| `RlncCoder.JoinedIsPayloadIff` | crates/protocols/ping/src/rlnc/payload.rs:16-29 | so it is the payload iff its length is a multiple of the packet size |
| `RlncCoder.PaddingStays` | crates/protocols/ping/src/rlnc/payload.rs:126-135 | an input that comes back longer: three bytes in packets of two |
| `RlncCoder.MixIn` | crates/protocols/ping/src/rlnc/payload.rs:53-56 | a packet times its coefficient is added to the accumulator, byte by byte |
| `RlncCoder.Encode` | crates/protocols/ping/src/rlnc/payload.rs:40-64 | the accumulation loops compute coefficients times packets, for every size; coefficients are parameters |
| `RlncCoder.BuildLinearSystem` | crates/protocols/ping/src/rlnc/payload.rs:66-76 | matrix and data hold the coefficients and payloads in order |
| `RlncCoder.ScaleInPlace` | crates/protocols/ping/src/rlnc/payload.rs:98-104 | one row is multiplied by a constant, the others stay |
| `RlncCoder.AddInPlace` | crates/protocols/ping/src/rlnc/payload.rs:113-119 | a multiple of the pivot row is added to one row, the others stay |
| `RlncCoder.ClearColumn` | crates/protocols/ping/src/rlnc/payload.rs:106-122 | every row but the pivot row gets its multiple added, matrix and data alike, unless some row is too short, which panics |
| `RlncCoder.EliminateColumn` | crates/protocols/ping/src/rlnc/payload.rs:81-123 | pivot search, swap, normalisation and clearing of rows of any lengths, panics included |
| `RlncCoder.GaussianElimination` | crates/protocols/ping/src/rlnc/payload.rs:78-124 | the in-place elimination of rows of any lengths, panics included; on rows wide enough it reaches the identity iff the matrix has a trivial kernel |
| `RlncCoder.Reconstruct` | crates/protocols/ping/src/rlnc/payload.rs:126-135 | the rows are joined in order and nothing is cut off |
| `RlncCoder.IndependentDrawsRecover` | crates/protocols/ping/src/rlnc/payload.rs:40-124 | for n packets of any width and coefficient vectors with a trivial kernel: the matrix becomes the identity and the data the packets |
| `RlncCoder.DependentDrawsCollide` | crates/protocols/ping/src/rlnc/payload.rs:40-64 | for dependent vectors, two different sets of packets have the same encodings |
| `RlncCoder.RecoveryIffIndependent` | crates/protocols/ping/src/rlnc/payload.rs:40-124 | every set of packets is recovered iff the vectors have a trivial kernel |
| `RlncCoder.Transmit` | examples/rlnc/src/main.rs:91-133 | split, encode, keep n, eliminate, join: with n independent vectors the payload and its exact padding come back, and the payload itself iff its length is a multiple of the chunk size |
| `RlncEngine.PingRLNC.HandleIncoming` | crates/protocols/ping/src/rlnc/engine.rs:27-57 | a packet is ignored, cached or answered from the packets cached before it, never pushed when answered, and what a panic leaves behind |
| `RlncEngine.Reassemble` | crates/protocols/ping/src/rlnc/engine.rs:157-163 | elimination in place and joining compute the decode of the packets cached, or panic |
| `RlncEngine.HandleKeepsDisjoint` | crates/protocols/ping/src/rlnc/engine.rs:27-57 | a packet keeps cache and seen disjoint and never withdraws a seen id |
| `RlncEngine.CacheAndSeenDisjoint` | crates/protocols/ping/src/rlnc/engine.rs:27-57 | in every run, of any packets, no id is cached and seen, and a seen id stays seen |
| `RlncEngine.AnsweredAtMostOnce` | crates/protocols/ping/src/rlnc/engine.rs:27-57 | in every run, of any packets, no message id is answered twice |
| `RlncEngine.SeenIffAnswered` | crates/protocols/ping/src/rlnc/engine.rs:31-33 | in every run, an id is seen iff a packet of it was answered |
| `RlncEngine.CachedIsArrived` | crates/protocols/ping/src/rlnc/engine.rs:35-53 | in every run, what is cached of a message is all its packets, until it is answered or has panicked |
| `RlncEngine.DecodesIff` | crates/protocols/ping/src/rlnc/engine.rs:35-49 | so, whatever the packets, one sets off decoding iff its message is unanswered and one packet fewer than its coefficients has arrived |
| `RlncEngine.PanicLeaves` | crates/protocols/ping/src/rlnc/engine.rs:43-47 | a panic while decoding loses the cached packets and does not mark the id seen |
| `RlncEngine.MessageTracked` | crates/protocols/ping/src/rlnc/engine.rs:35-55 | with n coefficients per packet, the cache of an id is its packets so far while fewer than n, then empty |
| `RlncEngine.MessageLifecycle` | crates/protocols/ping/src/rlnc/engine.rs:31-54 | an answer comes exactly on the n-th packet, for n of two or more, and is the decode of the first n-1 in arrival order; no packet panics, whatever other ids do |
| `RlncEngine.DecodePanicsIff` | crates/protocols/ping/src/rlnc/engine.rs:157-163 | with independent vectors, decoding panics iff two cached packets differ in length |
| `RlncEngine.EngineNeverRecovers` | crates/protocols/ping/src/rlnc/engine.rs:39-47 | in every run, for every nonempty payload, no answer to packets coded from it is as long as the payload, whatever was drawn |
| `Floodsub.SeqnoRoundTrip` | crates/protocols/floodsub/src/cache.rs:29-47 | the eight-byte sequence number gives back the clock value |
| `Floodsub.SeqnoLayout` | crates/protocols/floodsub/src/cache.rs:29-47 | which are least significant first; no other length is a sequence number |
| `Floodsub.FloodSub.GetPeersToSend` | crates/protocols/floodsub/src/pubsub.rs:486-514 | the nested loops collect the peers listed for a topic of the message, without forwarder and origin |
| `Floodsub.FloodSub.WriteMsg` | crates/protocols/floodsub/src/pubsub.rs:202-213 | a frame is appended to one peer's queue |
| `Floodsub.FloodSub.Publish` | crates/protocols/floodsub/src/pubsub.rs:323-341 | each target gets one copy whatever the order of the set, nobody else gets any |
| `Floodsub.FloodSub.PublishLocal` | crates/protocols/floodsub/src/pubsub.rs:159-170 | an API publication is stamped with local peer and clock and is not noted as seen |
| `Floodsub.FloodSub.ConsumePubsubMsg` | crates/protocols/floodsub/src/pubsub.rs:343-376 | own and seen messages change nothing; any other is noted, handed to its subscribed topics and passed on |
| `Floodsub.FloodSub.NotifySubscription` | crates/protocols/floodsub/src/pubsub.rs:378-392 | data and origin are appended to one topic queue |
| `Floodsub.FloodSub.IsMsgSeen` | crates/protocols/floodsub/src/pubsub.rs:394-416 | tells whether the key is cached and notes it with the clock if not |
| `Floodsub.FloodSub.CleanupMsgCache` | crates/protocols/floodsub/src/cache.rs:14-27 | an entry stays iff the clock is at most 120 seconds past its time, and keeps its time |
| `Floodsub.FloodSub.HandleSubOpts` | crates/protocols/floodsub/src/pubsub.rs:418-442 | a subscribe lists the peer once, an unsubscribe delists it |
| `Floodsub.FloodSub.HandleIncoming` | crates/protocols/floodsub/src/pubsub.rs:177-200 | messages with a subscribed topic are consumed once each, in order, then the announcements applied |
| `Floodsub.MessagesConcat` | crates/protocols/floodsub/src/pubsub.rs:177-190 | a frame of several messages is handled as one-message frames, one after the other |
| `Floodsub.FrameNotesKeys` | crates/protocols/floodsub/src/pubsub.rs:177-190 | after a frame the keys noted are those before and those of its messages with a subscribed topic and another origin |
| `FloodsubMembership.FrameListsIff` | crates/protocols/floodsub/src/pubsub.rs:194-198 | after a frame, its sender is listed for a topic it names iff its last word on it is to subscribe; all other listings stay |
| `FloodsubMembership.FrameIsEvents` | crates/protocols/floodsub/src/pubsub.rs:194-198 | the announcements of a frame are events of the peer-table history, in order |
| `Floodsub.SecondIsDroppedIff` | crates/protocols/floodsub/src/pubsub.rs:394-416 | of two new messages, the second is dropped iff the same peer published both in the same second |
| `Floodsub.ListedLookupsSucceed` | crates/protocols/floodsub/src/pubsub.rs:202-206 | while every listed peer is in the table, every lookup of a peer to pass a received message on to succeeds |
| `Floodsub.FloodSub.MessageAllPeers` | crates/protocols/floodsub/src/pubsub.rs:269-279 | every peer in the table gets the frame once |
| `Floodsub.FloodSub.Subscribe` | crates/protocols/floodsub/src/pubsub.rs:215-267 | a new topic is told to the application, gets a queue and a receive loop and is announced to all peers; a known one changes nothing |
| `Floodsub.FloodSub.Unsubscribe` | crates/protocols/floodsub/src/pubsub.rs:281-321 | topics are dropped, told to the application and withdrawn in order, up to the first one not subscribed |
| `Floodsub.UnsubscribeEffect` | crates/protocols/floodsub/src/pubsub.rs:281-321 | the longest prefix of distinct subscribed topics loses its queues, every peer is sent one withdrawal for each in order, and nothing else changes |
| `Floodsub.DropsEffect` | crates/protocols/floodsub/src/pubsub.rs:290-304 | and the application is told of each of them in order |
| `FloodsubMembership.WithdrawalsUnlist` | crates/protocols/floodsub/src/pubsub.rs:312-318 | which at the peer that receives them delist the sender from exactly these topics |
| `FloodsubMembership.AnnouncementIsBelieved` | crates/protocols/floodsub/src/pubsub.rs:255-260 | an announcement sent lists or delists its sender for its topic at the receiver and changes no other listing |
| `Floodsub.FloodSub.GetHelloPacket` | crates/protocols/floodsub/src/pubsub.rs:559-573 | each subscribed topic is announced exactly once; none is sent without topics |
| `FloodsubMembership.HelloLists` | crates/protocols/floodsub/src/pubsub.rs:559-573 | a hello packet lists its sender at the receiver for exactly the topics it is subscribed to, beside those it was listed for |
| `Floodsub.FloodSub.HandleNewPeer` | crates/protocols/floodsub/src/pubsub.rs:444-468 | the peer gets a fresh queue holding the hello packet if there is one |
| `Floodsub.FloodSub.DropFromTopics` | crates/protocols/floodsub/src/pubsub.rs:478-480 | a peer is delisted from every topic and from none is anybody else |
| `Floodsub.FloodSub.HandleDeadPeers` | crates/protocols/floodsub/src/pubsub.rs:470-484 | peers leave table and lists in order, up to the first unknown one |
| `Floodsub.DeadPeersEffect` | crates/protocols/floodsub/src/pubsub.rs:470-484 | the longest prefix of distinct known peers leaves table and lists, and nothing else changes |
| `Floodsub.Retain` | crates/protocols/floodsub/src/pubsub.rs:437 | the list without the peer |
| `Floodsub.WithoutConcat` | crates/protocols/floodsub/src/pubsub.rs:437 | which keeps the others in their order, being taken piece by piece |
| `FloodsubCache.AcceptedStays` | crates/protocols/floodsub/src/pubsub.rs:394-416 | an accepted key stays cached with its time until a cleanup finds it too old |
| `FloodsubCache.CachedWasAccepted` | crates/protocols/floodsub/src/pubsub.rs:394-416 | and every cached key was accepted and not cleaned up since |
| `FloodsubCache.SuppressedIff` | crates/protocols/floodsub/src/pubsub.rs:394-416 | a key is suppressed iff some earlier acceptance has not been cleaned up, for any schedule and any clock |
| `FloodsubCache.ExpiredIsAccepted` | crates/protocols/floodsub/src/cache.rs:14-27 | after an acceptance and a cleanup more than 120 seconds later, the next check of the key is accepted |
| `FloodsubCache.AcceptancesFarApart` | crates/protocols/floodsub/src/cache.rs:11-27 | with a clock that never goes back, two acceptances of one key are more than 120 seconds apart |
| `FloodsubMembership.AnnouncesStep` | crates/protocols/floodsub/src/pubsub.rs:418-484 | how one event changes what the history says about a peer and a topic |
| `FloodsubMembership.ListedStep` | crates/protocols/floodsub/src/pubsub.rs:418-484 | and that it changes the table alike |
| `FloodsubMembership.FoldStep` | crates/protocols/floodsub/src/pubsub.rs:418-484 | one event keeps the tables the fold of the history |
| `FloodsubMembership.EventKeepsPeersIff` | crates/protocols/floodsub/src/pubsub.rs:418-484 | an event keeps every listed peer in the table iff it is not a subscription of an absent peer |
| `FloodsubMembership.AlwaysInTableIff` | crates/protocols/floodsub/src/pubsub.rs:202-206 | in any history, every listed peer has an entry in the table all the time iff all subscriptions are by peers present |
| `FloodsubMembership.ListedIsLastWordIff` | crates/protocols/floodsub/src/pubsub.rs:418-484 | in any history, a peer is listed exactly while its last word stands, iff no peer leaves that is absent and whose subscription stands |
| `FloodsubMembership.TableIsFoldIff` | crates/protocols/floodsub/src/pubsub.rs:418-484 | both together, with lists free of duplicates, iff all subscriptions are by peers present |
| `FloodsubMembership.TwoStreamsOfOnePeer` | crates/protocols/floodsub/src/pubsub.rs:202-206 | a history with two streams of one peer that lists a peer the lookup does not find |
| `FloodsubMembership.AnnouncementKeepsPeersIff` | crates/protocols/floodsub/src/pubsub.rs:418-433 | an announcement keeps every listed peer in the table iff it withdraws or its peer is in the table |
| `FloodsubNetwork.PublishMoves` | crates/protocols/floodsub/src/pubsub.rs:323-341 | a publication puts one copy on the links to the targets and leaves every other link alone |
| `FloodsubNetwork.DeliverMoves` | crates/protocols/floodsub/src/pubsub.rs:343-376 | a delivery takes one copy off its link; if accepted, one goes on each target link, the key is noted and logged |
| `FloodsubNetwork.PublishInv` | crates/protocols/floodsub/src/pubsub.rs:323-341 | a publication keeps the network invariant |
| `FloodsubNetwork.DeliverInv` | crates/protocols/floodsub/src/pubsub.rs:343-376 | so does a delivery |
| `FloodsubNetwork.RunInv` | crates/protocols/floodsub/src/pubsub.rs:177-200 | so does every run |
| `FloodsubNetwork.DeliveredExactlyToReachable` | crates/protocols/floodsub/src/pubsub.rs:323-376 | when no copy is on a link, the message was accepted exactly once at each subscriber reachable by hops from its origin, nowhere else and never at the origin |
| `FloodsubNetwork.TopicQueuesHoldWhatWasAccepted` | crates/protocols/floodsub/src/pubsub.rs:365-371 | in every run a topic queue holds what its node accepted for it, in order |
| `FloodsubNetwork.NeverSentBack` | crates/protocols/floodsub/src/pubsub.rs:492-507 | a delivered message is passed on only to listed peers that are neither its origin nor the peer it came from |
| `FloodsubNetwork.NoCopyToOrigin` | crates/protocols/floodsub/src/pubsub.rs:492-507 | in every run no link to a message's origin holds a copy of it |
| `FloodsubNetwork.SendsAtMostOnce` | crates/protocols/floodsub/src/pubsub.rs:361-373 | in every run no node puts the same message on its links twice |
| `FloodsubNetwork.DeliveryDecreasesWork` | crates/protocols/floodsub/src/pubsub.rs:343-376 | each delivery of a copy lowers (nodes that have not seen it) times nodes plus copies in flight |
| `FloodsubNetwork.OtherStepsKeepWork` | crates/protocols/floodsub/src/pubsub.rs:343-376 | and no other step changes that number |
| `FloodsubNetwork.FloodEnds` | crates/protocols/floodsub/src/pubsub.rs:343-376 | so no run delivers more copies of a message than that number at its start |
| `FloodsubNetwork.DeliveryIsEnabled` | crates/protocols/floodsub/src/pubsub.rs:177-200 | whatever waits on a link can be delivered |
| `FloodsubNetwork.FloodCanEnd` | crates/protocols/floodsub/src/pubsub.rs:343-376 | from every state a run of deliveries takes the message off every link |
| `FloodsubNetwork.DeliveryCanComplete` | crates/protocols/floodsub/src/pubsub.rs:323-376 | so every run can be completed by deliveries to one in which exactly the reachable subscribers have accepted the message |
| `Varint.GroupsRoundTrip` | crates/muxer/src/mplex/headers.rs:43-53 | decoding undoes encoding whatever follows, within the byte limit of the decoder |
| `Varint.U32RoundTrip` | crates/muxer/src/mplex/headers.rs:43 | for headers: every 32-bit value |
| `Varint.UsizeRoundTrip` | crates/muxer/src/mplex/headers.rs:52-53 | for lengths: every 64-bit value |
| `Varint.DecodesOnlyEncodings` | crates/muxer/src/mplex/headers.rs:43-53 | a buffer decodes to a value iff it starts with its encoding and that is within the limit |
| `Varint.EncodeDigit` | crates/muxer/src/mplex/headers.rs:67-73 | each byte holds seven bits of the value, least significant first, and says whether another follows |
| `Varint.EncodeIsMinimal` | crates/muxer/src/mplex/headers.rs:67-73 | the encoding is as short as the value allows |
| `MplexHeaders.WriteFrame` | crates/muxer/src/mplex/headers.rs:61-79 | header, length and payload are appended in this order |
| `MplexHeaders.HeaderSplits` | crates/muxer/src/mplex/headers.rs:49-65 | shifting and masking give back the flag and the low 29 bits of the id |
| `MplexHeaders.FrameRoundTrip` | crates/muxer/src/mplex/headers.rs:41-79 | whatever trails the frame, parsing gives back flag and payload, and the id modulo 2^29 |
| `MplexHeaders.IdSurvivesIff` | crates/muxer/src/mplex/headers.rs:65 | the id comes back iff it is below 2^29 |
| `MplexHeaders.SmallFrame` | crates/muxer/src/mplex/headers.rs:61-79 | the bytes of a frame with a small id and length, with the number of each flag |
| `MplexHeaders.ParsesOnlyFrames` | crates/muxer/src/mplex/headers.rs:41-59 | a buffer parses to a frame iff it starts with that frame built |
| `MplexHeaders.ParseFails` | crates/muxer/src/mplex/headers.rs:41-59 | and exactly how it can fail |
| `MplexHeaders.MistakenForInternalIff` | crates/muxer/src/mplex/conn.rs:211-217 | a frame starts with the marker iff it opens a stream whose id is 13 modulo 2^29, with a 110-byte payload that begins with the rest of the marker |
| `MplexHeaders.WireFramesAreNotInternal` | crates/muxer/src/mplex/conn.rs:211-217 | no message, handshake, liveliness or closing frame and no opening without payload starts with the marker; a marked frame is recovered by stripping |
| `MplexConn.MplexConn.Receive` | crates/muxer/src/mplex/conn.rs:78-201 | every flag's effect on counter, stream table, inboxes, tasks and queue, the parse errors, and the panics on a short buffer and on a receiver that is gone |
| `MplexConn.MplexConn.InsertStream` | crates/muxer/src/mplex/conn.rs:101-133 | the counter becomes the id, the stream joins the table, gets an empty inbox and a task, and all other streams stay |
| `MplexConn.MplexConn.Route` | crates/muxer/src/mplex/conn.rs:151-159 | a payload is appended to the inbox of its stream, dropped if the stream is not in the table, and a panic if it is and its task has ended |
| `MplexConn.MplexConn.PumpQueue` | crates/muxer/src/mplex/conn.rs:208-218 | a marked entry is handled here without its marker, and ends the connection unless it went well; any other is written out unchanged |
| `MplexConn.MplexConn.AcceptWire` | crates/muxer/src/mplex/conn.rs:220-226 | what comes off the wire is handled, and an error or panic ends the connection |
| `MplexConn.HandlerEndsIff` | crates/muxer/src/mplex/conn.rs:151-226 | for every frame: what ends the connection handler, off the queue and off the wire |
| `MplexConn.MalformedEnds` | crates/muxer/src/mplex/conn.rs:84-87 | bytes that do not parse end it too |
| `MplexConn.MplexStream.Write` | crates/muxer/src/mplex/stream.rs:58-63 | one message frame with the stream's id is queued, unless the connection is down |
| `MplexConn.MplexStream.Read` | crates/muxer/src/mplex/stream.rs:65-70 | the oldest payload leaves the inbox of this stream and of no other; an error when it is empty for good |
| `MplexConn.MplexStream.Close` | crates/muxer/src/mplex/stream.rs:72-79 | a marked close frame is queued, unless the connection is down |
| `MplexConn.MplexStream.End` | crates/muxer/src/mplex/stream.rs:81-99 | a task that returns takes its inbox with it and leaves the stream in the table |
| `MplexConn.MplexStream.RequestProtocol` | crates/muxer/src/mplex/stream.rs:103-106 | the opening end queues the request for its protocol, unless the connection is down |
| `MplexConn.MplexStream.AnswerProtocol` | crates/muxer/src/mplex/stream.rs:116-133 | the other end agrees and echoes iff it has a handler for the string it read and the connection is up; it fails without a handler, and panics on bytes that are no string, on nothing to read and on an echo it cannot queue |
| `MplexConn.MplexStream.ConfirmProtocol` | crates/muxer/src/mplex/stream.rs:108-111 | the opening end agrees iff the answer is the protocol it asked for, and panics when there is no answer to come |
| `MplexPair.StepInv` | crates/muxer/src/mplex/conn.rs:78-234 | every step of either end, openings in turn, keeps the two-end invariant |
| `MplexPair.RunInv` | crates/muxer/src/mplex/conn.rs:78-234 | so does every orderly interleaving |
| `MplexPair.IdsAlwaysAgree` | crates/muxer/src/mplex/conn.rs:94-147 | openings in flight are numbered from the receiver's counter up to the sender's, the counters agree when none is, and ids 1, 2, 3, ... are started once each |
| `MplexPair.OpenIsStartedNotClosed` | crates/muxer/src/mplex/conn.rs:101-166 | in every orderly run the streams in the table are those started and not closed, and the tasks that run those started and not ended, where closed and ended are read off the steps |
| `MplexPair.InboxIsProjection` | crates/muxer/src/mplex/conn.rs:151-185 | for each stream started and neither closed nor ended here: what its peer said is what was read, then its inbox, then what is in flight, in order |
| `MplexPair.ReadIsFirstSaid` | crates/muxer/src/mplex/conn.rs:151-185 | for each stream, closed or ended too: what was read and its inbox are a prefix of what its peer said |
| `MplexPair.DataIsForOpenedStream` | crates/muxer/src/mplex/conn.rs:135-146 | a data frame at the head of the pipe is for a stream the receiver has started |
| `MplexPair.DataReachesItsTask` | crates/muxer/src/mplex/conn.rs:151-185 | a data frame taken off the wire is for a started stream; it is dropped if that end closed the stream, panics if it did not and the task has ended, and reaches its inbox otherwise |
| `MplexPair.EndedTaskRun` | crates/muxer/src/mplex/conn.rs:151-185 | an orderly run that ends in that panic: the task ends before the request arrives |
| `MplexPair.OpeningIsFreshIff` | crates/muxer/src/mplex/conn.rs:94-147 | whenever the ends are linked, an opening gets an id the other end does not use iff no opening of the other end is on its way |
| `MplexPair.OpeningsFreshIffOrderly` | crates/muxer/src/mplex/conn.rs:94-147 | in every run, all openings get fresh ids iff each was made while none of the other end was on its way |
| `MplexPair.SimultaneousOpensCollide` | crates/muxer/src/mplex/conn.rs:94-147 | a failing input: two ends that open at once from the start use the same id, and it is started twice |
| `MplexPair.OpeningMisreadIff` | crates/muxer/src/mplex/conn.rs:95-97 | an opening is read as a request to open iff its id is a multiple of 2^29 |
| `MplexBytes.EnabledAlike` | crates/muxer/src/mplex/conn.rs:208-218 | a step can be taken over bytes iff it can over frames and its lengths fit, in turn or not alike: internal entries are told from others as queued |
| `MplexBytes.StepAlike` | crates/muxer/src/mplex/conn.rs:78-234 | every step of two connections over bytes does what the step over frames does, panics included |
| `MplexBytes.SameRuns` | crates/muxer/src/mplex/conn.rs:78-234 | the orderly runs over bytes are exactly the orderly runs over frames whose lengths fit, and lead to the same |
| `MplexBytes.SameTables` | crates/muxer/src/mplex/conn.rs:101-166 | the tables over bytes are the streams started and not closed, and the tasks started and not ended |
| `MplexBytes.WireReads` | crates/transport/src/tcp/conn.rs:21-43 | what arrives next off the byte stream is the oldest message written, however its bytes fall into reads |
| `MplexBytes.ByteInboxIsProjection` | crates/muxer/src/mplex/conn.rs:151-185 | so over bytes too, what was said is what was read, then the inbox, then what is in flight |
| `MplexBytes.HandlerFailsIff` | crates/muxer/src/mplex/conn.rs:208-225 | after every orderly run, a connection handler panics iff the next message is data for a stream in the table whose task has ended, and fails in no other way |
| `MplexBytes.HandlerFails` | crates/muxer/src/mplex/conn.rs:151-185 | a run over bytes in which it does |
| `MplexDrain.EverythingCanArrive` | crates/muxer/src/mplex/conn.rs:208-225 | from every orderly state whose handlers are up and whose open streams have their tasks, pumps and arrivals lead to one with nothing in flight, where on each stream started and not closed what was said is what was read and the inbox |
| `MplexNegotiation.StepRoles` | crates/muxer/src/mplex/conn.rs:94-147 | a stream both ends have was opened by exactly one of them |
| `MplexNegotiation.StepNegotiates` | crates/muxer/src/mplex/stream.rs:101-135 | every step keeps what negotiating tasks have said and heard |
| `MplexNegotiation.EndsAgree` | crates/muxer/src/mplex/stream.rs:101-135 | in every orderly run: the other end hears the protocol asked for, and once the opener hears anything, both have agreed on it and there is a handler |
| `MplexNegotiation.OpenerAgreesIffHandled` | crates/muxer/src/mplex/stream.rs:101-135 | when negotiating is over, both ends have agreed iff the protocol is a string the other end has a handler for |
| `TcpFraming.TcpConn.Read` | crates/transport/src/tcp/conn.rs:17-20 | some positive number of the bytes there, none only at the end or without room |
| `TcpFraming.TcpConn.ReadExact` | crates/transport/src/tcp/conn.rs:21-32 | for every way of short reads the buffer is filled with the next bytes iff there are enough, and the stream is used up otherwise |
| `TcpFraming.TcpConn.RecvMsg` | crates/transport/src/tcp/conn.rs:34-43 | receives what the stream says, however it is cut into reads |
| `TcpFraming.TcpConn.SendBytes` | crates/transport/src/tcp/conn.rs:45-56 | length in network order and message are appended |
| `TcpFraming.ReceivedIff` | crates/transport/src/tcp/conn.rs:34-56 | a sent message is received with the rest untouched iff its length is below 2^32 |
| `TcpFraming.FramedLayout` | crates/transport/src/tcp/conn.rs:45-51 | four bytes of length, most significant first, then the message |
| `TcpFraming.AllReceived` | crates/transport/src/tcp/conn.rs:34-56 | repeated receiving returns exactly the messages sent, in order |
| `TcpFraming.CutStreamGivesPrefix` | crates/transport/src/tcp/conn.rs:21-43 | a stream cut anywhere gives the messages that arrived whole, then an error |
| `FloodsubApiFrame.BuildFrame` | crates/protocols/floodsub/src/subscription.rs:116-162 | the buffer holds tag, string, list and data fields in this order |
| `FloodsubApiFrame.FrameExample` | crates/protocols/floodsub/src/subscription.rs:98-162 | the bytes of a request with every field |
| `FloodsubApiFrame.EmptyFrameExample` | crates/protocols/floodsub/src/subscription.rs:98-162 | and of one with none |
| `FloodsubApiFrame.ProcessItems` | crates/protocols/floodsub/src/subscription.rs:193-202 | the loop reads the items or panics where an index leaves the buffer or an item is no string |
| `FloodsubApiFrame.ProcessList` | crates/protocols/floodsub/src/subscription.rs:183-205 | the optional list, with the same |
| `FloodsubApiFrame.ProcessFrame` | crates/protocols/floodsub/src/subscription.rs:164-222 | index by index the parser reads the request, or panics where reading leaves the buffer, the tag is unknown or bytes are no string |
| `FloodsubApiFrame.ProcessIff` | crates/protocols/floodsub/src/subscription.rs:164-222 | any buffer is read as a request iff it holds that request field by field, any nonzero byte standing for a field that is there, and its strings are strings; on any other the reader panics |
| `FloodsubApiFrame.ProcessedFrame` | crates/protocols/floodsub/src/subscription.rs:116-222 | parsing a built frame never panics and gives the request, with the string none read as no string |
| `FloodsubApiFrame.RoundTripIff` | crates/protocols/floodsub/src/subscription.rs:116-222 | the request comes back iff its string is not none |
| `Multiaddr.PortRoundTrip` | crates/identity/src/multiaddr.rs:84-88 | every 16-bit port printed in decimal parses back |
| `Multiaddr.PortIsReadIff` | crates/identity/src/multiaddr.rs:84-95 | a port is read iff it is one digit or more, below 2^16, with or without a plus sign |
| `Multiaddr.PrintedForms` | crates/identity/src/multiaddr.rs:23-33 | the text of each protocol |
| `Multiaddr.Multiaddr.ParseAddress` | crates/identity/src/multiaddr.rs:59-110 | the loop over the pieces parses pair by pair, with each protocol's error or panic |
| `Multiaddr.ComponentFails` | crates/identity/src/multiaddr.rs:65-106 | which names with which values fail, and how |
| `Multiaddr.SlashesAroundAreIgnored` | crates/identity/src/multiaddr.rs:61 | slashes around an address do not matter |
| `Multiaddr.SplitJoins` | crates/identity/src/multiaddr.rs:61 | the pieces joined with slashes are the text |
| `Multiaddr.Multiaddr.ValueForProtocol` | crates/identity/src/multiaddr.rs:112-124 | the value of the first component of the protocol, none iff there is none |
| `Multiaddr.Multiaddr.ReplaceValueForProtocol` | crates/identity/src/multiaddr.rs:126-161 | the first component of the protocol gets the value, for ip4 every one; an unparsable value is an error that changes nothing |
| `Multiaddr.Multiaddr.PushProto` | crates/identity/src/multiaddr.rs:163-165 | a component is appended |
| `Multiaddr.Multiaddr.Pop` | crates/identity/src/multiaddr.rs:167-169 | the last component leaves, or none is there |
| `Multiaddr.SplitPrinted` | crates/identity/src/multiaddr.rs:23-46 | the pieces between the slashes of a printed list are its names and values in turn |
| `Multiaddr.PrintedIsParsed` | crates/identity/src/multiaddr.rs:59-110 | a printed list parses back |
| `Multiaddr.PrintParseIff` | crates/identity/src/multiaddr.rs:23-110 | it does iff it is not empty, no peer id holds a slash and the last component is not an empty peer id |

## Left out

- Sockets, tasks, sleeps, timeouts and bounded channels: queues are unbounded and first in first out, each
  handler is one atomic step, and the clock is a parameter.
- I/O errors other than the end of a stream, the events of received messages and pings, and logging.
- Random draws are parameters of the encoder, so nothing is said about how likely independence is.
- bincode and prost: messages are values, and peer ids are compared as strings. An origin that is not UTF-8,
  which the source decodes lossily, and a `SubOpts` without a topic, on which it panics, are not modelled.
- RlncCoder.GaussianElimination: requires as many data rows as matrix rows, which is how the linear system
  is built. Rows are sequence values in an array, so two rows sharing storage cannot be expressed; and what
  a panic leaves in the arrays is not described.
- RlncCoder.EliminateColumn: the same, for one column.
- RlncCoder.ClearColumn: the same.
- RlncCoder.Transmit: the source draws five vectors of four-byte chunks; any number and any chunk size are
  allowed here.
- RlncEngine.PingRLNC.HandleIncoming: subtracting one from a coefficient count of zero panics, as it does
  where overflow checks are on; without them the packet would be cached.
- Channels between tasks are never closed, except in the multiplexer, where a stream task and a connection
  handler may end. In floodsub, a send to a peer whose stream handler has ended, before its dead-peer event,
  panics in the source and is a queued frame here; so is a send to a topic whose receive loop has ended.
- Floodsub.FloodSub.IsMsgSeen: requires an eight-byte sequence number, without which the source panics.
- Floodsub.FloodSub.WriteMsg: requires the peer in the table, without which the source panics.
- Floodsub.FloodSub.Publish: requires the targets in the table, without which the source panics.
- Floodsub.FloodSub.HandleIncoming: requires that no message runs into one of these two panics, message by
  message.
- Floodsub.FloodSub.Subscribe: records that a receive loop is started; the loop itself is not modelled.
- FloodsubNetwork.DeliveredExactlyToReachable: topology and subscriptions are fixed, nothing is evicted from
  the caches during the run, publications have distinct keys, and the queues start empty, that is, with the
  hello packets consumed. `FloodCanEnd` shows that deliveries can finish a flood, not that a scheduler
  does. Two messages of one origin in the same second share a key; the code treats the second as seen, and
  the model excludes it.
- Varint: the encoding library is not part of the repository and is modelled by the multiformats unsigned
  varint.
- MplexConn.MplexConn.Receive: the counter wraps at 32 bits, where a debug build panics. A panic is an error
  value. An inbox is kept per id, so a task of an id that is started a second time is not told from the
  first.
- MplexPair.RunInv: ids stay below 2^29. Liveliness and disconnect frames are not steps. Once a connection
  handler is down, neither handler goes on; how the connection is torn down is not modelled.
- MplexBytes.HandlerFailsIff: reads and writes of the socket itself do not fail. The wire is that of a TCP
  connection; a frame is shorter than 2^32 bytes.
- MplexDrain.EverythingCanArrive: shows that what is in flight can arrive, not that a scheduler lets it.
- MplexNegotiation.EndsAgree: the handlers an end has do not change during the run.
- Multiaddr.PrintParseIff: the text of IP addresses is a parameter, with its own round trip assumed and no
  slash in it.
- Multiaddr.Multiaddr.ParseAddress: a panic is an error value, so is the kind of a port error.
- The key store, the security layer, node and swarm plumbing, their frame codecs, the UDP transport, ping
  round-trip times, the command line, the remaining examples and the gossipsub design.
