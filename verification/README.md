# Verified model of the feed comparison tool

The tool subscribes to several feeds of the same chain at once, stamps what it receives, and reports who delivered a block or a
transaction first. This project models the parts of it on which the numbers in the report depend, and proves what they promise.

- **Receiving.** `Bytes`, `Frames`, `Receive`, `Reassembly`, `Conversation` and `Client` model the WebSocket receive path: an
  incremental frame parser over a growing buffer, reassembly of fragments, answers to pings and close frames, the frame writer.
  `Receive.Drain` says what a byte stream causes; `Client.Client` is the program's object with its buffer and its open message,
  and is proved against it. The main results: how a stream is cut into reads never matters (`Receive.ChunkingIndependence`),
  parsing and encoding frames are inverse to each other, a message arrives as its fragments put together
  (`Reassembly.PlainDelivered`), and a whole session delivers exactly the messages it was sent
  (`Conversation.SessionRoundTrip`).
- **Decoding.** `Batch` walks nested batches, `Rlp` splits frames into self-delimiting transactions (Yellow Paper, Appendix B,
  and EIP-2718), `JsonPath` evaluates dotted paths, and `JsonSteps` says what a path means. Each has a round trip, soundness on
  arbitrary input, or composition.
- **Collecting.** `Records` gives the state of the collector as a function of the events the channel delivered, `Collector` is
  the object that updates itself, `Confluence` proves that the interleaving of the sources does not matter, `Order`,
  `Completion`, `Interleaving` and `Winner` where it does, and exactly when. `PerSource` and `Notices` read what it keeps about
  a source, and what it prints, off the history. `Window` and `Skew` relate the stretches the collector keeps to what was
  connected when.
- **Reporting.** `Ranks`, `Tally`, `BlockTable`, `TxTable`, `PairTable` and `PairOrder` prove that the tables are determined by
  the records, whatever the order in which a hash map is visited, and that their counts partition what they count, `BlockSplit`
  where they do not, and `Report` which tables two interleavings share. `Samples` says what medians and percentiles are without
  sorting, and `Figures` and `PairFigures` what each figure of the tables counts. `Calendar` proves the date arithmetic against
  the Gregorian rules (RFC 3339, section 5.7 and Appendix C).
- **Adapters.** `Text`, `Eira` and `Nitro` model the state of two sources: a bounded set of blocks already announced, and the
  cursor from which a session resumes. Both are correct because the collector keeps a source's first delivery. `EiraFeed` and
  `NitroFeed` say what a source's updates become in the collector, and that a block delivered by both is one record
  (`NitroFeed.OneRecord`).

Instants and durations are integer nanoseconds; a median is kept doubled so that it stays an integer. Lengths that the program
keeps in a `usize` are naturals, with the 64-bit wrap-around written out where the program's arithmetic can reach it.

Several statements one might expect are false of the code. Each is settled by a concrete input and an exact condition:

- `completed_at` depends on the interleaving unless every source must deliver (`Order.CompletionDepends`,
  `Order.CompletionDetermined`); for one block, unless fewer sources than needed delivered it before the last one did
  (`Completion.CompletionFixedExactly`).
- The winner of a tie for the earliest stamp depends on the interleaving: it is determined exactly when one source alone is
  earliest (`Winner.WinnerDetermined`, `Winner.EitherWins`).
- What a record takes over from a delivery (a block's number, hash and count, a transaction's block key and count) is
  determined exactly when the sources that compete for it agree (`Interleaving.BlockFieldsDetermined`,
  `Interleaving.HashesDiffer`, `Interleaving.TxFieldsDetermined`, `Interleaving.TxFieldsDiffer`). Where winners, completion
  instants, keys and counts are determined, so are the tables (`Report`).
- With a Nitro source a block can be counted in several size buckets: exactly when two of its transactions have last counts
  in different buckets (`BlockSplit.SplitExactly`, `BlockSplit.BlockInTwoBuckets`).
- The measured window can be wrong although connection stamps never decrease: exactly when a source drops and returns within one
  tick of a warm-up during which all are up (`Window.WindowRight`, `Window.TiedStampsRestartWarmup`).
- When stamps are out of order across sources, each source keeping its own in order, the window can have instants at which a
  source was down: exactly when a stretch opens before all sources are up, or a source drops before it closes (`Skew.NothingExtra`, `Window.CompletedEarly`,
  `Window.OutOfOrderStamps`, `Skew.ClosedLate`). It can also miss instants at which all were up: exactly when it misses the
  first one, or the one at which a stretch ends (`Skew.NothingMissed`, `Skew.NeverOpened`).
- Blocks delivered by a server that resumes as asked can have a gap: exactly when a block between them was only ever sent in a
  frame that could not be parsed (`Nitro.NoGaps`, `Nitro.SpoiledBlockSkipped`).
- `wire_bytes`, documented at src/stats.rs:128 as bytes received, counts a message once per block it carries
  (`Nitro.CountedIsReceived`, `Nitro.TwoBlocksCountTwice`).
- A frame of length-prefixed transactions can be taken for bare ones: exactly when the bare reading succeeds, which cannot happen
  while the first length is below 0xC60000 and does happen at that length (`Rlp.Prefix4RoundTrip`, `Rlp.SmallFirstLength`,
  `Rlp.LargeFirstLength`).
- A piece cut out of a frame need not declare its own length: it does exactly when the declared length did not wrap
  (`Rlp.CutOutDeclaresItself`, `Rlp.PiecesWellFormed`, `Rlp.WrappedPiece`).
- A trailing `[]` does not always fan out over the arrays at a path: it does, for all values, exactly when the path is closed or
  malformed (`JsonPath.FansOutExactly`, `JsonPath.BracketAbsorbed`). After `[` it is absorbed, and after a
  bracket left open with something in it nothing is left (`JsonPath.OpenBracketMerges`).

`dafny verify dfyconfig.toml` checks the whole project.

## Model

| member | source | states |
|---|---|---|
| Frames.TakeStable | src/ws.rs:455-500 | what the parser decides on a buffer, frame or error, it still decides when bytes are appended, which are left after the frame |
| Frames.TakePrompt | src/ws.rs:488-490 | a frame is taken as soon as its last byte is there, never later |
| Frames.TakeEncode | src/ws.rs:455-500 | the parser undoes the encoding of RFC 6455 section 5.2 in all three length forms, masked or not, leaves trailing bytes intact, and rejects exactly the payloads above the limit |
| Frames.EncodeTake | src/ws.rs:455-500 | conversely, the bytes taken are the encoding of the frame taken: a stream has at most one reading |
| Frames.ClientFrame | src/ws.rs:503-521 | the writer's bytes are the encoding of a final masked frame with the payload and opcode given, in the shortest form; they end in the key and the payload under it, each bit of which is flipped exactly where it is set in byte j modulo 4 of the key |
| Frames.ClientFrameRead | src/ws.rs:503-521 | whatever the masking key, the peer reads back payload and opcode, and no masked encoding is shorter |
| Frames.ProtocolExamples | src/ws.rs:453-521 | the examples of RFC 6455 section 5.7, byte by byte: a text frame, masked, in two fragments, a ping and a masked pong |
| Frames.LongHeaders | src/ws.rs:467-481 | 126 announces a length in two bytes, 127 one in eight, most significant byte first |
| Bytes.XorBit | src/ws.rs:496 | each bit of an exclusive or is set exactly when the bits of the operands differ |
| Bytes.MostSignificantFirst | src/ws.rs:471-479 | the first byte of a big-endian number weighs the most |
| Frames.Unmask | src/ws.rs:494-498 | unmasking in place leaves each byte of the payload combined with byte j modulo 4 of the key, by the exclusive or that `Bytes.XorBit` pins down |
| Client.Client.ParseFrame | src/ws.rs:455-500 | takes one frame off the front of the buffer; leaves the buffer alone when there is none or an error |
| Client.Client.Finish | src/ws.rs:402-410 | delivers the payload, inflated when compressed; an inflater error ends the session; `Reassembly.PlainDelivered` and `Reassembly.InflatedDelivered` state it on the bytes received |
| Client.Client.DataFrame | src/ws.rs:370-400 | one reassembly step, with its new open message and every error case |
| Client.Client.HandleFrame | src/ws.rs:330-347 | data frames to reassembly, pings answered with the same payload, close frames answered and fatal; a pong that cannot be written ends the session, a close frame that cannot be written is given up |
| Client.Client.Turn | src/ws.rs:329-347 | one buffered frame: what it puts out, and that the rest of the session goes on from there, or the error that ends it |
| Client.Client.Read | src/ws.rs:349-361 | a read adds to the buffer and to nothing else; no bytes is the end |
| Client.Client.NextMessage | src/ws.rs:320-368 | each call returns the next message of the session with its arrival stamp, or its end, failing writes included; together with what the client will still do, this is all it would have done before the call |
| Client.Client.RunSession | src/nitro.rs:129-133 | calling it until it fails yields every message of the stream, in order, and the stream's own end |
| Client.FeedTurn | src/ws.rs:327-348 | a buffered frame is processed before any further read, and gets the stamp of the last one |
| Client.CutShort | src/ws.rs:320-343 | failing writes only cut a session short: the messages are a prefix of what it would have delivered, and all of them unless a pong failed |
| Client.CutExactly | src/ws.rs:337-343 | the first pong that cannot be written ends the session there, with the messages before it; with none, the session keeps its own end, even when a close frame could not be written |
| Receive.DrainExtend | src/ws.rs:327-348 | appended bytes only continue what the first bytes left waiting; an error is final |
| Receive.ChunkingIndependence | src/ws.rs:327-368 | however a stream is cut into reads, outputs and end are those of the whole stream at once, and each output has the stamp of the read that brought its last byte |
| Receive.CutsAgree | src/ws.rs:327-368 | two ways of cutting the same bytes give the same messages, replies and outcome |
| Reassembly.PlainDelivered | src/ws.rs:370-411 | an uncompressed payload cut into any fragments, with pings and pongs between them, is delivered as one message: exactly the fragments put together, with the wire length of its data frames alone, after one equal pong per ping, in order |
| Reassembly.InflatedDelivered | src/ws.rs:402-410 | a compressed one is delivered as what the inflater makes of the fragments put together, and the rest of the stream meets its new context; if it fails, the session ends |
| Reassembly.RefusedUndelivered | src/ws.rs:376-391 | a payload above the limit, or compressed without negotiation, delivers nothing and ends the session |
| Reassembly.CloseFrame | src/ws.rs:339-345 | a close frame is answered with its first two bytes, and ends the session with the code they make and the text after them |
| Reassembly.RefusedFrame | src/ws.rs:346-391 | unknown opcodes, a data frame inside a message, a stray continuation, compression that was not negotiated, and frames and messages above the limit: the error of each, and nothing delivered |
| Reassembly.ReservedBitsRefused | src/ws.rs:461-463 | either of the two reserved bits ends the session |
| Conversation.SessionRoundTrip | src/ws.rs:327-411 | a session over any sequence of such messages, cut into reads in any way, delivers exactly these: pongs, then the payload, inflated if compressed, with the context carried from message to message |
| Conversation.PlainSession | src/ws.rs:327-411 | without compression, the messages delivered are the payloads one for one and in order, with nothing left over |
| Conversation.OnlyGoodMessagesArrive | src/ws.rs:370-400 | an uncompressed message above the limit, or a compressed one without negotiation, is never delivered |
| Conversation.BytesConserved | src/ws.rs:330-400 | for every byte stream that causes no error, the bytes fed are those of delivered messages, open message, pings and pongs, and leftover |
| Batch.Walker.WalkSlice | src/l2.rs:25-50 | the recursive walk appends the transactions of its slice to the shared vector |
| Batch.WalkInOrder | src/l2.rs:25-50 | on any bytes the results are disjoint sub-slices in order, and total length plus 9 for each and 1 fits in a batch |
| Batch.CutIsPrefix | src/l2.rs:34-49 | cutting a batch anywhere yields a prefix of its results |
| Batch.WalkLocal | src/l2.rs:25-50 | the results depend only on the bytes of the slice |
| Batch.WalkRoundTrip | src/l2.rs:19-50 | on the encoding of any tree of batches, exactly the nonempty signed leaves under at most five batches, in order |
| Batch.WalkOfAnyBytes | src/l2.rs:17-50 | every byte string is the encoding of such a tree, whose batches may end in bytes that hold no complete entry of at most 16 MiB; so this holds for every message |
| Rlp.TryPrefix | src/wsraw.rs:105-124 | the scan with one prefix finds the tiling of the rest of the frame if there is one |
| Rlp.SplitTxs | src/wsraw.rs:104-129 | the first of the three framings that tiles the frame decides |
| Rlp.TxLenLocal | src/wsraw.rs:61-100 | the length of a transaction is read from its header alone |
| Rlp.CutOutDeclaresItself | src/wsraw.rs:61-100 | a transaction cut out of its frame declares its own length if and only if the declared length did not wrap |
| Rlp.AttemptFramed | src/wsraw.rs:105-124 | a run of well-formed transactions is found again by the framing it was written with |
| Rlp.AttemptSound | src/wsraw.rs:105-124 | what a scan finds, framed again, is the rest of the frame, and `tx_len` at each piece is its size |
| Rlp.SplitSound | src/wsraw.rs:104-129 | a nonempty result tiles the whole frame as prefix plus transaction, for prefixes of 0, 4 or 8 bytes that equal the lengths, and `tx_len` at each piece is its size |
| Rlp.PiecesWellFormed | src/wsraw.rs:61-129 | the pieces, taken by themselves, are transactions of their own size if and only if no declared length wrapped |
| Rlp.UniquelyDecodable | src/wsraw.rs:61-129 | for a given prefix a frame has at most one reading |
| Rlp.BareRoundTrip | src/wsraw.rs:102-129 | bare transactions are recovered exactly |
| Rlp.Prefix4RoundTrip | src/wsraw.rs:102-129 | behind 4-byte lengths they are recovered if and only if the bare reading fails |
| Rlp.SmallFirstLength | src/wsraw.rs:87-100 | which it does whenever the first length is below 0xC60000 |
| Rlp.LargeFirstLength | src/wsraw.rs:104-129 | that bound is sharp |
| Rlp.Prefix8RoundTrip | src/wsraw.rs:102-129 | behind 8-byte lengths they are recovered when the first length fits in four bytes |
| Rlp.Prefix8Exactly | src/wsraw.rs:102-129 | with no bound on the lengths, they are recovered if and only if the two earlier readings fail |
| Rlp.EncodedIsWellFormed | src/wsraw.rs:85-100 | every RLP list, bare or behind a type byte, of at least 8 bytes in all is a transaction for the splitter |
| Rlp.WellFormedExactly | src/wsraw.rs:61-100 | conversely, what passes for a transaction is exactly an RLP list, or one behind a type below 0x80, of at least 8 bytes; items are not looked at, and lengths need not be in shortest form |
| Rlp.NoLengthExactly | src/wsraw.rs:61-100 | `tx_len` gives up exactly on bytes that start neither a list nor a type and a list, 0x80 to 0xbf among them, or whose header is cut off |
| Rlp.WrappedPiece | src/wsraw.rs:61-76 | a frame that is accepted although a piece of it declares more than 2^64 bytes |
| JsonPath.ExtractLoop | src/wsjson.rs:71-96 | the loop over segments and brackets computes the values at the path |
| JsonSteps.ExtractFollows | src/wsjson.rs:69-96 | the values at a path are those that one reaches step by step: a member of an object, one element of an array, or all of them in order; other values contribute nothing |
| JsonSteps.IndexForms | src/wsjson.rs:88-89 | an index may carry a plus sign, and one beyond usize leaves nothing |
| JsonSteps.BadBracket | src/wsjson.rs:90-92 | a bracket that holds neither nothing nor a number leaves nothing |
| JsonPath.ExtractComposes | src/wsjson.rs:71-96 | for all values and paths, malformed ones included, the values at p.q are those at q of each value at p |
| JsonPath.TrailingBracket | src/wsjson.rs:84-93 | what one more bracket after a closed path does to the values there |
| JsonPath.TrailingFanOut | src/wsjson.rs:69-96 | a trailing `[]` gives the elements of the arrays at a closed path, a trailing index picks that element of each |
| JsonPath.FanOutIsAllPicks | src/wsjson.rs:69-96 | where a path is one array, `[]` equals `[0]`, `[1]` and so on, one after the other |
| JsonPath.OpenBracketMerges | src/wsjson.rs:84-93 | for every value and every path that ends inside an open bracket: a further `[]` is absorbed if the path ends in `[`, and otherwise nothing is left |
| JsonPath.FansOutExactly | src/wsjson.rs:69-96 | for every path: a trailing `[]` gives the elements of the arrays at the path, for all values, if and only if the path is closed or malformed |
| JsonPath.BracketAbsorbed | src/wsjson.rs:84-86 | an open path that is not malformed, and a value for which it does not |
| Text.KeyInjective | src/eira.rs:187 | blocks with different numbers, or a number of another kind, have different keys |
| Collector.Collector.constructor | src/stats.rs:145-166 | nothing connected, nothing recorded, the threshold clamped to the number of sources |
| Collector.Collector.OnEvent | src/stats.rs:168-275 | one event changes the state as the specification says, keeps all records consistent, and reports what `Notices` reads off the history |
| Collector.Collector.OnConnected | src/stats.rs:172-188 | connection flag, reconnect count and the start of a stretch |
| Collector.Collector.OnDisconnected | src/stats.rs:189-200 | connection flag and the end of a stretch |
| Collector.Collector.OnBlock | src/stats.rs:201-242 | counters, first and later deliveries, completion and its line, whose contents `Notices.BlockLines` gives |
| Collector.Collector.OnTx | src/stats.rs:243-273 | counters, block key, count, flag and arrivals of a transaction |
| Collector.Consume | src/main.rs:170-189 | after any events from the channel the collector is in the state that the specification gives for them |
| Collector.OneLinePerBlock | src/stats.rs:232-239 | in every run each completed block was announced exactly once, and no other block was |
| Notices.BlockLines | src/stats.rs:223-239 | over every run: a block line appears exactly when a first delivery brings the sources that have the block to the threshold; it shows the first number and hash named, the key failing that, each source's first stamp behind the earliest of all if it delivered the block, and a source that was earliest |
| Notices.LinkNotices | src/stats.rs:172-199 | over every run: a connect is reported unless the last link event of the source was a connect, as a reconnect if it had connected before; a disconnect is reported if it was one |
| Collector.LineDelays | src/stats.rs:234-239 | hence no delay in a line is negative and the winner's is zero |
| Records.DeliverKeeps | src/stats.rs:214-233 | after each delivery `seen` counts the arrivals, `first` is the earliest and `first_src` made it, and the block is complete if enough sources have it |
| Records.LinksKept | src/stats.rs:172-200 | only the last stretch can be open, and it is open exactly while all sources are connected |
| Records.RunKeeps | src/stats.rs:168-275 | all of this in every reachable state |
| Confluence.OwnStreamDecides | src/stats.rs:168-275 | what is kept about a source is decided by that source's events alone |
| Confluence.FirstDeliveryWins | src/stats.rs:223-226 | a block's arrival at a source is the stamp of its first delivery; replays never move it |
| PerSource.TxFirstDeliveryWins | src/stats.rs:264-267 | likewise a transaction's arrival at a source |
| PerSource.StreamTells | src/stats.rs:172-246 | over every run a source is connected exactly when the last link event of its stream is a connect; its detail is that of its last connect, its reconnects are the connects after a disconnect but for the first connect, and its counters count the events and bytes of its stream |
| Confluence.Confluent | src/stats.rs:168-275 | two interleavings of the same streams, duplicates included, give the same per-source state and, for each block and transaction, the same arrivals, `seen`, `first` and swap flag; the same `completed_at` when all sources must deliver; the same `first_src` when one source alone is earliest |
| Confluence.SwapIffFlagged | src/stats.rs:263 | the swap flag is set exactly when some delivery, a duplicate or not, was flagged |
| Confluence.WireBytesCounted | src/stats.rs:203 | the byte counter of a source is the sum over its block events |
| Order.CompletionDepends | src/stats.rs:232-233 | with a lower threshold two interleavings of the same streams complete the same block at different instants |
| Order.CompletionDetermined | src/stats.rs:232-233 | completion instants are decided by the streams, for all blocks of all runs, if and only if every source must deliver |
| Completion.CompletionFixedExactly | src/stats.rs:232-233 | for each block of each run: its completion instant is the same over all interleavings of the same streams if and only if fewer sources than needed delivered it before the last one did |
| Completion.SettledAgrees | src/stats.rs:232-233 | and then it is that of the last delivery in each of them |
| Winner.TiesGoToTheFirstProcessed | src/stats.rs:226-231 | in every run, of the sources that bear the earliest stamp the winner is the one whose first delivery was processed first |
| Winner.WinnerDetermined | src/stats.rs:226-231 | over all interleavings of the same streams the winner is the same if and only if one source alone has the earliest stamp |
| Winner.EitherWins | src/stats.rs:228-231 | a tie in which either source wins |
| Interleaving.BlockTakesFirst | src/stats.rs:204-222 | a block has the first number, hash and count that any delivery names, duplicates included |
| Interleaving.BlockFieldsDetermined | src/stats.rs:204-222 | these are decided by the streams if and only if the first ones of all sources agree |
| Interleaving.HashesDiffer | src/stats.rs:217-219 | two sources that name different hashes: either is kept |
| Interleaving.KeyFirstCountLast | src/stats.rs:256-262 | a transaction's block key is from the first Nitro delivery that names one, any delivery failing that; its count is from the last Nitro delivery |
| Interleaving.TxFieldsDetermined | src/stats.rs:256-262 | the key is decided by the streams if and only if the first keys of the Nitro sources that name one agree, of all sources if none does; the count if and only if the last counts agree |
| Interleaving.TxFieldsDiffer | src/stats.rs:256-262 | two Nitro sources that name different blocks and counts: either of each is kept |
| Interleaving.FirstDetermined | src/stats.rs:217-222 | the first value that events offer is the same in all interleavings if and only if all sources that offer one offer the same first |
| Interleaving.LastDetermined | src/stats.rs:260-262 | likewise the last value |
| Window.HistoryMatches | src/stats.rs:172-200 | with stamps that never decrease, an instant is in the window, for every warm-up, if and only if every source was up throughout and none dropped since the start of the warm-up |
| Window.WindowRight | src/stats.rs:277-280 | with such stamps, and for the warm-up of a run, the window is right at every instant if and only if no source drops and returns within one tick of a warm-up during which all are up |
| Window.WindowRightExactly | src/stats.rs:277-280 | it is right for every warm-up if and only if no source drops and returns within one tick between two ticks at which all are up |
| Window.IncreasingNeverBlinks | src/stats.rs:172-200 | strictly increasing stamps exclude that |
| Window.InWindowIsWarm | src/stats.rs:277-280 | with them an instant is in the window if and only if every source was connected at every tick of the warm-up before it and then |
| Window.WindowTicksCount | src/stats.rs:282-292 | with stamps that never decrease the window length is the number of ticks in the window before now |
| Window.TiedStampsRestartWarmup | src/stats.rs:185-196 | a run in which a source drops and returns within one tick: the warm-up starts again although no tick was lost |
| Window.CompletedEarly | src/stats.rs:185-187 | in any run, the connection that completes the set opens the window at its own stamp, which is right if and only if every other source was up at that stamp |
| Window.OutOfOrderStamps | src/stats.rs:185-187 | a run with decreasing stamps that has a tick in the window at which a source was not up |
| Skew.NothingExtra | src/stats.rs:185-196 | in any run whose sources each keep their own stamps in order, every instant of the window is right if and only if each stretch that outlasts the warm-up opens when all sources are up and no source drops while it lasts |
| Skew.NothingMissed | src/stats.rs:185-196 | in any run, no instant that belongs into the window is missing if and only if none is at the first tick of each such time and at the end of each stretch |
| Skew.ClosedLate | src/stats.rs:193-197 | a run in which a later drop is processed first, and the window has a tick at which a source was down |
| Skew.NeverOpened | src/stats.rs:185-196 | a run in which a later drop is processed before a connection, and no stretch begins although all sources were up |
| Window.SameWindow | src/stats.rs:172-200 | two interleavings of the same streams with stamps that never decrease have the same window for every warm-up, and of the same length |
| Window.SameStretches | src/stats.rs:172-200 | with strictly increasing stamps, even the same list of stretches |
| Ranks.PercentileIs | src/stats.rs:22-29 | a percentile is the least sample that enough of the samples do not exceed |
| Ranks.OrderIrrelevant | src/stats.rs:42-45 | a row depends on the samples and not on their order |
| Ranks.PercentileMonotone | src/stats.rs:22-29 | percentiles grow with the rank asked for |
| Ranks.RowOrdered | src/stats.rs:65-78 | the columns of a row never decrease and end in the greatest sample |
| Ranks.PercentileOfNegated | src/stats.rs:22-29 | seen from the other side, a percentile is minus the complementary one, or minus the next sample when the rank is whole |
| Ranks.MedianOfNegated | src/stats.rs:31-40 | seen from the other side, the median changes its sign |
| Samples.MedianIs | src/stats.rs:31-40 | the doubled median is the sum of the two samples in the middle: the least ones at or below which there are half of the samples, rounded up, and half plus one |
| Samples.ColumnsAre | src/stats.rs:65-78 | each column of a row is the least value that as many thousandths of the samples do not exceed, and the last one the greatest sample |
| BlockTable.BlockSummary | src/stats.rs:296-323 | one pass in arbitrary order counts completed blocks, wins and delay samples of the period and window |
| BlockTable.SummaryUnique | src/stats.rs:296-323 | every order of iteration gives the same summary |
| BlockTable.SummaryAdds | src/stats.rs:305-313 | wins sum to the completed blocks, at least `min_sources` samples for each, no negative delay, and a zero sample for each win |
| BlockTable.PeriodsAdd | src/stats.rs:294-305 | counts, wins and samples of two adjacent periods add up to those of both |
| Figures.BlockFigures | src/stats.rs:296-323 | over every run: the blocks counted are those completed in the period and first seen inside the window, wins are theirs, and each row describes how far a source was behind the first delivery |
| Figures.InsideByHistory | src/stats.rs:278-280 | an instant is inside the window, with stamps in order, exactly when every source was up and none dropped from the warm-up before on |
| TxTable.TxSummary | src/stats.rs:325-381 | one pass in arbitrary order counts transactions seen, matched, first and clearly first, and collects the lags |
| TxTable.SummaryUnique | src/stats.rs:325-381 | every order of iteration gives the same summary |
| TxTable.LeaderIsEarliest | src/stats.rs:349-361 | a source that leads by 1 ms is the only one that is first |
| TxTable.SummaryBounds | src/stats.rs:325-381 | clear leads sum to at most the matched transactions, firsts to at least them, with equality if and only if none is tied |
| Figures.TxFigures | src/stats.rs:325-381 | over every run: transactions of the window, those enough sources have, flagged ones, and per source those seen, first, ahead of all others by 1 ms, and the lags |
| Report.SameTxSummary | src/stats.rs:325-381 | two interleavings of the same streams with connection stamps in order give the same transaction summary |
| Report.SameBlockSummary | src/stats.rs:296-323 | and the same block summary of any period, if each block has a sole earliest stamp and a settled completion |
| Report.SamePairTable | src/stats.rs:384-491 | and the same pair table, if the sources agree on block and count of each transaction |
| PairTable.RefCounts | src/stats.rs:386-397 | sizes of blocks as the reference source delivered them |
| PairTable.Rows | src/stats.rs:404-416 | one row for each transaction of the window that both sources delivered |
| PairTable.SwappedSides | src/stats.rs:417-419 | swapping the two sources negates the median, keeps the share within 1 ms, swaps the shares that lead by 5 ms, and turns p10 into minus p90 and back, or minus the next sample when ten divides the count |
| PairTable.IntervalIsTruncated | src/stats.rs:424 | the index of a row's interval is the truncated quotient of seconds, rounding apart |
| PairTable.Intervals | src/stats.rs:421-434 | one ordered entry for each interval that has rows |
| PairTable.IntervalsPartition | src/stats.rs:421-434 | their counts sum to the number of rows |
| PairTable.Buckets | src/stats.rs:436-474 | rows by the size of their block |
| PairTable.BucketsPartition | src/stats.rs:437-445 | every row with a size of at least 1 is in exactly one bucket |
| PairTable.BlockHasSize | src/stats.rs:409-413 | without a Nitro source every row that has a block has its size, at least 1 |
| PairTable.BlocksPartition | src/stats.rs:446-456 | and no block is split: the block counts sum to the number of different blocks |
| BlockSplit.BlocksCountedOnce | src/stats.rs:446-456 | the block counts sum to at least the number of blocks of known size, and to that number if and only if no block has rows in two buckets |
| BlockSplit.SplitExactly | src/stats.rs:406-413 | with a Nitro source, they do if and only if no two transactions are put into one block with last counts in different buckets |
| BlockSplit.BlockInTwoBuckets | src/stats.rs:256-262 | a run in which one block is in two buckets |
| PairOrder.PairSummary | src/stats.rs:384-491 | headline, intervals and buckets, all of the same rows |
| PairFigures.HeadlineFigures | src/stats.rs:417-419 | over every run: n, median, p10 and p90 of how much later the other source delivered the shared transactions of the window, and how often that is positive, within 1 ms, above 5 ms and below -5 ms |
| PairFigures.IntervalFigures | src/stats.rs:421-434 | n, median and share of the transactions first seen in each interval of the run; every interval that has some is listed, in order |
| PairFigures.BucketFigures | src/stats.rs:436-474 | the same for blocks of 1 to 5, 6 to 20, 21 to 50 and more transactions, with p10, p90 and the number of different blocks |
| PairOrder.TableUnique | src/stats.rs:384-491 | every order of iteration gives the same table |
| Calendar.Epoch | src/report.rs:53-69 | day 0 is 1970-01-01 |
| Calendar.DaysFollow | src/report.rs:58-68 | every day number, negative ones included, gives a valid date, and the next number the next day of the Gregorian calendar |
| Calendar.YearOfEraCorrect | src/report.rs:61-63 | the nested divisions find the year that contains the day |
| Calendar.CountsBack | src/report.rs:58-68 | counting the days to the computed date gives the number back |
| Calendar.RoundTrip | src/report.rs:58-68 | every valid date from 1970 on is computed from its day number |
| Calendar.StrictlyIncreasing | src/report.rs:58-68 | later days have later dates |
| Calendar.UtcDeterminesSeconds | src/report.rs:53-69 | date and time are in range and determine the second |
| Eira.Adapter.OnInput | src/eira.rs:157-210 | the events sent and the set kept for one update, clearing included; `EiraFeed` states what they become |
| Eira.Adapter.OnTransaction | src/eira.rs:180-207 | a transaction is preceded by its block unless the set has it; the set is cleared first when it is full; the keys are those of `EiraFeed.EiraBlocks` and `EiraFeed.EiraTxs` |
| Eira.Consume | src/eira.rs:96-111 | over any number of sessions, the events sent and the state are those of the specification |
| Eira.SeenBounded | src/eira.rs:188-191 | the set never exceeds 100001 entries |
| Eira.FewBlocksKept | src/eira.rs:188-191 | a session of at most 100000 blocks announces each of them once |
| Eira.RepeatsIgnored | src/stats.rs:201-225 | block events that repeat an earlier one of the same source change no record in the collector |
| Eira.EmittedRelated | src/eira.rs:154-210 | without its repeated block events the adapter has sent what one with an unbounded set for the whole run sends |
| Eira.ForgettingIsHarmless | src/eira.rs:154-197 | in any interleaving, clearing or rebuilding the set leaves the same records and counters as never forgetting, but for the number of the source's block events |
| EiraFeed.EiraBlocks | src/eira.rs:182-197 | in any interleaving: block n of the feed arrives under the key "seq:n" with the first transaction at the wanted level that names it; a block without a feed number under "num:" and its chain number; it names the feed number and no hash or count |
| EiraFeed.EiraTxs | src/eira.rs:198-206 | a transaction arrives with its first update that counts, which also names its block by the same key; a swap flag in any of them counts |
| EiraFeed.EiraSource | src/eira.rs:154-180 | the source is connected from the first acknowledgement of a session on, unless the server says that its own source at that level is down, until the session ends; its transactions and their bytes are counted |
| Nitro.ParseFrame | src/nitro.rs:74-88 | one block per message with its transactions in order; one bad payload spoils the frame |
| Nitro.BlockOfMessage | src/nitro.rs:77-85 | a message becomes a block with its number, its hash unless that is missing or blank, and no transactions unless it has a payload |
| Nitro.TxsOfTree | src/nitro.rs:78-84 | for any payload the transactions reported are the kept leaves of its tree of batches, in order, each with the hash and the length of its bytes |
| Nitro.Adapter.OnMessage | src/nitro.rs:129-163 | the blocks of one message, each advancing the cursor and followed by its transactions, with the stamp chosen; a frame that cannot be parsed leaves no trace |
| Nitro.Adapter.Open | src/nitro.rs:95-128 | a session asks for the cursor |
| Nitro.CursorIsNext | src/nitro.rs:142-144 | in every run the cursor is one plus the highest number so far, 2^64 - 1 apart, and none if there was none |
| Nitro.CursorGrows | src/nitro.rs:142-144 | it never goes back |
| Nitro.PositionIsCursor | src/nitro.rs:91-99 | with a server that starts where asked, counts on and may replay, in frames readable or not, the cursor is at most the server's position, over all sessions, and equal to it if and only if the last new block could be read |
| Nitro.NoGaps | src/nitro.rs:91-151 | then the blocks delivered are a gap-free interval that ends at the cursor if and only if none between was only ever in a frame that could not be parsed |
| Nitro.SpoiledBlockSkipped | src/nitro.rs:138-144 | a block lost in a spoiled frame, which the next block moves the cursor past |
| Nitro.ResumedRun | src/nitro.rs:142-151 | the collector keeps each block's first stamp through replays, and has one for exactly the blocks delivered, which are that interval under the condition above |
| NitroFeed.NitroBlocks | src/nitro.rs:146-148 | block n is described under the key "seq:n" by its number, the first hash that a delivery names and the number of transactions in its first delivery |
| NitroFeed.NitroTxs | src/nitro.rs:152-160 | a transaction arrives with the first block that carries it, whose key it gets, and gets the count of the last one |
| NitroFeed.NitroSource | src/nitro.rs:126-166 | the source is connected while a session is open; its blocks, transactions and bytes are counted over all sessions, replays included |
| NitroFeed.OneRecord | src/eira.rs:187 | a block of the feed that a Nitro source and an Eira source deliver is one record with the first stamp of each |
| Nitro.CountedIsReceived | src/nitro.rs:148 | the byte counter grows by a message's length if and only if the message carries one block or no bytes |
| Nitro.TwoBlocksCountTwice | src/nitro.rs:148 | a message of 100 bytes with two blocks counts 200 |

## Left out

- Connections, TLS, the HTTP upgrade and gRPC, timeouts, ping timers, reconnect delays and Ctrl-C: the model starts from reads,
  updates and messages in the order in which they arrive.
- DEFLATE: the inflater is any function of a context and a payload that gives a new context and a result or an error.
- JSON text, base64, protobuf, UTF-8 and keccak256: the model starts from parsed values and takes the hash as a parameter;
  `key_from_value` and the search for hashes in unknown JSON are not modelled.
- Which write fails is a parameter of the client, a number of frames that the connection still takes.
- Masking keys are a parameter; nothing is said about randomness.
- `decoded` stamps of a message are a parameter of the Nitro adapter.
- Counters are unbounded naturals; overflow of u32 and u64 counters is not modelled. Block and transaction counts and raw lengths
  that the program narrows to u32 are not narrowed; a message of at most 15 MiB cannot reach that limit.
- Shares in percent, seconds as floating point and the printed decimals: the model has the counts and integers they are made of.
- PairTable.Intervals: the interval of a row is the exact quotient, truncated; the program rounds when it divides, which can
  differ next to an interval boundary. The index counts from 0; the printed one counts from 1 and comes with its start in
  seconds.
- TxTable.TxSummary: a lag row has all the percentiles of `Percentiles::of`; the program keeps five of them.
- Rlp.TxLenLocal: additions wrap as in a release build; a build with overflow checks would stop instead.
- Calendar.UtcDeterminesSeconds: seconds are unbounded, where the program converts to i64; the text layout of the date is not
  modelled.
- Nitro.ParseFrame: the strings in a frame are sequences of characters, and the first invalid field of JSON is not modelled.
- Eira.Adapter.OnInput: the wording of connection details is shortened, since nothing depends on it.
- Adapters stop when the collector's channel is closed; the model's channel stays open.
- Table layout, report text, `retry_delay`, `negotiated_mode`, `parse_url`, command line arguments and the source
  specifications: display code or single decisions.
