# Niulang transport: a verified model

This project models the in-memory core of the Niulang transport and proves what it
promises over whole runs: the sliding-window erasure code and its field, the coded
frame path that rides on it, the striped flow's receiver and its acknowledgements,
the loss estimator, and the congestion machinery. `dafny verify dfyconfig.toml`
checks everything.

## How it is built

Each component has two layers. A functional layer says what a step does to a value
and carries the theorems about runs. An imperative layer has the fields, arrays and
loops of the program, and each of its methods is proved to take its state where the
functional step takes it, so the theorems hold of it.

* Erasure code: `GaloisField` builds GF(256) from shifts and proves it is a field with
  generator 2; `GaloisTables` fills and uses the tables; `LinearSystem` is rows and
  their meaning; `DecoderModel` is the decoder step by step; `DecoderInvariant`,
  `DecoderSemantics` and `DecoderRuns` are its form, its meaning and its runs;
  `LateSource` and `SymbolFates` take arrivals in any order; `WindowEncoder` and
  `WindowDecoder` are the classes.
* Coded frame path: `Frames`, `Packing`, `Assembly`, `Completion`, `FrameAssembler` and
  `FrameRoundTrip`; `CodedSender` is the sending side, `CodedPath` the whole path end to
  end, `Rereading` and `HandedAgain` what reordering and repetition do to it; `Callbacks` is
  the send queue, `Numbering` the transmission sequences.
* Striped flow: `Reassembly`, `OrderedDelivery`, `FlowReceiver`, `StuckFlow`,
  `AckTracker`, `StripedFlow`, `MemoryBudget`.
* Loss estimator: `LossModel`, `LossRecord`, `LossRates`, `LossEstimator`.
* Congestion: `MaxFilter`, `PacketStates`, `Bbr`, `BbrSender`, `WireCap`.

Identifiers that wrap on the wire are unbounded integers in the theorems; `Wrap` is
what the wire and the ring see, and comparisons are the source's sign tests. Bytes
are naturals below 256. Times are nanoseconds with zero for never; rates, gains and
decaying counters are reals.

## Where the code does not meet its own promise

* A frame whose length is within three bytes of the symbol payload is sent as a single
  fragment, which the receiver reads as packed frames (`internal/coded/coded.go:402`,
  `428`, `730`), and one with more fragments than the header can count is not sent at
  all. `FrameRoundTrip.FrameRoundTripExact` shows a frame comes back exactly outside these
  cases; `FrameRoundTrip.MisfitExample` and `FrameRoundTrip.NeverSent` are instances.
* With symbol payloads below 17 bytes such a frame ends the send loop without closing the
  path, and frames accepted later never have their callbacks run.
  `Callbacks.RoomForEveryFrame` is the exact condition and
  `Callbacks.SmallSymbolsStrandACallback` the failing run.
* A source symbol that arrives after a row it leads leaves that row without a unit pivot,
  and from then on the decoder may report a wrong symbol, at once or many arrivals later
  (`internal/fec/window.go:596-609`, `628-636`). `LateSource.RunExact` is the exact
  condition over runs. `LateSource.LateSourceRun` is a run of three packets that goes wrong
  exactly when a repair's first two multipliers differ, `LateSource.RepairZeroGoesWrong`
  the same with the sender's own repair 0. In-order channels never meet it
  (`CodedPath.InOrderIsAdmissible`).
* An arrival more than a window past the newest makes symbols leave the window without
  being reported lost; `SymbolFates.LossesAreReported` says which and when,
  `SymbolFates.SilentLosses` is an instance.
* An arrival 2^31 identifiers past the origin is taken for older than it and becomes the
  origin itself, so what is missing from its window is never reported lost
  (`internal/fec/window.go:502-506`, `519`). `SymbolFates.OriginMovesForward` is the exact
  condition, `SymbolFates.SilentPastTheTurn` an instance.
* A source symbol that was got before is read again all the same, because the assembler
  reads it before the decoder's test for a known symbol (`internal/coded/coded.go:646-655`,
  `internal/fec/window.go:379`), so its whole frames are handed up twice.
  `HandedAgain.HandsUpAgain` is the exact condition at an arrival,
  `HandedAgain.HandedUpTwiceExactly` over a run, `HandedAgain.RecoveredThenArrives` an
  instance: a repair and then the one symbol it covers.
* A segment that starts below the receive cursor and ends above it is buffered and
  acknowledged, and from then on the flow delivers nothing
  (`internal/multipath/reassembly.go:103`). `StuckFlow.StuckExactly` is the exact
  condition, `StuckFlow.AcknowledgedButStuck` an instance.
* A flow created with a bound unset drops the shared memory budget with the rest of its
  configuration (`internal/multipath/reassembly.go:61-63`), so what it buffers is charged
  to nobody; `StripedFlow.MemoryConserved` and `StripedFlow.UnboundedFlowIsUncharged`.
* Packet numbers of QUIC's spaces overlap (`internal/congestion/bbr_tuic.go:492-494`), and a
  number sent below the sampler's watermark is passed over by the walk that drops obsolete
  states. `PacketStates.StepMissesExactly` is the exact condition,
  `PacketStates.OverlappingNumbersMiss` an instance.

## Model

| member | source | states |
|---|---|---|
| `GaloisField.MulLaws` | internal/fec/gf.go:3-21 | multiplication modulo 0x11d is commutative, associative, distributes over exclusive or, and has one as its unit |
| `GaloisField.FullCycle` | internal/fec/gf.go:22-33 | the powers of the generator return to one after exactly 255 steps |
| `GaloisField.NoShortCycle` | internal/fec/gf.go:22-33 | no smaller positive power of the generator is one |
| `GaloisField.EveryByteIsAPower` | internal/fec/gf.go:22-33 | every non-zero byte is a power of the generator, so the log table has no hole |
| `GaloisField.InverseLaw` | internal/fec/gf.go:42-50 | a non-zero byte times its inverse is one |
| `GaloisTables.FillPowers` | internal/fec/gf.go:22-34 | the exponential table holds the generator's powers over two cycles and the log table inverts it |
| `GaloisTables.FillProducts` | internal/fec/gf.go:35-39 | the product table holds the field product of every pair of bytes |
| `GaloisTables.Tables.constructor` | internal/fec/gf.go:22-40 | the loops leave all three tables right |
| `GaloisTables.Tables.Inv` | internal/fec/gf.go:45-50 | the looked-up inverse is the field's |
| `GaloisTables.Tables.MulSliceXor` | internal/fec/gf.go:55-70 | the in-place slice becomes itself plus the coefficient times the input, with the shortcuts for zero and one |
| `LinearSystem.EliminateHolds` | internal/fec/window.go:560-586 | adding a multiple of one true equation to another keeps it equivalent |
| `LinearSystem.ResolveHolds` | internal/fec/window.go:628-636 | moving a known symbol to the constant side keeps an equation equivalent for streams with that symbol |
| `Coefficients.WindowCoefficient` | internal/fec/window.go:107-117 | the mixer never yields a zero coefficient |
| `Coefficients.WindowCoefficients` | internal/fec/window.go:129-138 | a repair's row lists the mixer's coefficients in order |
| `Coefficients.FirstRow` | internal/fec/window.go:107-117 | repair 0 multiplies its first two symbols by 1 and 40 |
| `WindowEncoder.RoundUpPowerOfTwo` | internal/fec/window.go:715-721 | the ring size is the least power of two that is large enough |
| `WindowEncoder.Encoder.constructor` | internal/fec/window.go:154-158 | a new encoder holds nothing |
| `WindowEncoder.Encoder.SetCapacity` | internal/fec/window.go:166-189 | resizing keeps exactly the newest symbols that fit, under their identifiers |
| `WindowEncoder.Encoder.Add` | internal/fec/window.go:205-215 | symbols are numbered consecutively modulo 2^32 and the oldest falls out when full |
| `WindowEncoder.Encoder.RepairBounds` | internal/fec/window.go:261-278 | the span is the newest symbols, at most what is held, and the length is that of the longest |
| `WindowEncoder.Encoder.Repair` | internal/fec/window.go:247-259 | the repair is a genuine combination of the symbols sent, at least as long as each of them |
| `WindowEncoder.GenuineForEver` | internal/fec/window.go:247-259 | it stays one however many symbols follow and whatever the capacity becomes |
| `DecoderInvariant.HarvestReduces` | internal/fec/window.go:591-613 | harvesting ends with every row having a second unknown, in reduced form |
| `DecoderInvariant.InsertReduces` | internal/fec/window.go:539-586 | inserting an equation keeps the system reduced: unit pivots that no other row touches |
| `DecoderInvariant.EvictReduced` | internal/fec/window.go:511-535 | evicting keeps it reduced |
| `DecoderInvariant.EvictDropsAtMostOne` | internal/fec/window.go:511-535 | evicting an identifier drops at most one row |
| `DecoderInvariant.AdmitGood` | internal/fec/window.go:464-498 | sliding to admit an identifier keeps it reduced and brings the identifier into the window |
| `DecoderSemantics.InsertConsistent` | internal/fec/window.go:539-586 | the values consistent after an insertion are those consistent before that satisfy the new equation, and what is recovered is right |
| `DecoderSemantics.SubstituteConsistent` | internal/fec/window.go:617-637 | learning a symbol restricts the consistent values to those with that symbol |
| `DecoderSemantics.EvictConsistent` | internal/fec/window.go:511-535 | after evicting, the consistent values are exactly those that extend to the evicted symbol: sliding loses no usable information |
| `DecoderSemantics.Undetermined` | internal/fec/window.go:591-613 | every unknown symbol of the window has a second value consistent with all rows held |
| `DecoderRuns.RunFaithful` | internal/fec/window.go:373-445 | through any interleaving of sources, repairs, losses and slides the state says exactly what the packets taken say |
| `DecoderRuns.DecoderSoundness` | internal/fec/window.go:373-637 | every recovered vector is the sender's followed only by zeros, and every row held is true of the stream |
| `DecoderRuns.DecoderCompleteness` | internal/fec/window.go:539-613 | a symbol left unknown really is undetermined by the packets taken |
| `LateSource.HarvestExact` | internal/fec/window.go:591-613 | harvesting any true system, reduced or not, reports right symbols exactly when every row that comes down to one unknown has coefficient one there or an all-zero symbol |
| `LateSource.RunExact` | internal/fec/window.go:373-637 | in any order of arrivals everything ever reported is right exactly when that held at every arrival, and while it does all rows are true of the stream |
| `LateSource.HarmAtOnce` | internal/fec/window.go:596-636 | with two unknowns in the row a late source misreads the other at once, exactly under that condition |
| `LateSource.DelayedHarm` | internal/fec/window.go:596-636 | with three unknowns the late source is taken in rightly and the next ordinary arrival misreads the last, exactly under that condition |
| `LateSource.LateSourceRun` | internal/fec/window.go:373-445 | from a fresh decoder a repair over three symbols, then the first, then the third: nothing is reported before the last, which reports the second rightly exactly when the repair's first two multipliers are equal or it is all zeros |
| `LateSource.LateSourceGoesWrong` | internal/fec/window.go:596-609 | the same with the sender's own repair over three one-byte symbols, wrong under every identity whose first two multipliers differ |
| `LateSource.RepairZeroGoesWrong` | internal/fec/window.go:596-609 | repair 0, source 0, source 2: a wrong symbol is reported |
| `SymbolFates.EverySymbolHasOneFate` | internal/fec/window.go:373-535 | even with reordering, each identifier from the origin on that left the window was exactly once accepted, recovered or lost |
| `SymbolFates.LossesAreReported` | internal/fec/window.go:464-535 | the losses reported are the unknown symbols of the old window; those between the two windows leave unreported, and there are some exactly when the arrival is more than a window width past the newest |
| `SymbolFates.SilentLosses` | internal/fec/window.go:464-498 | symbol 0 then symbol 2000: symbols 1 to 1488 are lost and none is reported |
| `SymbolFates.RunLossesAreReported` | internal/fec/window.go:464-535 | over a run every loss was reported exactly when no arrival jumped past a whole window |
| `SymbolFates.OriginMovesForward` | internal/fec/window.go:502-506 | a source moves the origin exactly when it is older than it or 2^31 or more past it; then it is newest and origin at once and nothing missing from its window is reported |
| `SymbolFates.SilentPastTheTurn` | internal/fec/window.go:464-523 | symbols 0, 2^31 - 512, 2^31: the 511 before the last are unknown, and symbol 2^31 + 511 walks them out without a report |
| `WindowDecoder.Decoder.constructor` | internal/fec/window.go:329-333 | a new decoder is empty |
| `WindowDecoder.Decoder.LeadingOf` | internal/fec/window.go:641-654 | the scan finds the oldest symbol mentioned and how many are |
| `WindowDecoder.Decoder.SubstituteSymbol` | internal/fec/window.go:617-637 | the in-place substitution is the model's |
| `WindowDecoder.Decoder.HarvestRows` | internal/fec/window.go:591-613 | the fixpoint loop over shifting indices is the model's harvest |
| `WindowDecoder.Decoder.InsertRow` | internal/fec/window.go:539-586 | the elimination loops are the model's insertion |
| `WindowDecoder.Decoder.EvictOldest` | internal/fec/window.go:511-535 | one eviction and what it reports |
| `WindowDecoder.Decoder.AdmitSymbol` | internal/fec/window.go:464-498 | admission, its bounded walk and its reports |
| `WindowDecoder.Decoder.WitnessSymbol` | internal/fec/window.go:502-506 | the origin only moves back over symbols still in the window |
| `WindowDecoder.Decoder.TakeSource` | internal/fec/window.go:373-390 | a source arrival does what the model says, so the run theorems hold of the class |
| `WindowDecoder.Decoder.TakeRepairSymbol` | internal/fec/window.go:405-445 | likewise a repair |
| `WindowDecoder.LayOut` | internal/fec/window.go:405-445 | the coefficients land in the slots of the symbols they apply to |
| `Frames.SymbolRoundTrip` | internal/coded/coded.go:466-472 | a symbol parses back to its payload and place even when padded with zeros |
| `Frames.ParseFramesInto` | internal/coded/coded.go:791-811 | the loop appends exactly the length-prefixed frames of the payload |
| `Frames.PackRoundTrip` | internal/coded/coded.go:417-420 | packed frames come out whole, in order, with nothing else |
| `Frames.AllFragmentsJoin` | internal/coded/coded.go:427-440 | the fragments of a frame join to the frame |
| `FrameRoundTrip.SendAlone` | internal/coded/coded.go:400-456 | appending and flushing one frame emits the encodings of its symbols |
| `FrameRoundTrip.FrameRoundTripExact` | internal/coded/coded.go:400-440 | a frame encoded, read and reassembled comes back exactly when its length is not in limit-3..limit and its fragments can be counted |
| `FrameRoundTrip.MisfitExample` | internal/coded/coded.go:730-732 | five zero bytes at limit eight come back as an empty frame |
| `FrameRoundTrip.NeverSent` | internal/coded/coded.go:428-431 | with symbols of at most sixteen bytes a frame of one mebibyte is never sent |
| `Packing.Packer.FlushPacked` | internal/coded/coded.go:445-456 | the packed frames become one symbol, in order |
| `Packing.Packer.SendFragments` | internal/coded/coded.go:427-440 | a frame becomes all its fragments in consecutive symbols, or nothing when there would be too many |
| `Packing.Packer.AppendFrame` | internal/coded/coded.go:400-422 | every frame ends up in exactly one place, in order, and a lone fragment arises exactly from a misfit |
| `Assembly.ArrivedHeld` | internal/coded/coded.go:713-757 | an arriving symbol hands up exactly the frames it completes |
| `Assembly.LostHeld` | internal/coded/coded.go:760-768 | a lost symbol takes with it only groups that can never be completed |
| `Assembly.PruneOnlyBehind` | internal/coded/coded.go:783-789 | pruning drops only groups wholly behind the decoder's window |
| `FrameAssembler.Assembler.SymbolArrived` | internal/coded/coded.go:724-757 | the in-place arrival is the model's |
| `FrameAssembler.Assembler.SymbolLost` | internal/coded/coded.go:760-768 | likewise a loss |
| `FrameAssembler.Assembler.PruneGroups` | internal/coded/coded.go:783-789 | likewise pruning |
| `FrameAssembler.Assembler.NoteSymbol` | internal/coded/coded.go:713-722 | likewise the newest identifier |
| `Completion.CompleteGrows` | internal/coded/coded.go:724-757 | a new symbol adds to the completed frames exactly what its arrival hands up |
| `Completion.EverythingComplete` | internal/coded/coded.go:400-440 | with every symbol got, the completed frames are all frames sent |
| `CodedPath.DropOnlyIsInOrder` | internal/coded/coded.go:466-563 | dropping any of what the sender emits leaves an in-order arrival |
| `CodedPath.InOrderIsAdmissible` | internal/coded/coded.go:626-680 | an in-order drop-only channel meets the hypotheses of the decoder's soundness, completeness and fate theorems |
| `CodedPath.FramesSurviveErasure` | internal/coded/coded.go:626-826 | over any in-order drop-only channel the frames handed up are, once each and byte for byte, exactly those whose every symbol arrived or was recovered |
| `CodedPath.PruneDropsNothingRecoverable` | internal/coded/coded.go:713-789 | whichever symbol of a datagram makes the assembler prune, its source, one recovered or one lost, every group dropped lies wholly behind the window as the datagram leaves it |
| `CodedSender.SendSide.constructor` | internal/coded/coded.go:474-477 | an encoder with nothing sent |
| `CodedSender.SendSide.Emit` | internal/coded/coded.go:466-496 | the window is resized, the symbol added and sent, and the repairs asked for follow |
| `CodedSender.SendSide.EmitRepair` | internal/coded/coded.go:545-563 | a repair over the newest symbols asked for, or none when nothing is held |
| `CodedSender.SenderIsSentBy` | internal/coded/coded.go:400-563 | whatever the coding policy asks, a run puts out source symbols in order and genuine repairs over symbols already sent |
| `CodedSender.SentFramesSurviveErasure` | internal/coded/coded.go:400-826 | from frames to frames, over any run of the sender, any policy and any drops: the frames handed up are once each exactly those whose every symbol arrived or was recovered |
| `Rereading.ReadDeals` | internal/coded/coded.go:724-757 | in any state of the assembler a reading hands up the whole frames of its symbol, or its frame if every other fragment is held, and keeps every part held the right one |
| `Rereading.ReopensGroup` | internal/coded/coded.go:733-748 | a fragment of a completed or dropped group opens it again with itself alone and hands nothing up |
| `Rereading.HandedUpAsOftenAsRead` | internal/coded/coded.go:626-757 | for every stream, in any order with any repeats, what is handed up are frames of the stream: whole ones once for every time their symbol is read, a fragmented one at most as often as each of its fragments is |
| `Rereading.ReadCount` | internal/coded/coded.go:641-680 | a symbol is read once for each datagram that carries it and once for each recovery |
| `HandedAgain.IssuedIsPlaced` | internal/coded/coded.go:626-680 | datagrams of one stream meet the hypotheses of the fate theorems in whatever order they come |
| `HandedAgain.AgainExactly` | internal/fec/window.go:373-381 | a symbol has been read exactly when the decoder knows it, or it is behind the window and left it got or came late already |
| `HandedAgain.HandsUpAgain` | internal/coded/coded.go:641-655 | a source datagram hands up its symbol's whole frames, and they were handed up before exactly when that test says so |
| `HandedAgain.HandedUpTwiceExactly` | internal/coded/coded.go:641-680 | a frame only one symbol carries is handed up more often than it was sent exactly when some source datagram comes for a symbol got before |
| `HandedAgain.RecoveredThenArrives` | internal/coded/coded.go:641-680 | one frame in one symbol, the repair over it and then the symbol: the frame is handed up twice |
| `Callbacks.PendingQueue.Push` | internal/coded/coded.go:357-361 | the ring appends |
| `Callbacks.PendingQueue.Pop` | internal/coded/coded.go:363-369 | the ring removes the oldest |
| `Callbacks.StepSound` | internal/coded/coded.go:264-456 | every single step of any participant leaves each accepted callback run once or owed by exactly one place, and in order |
| `Callbacks.CallbacksRunOnce` | internal/coded/coded.go:313-456 | in every interleaving with payloads of at least 17 bytes a callback runs at most once, in the trace only after its own frame's last source symbol was handed over unless the path had failed or closed, and has run once the loop has stopped |
| `Callbacks.EveryCallbackRuns` | internal/coded/coded.go:313-456 | the loop makes a bounded number of steps for the frames it is given; when it can make none every accepted callback has run, and after a close it has stopped |
| `Callbacks.ComesToRest` | internal/coded/coded.go:313-456 | from every reachable state the loop by itself reaches one where it has stopped or waits with nothing owed |
| `Callbacks.NothingAcceptedAfterClose` | internal/coded/coded.go:1047-1057 | no frame is accepted after close |
| `Callbacks.RoomForEveryFrame` | internal/coded/coded.go:427-442 | every permitted frame fits the fragment count exactly when the payload is at least 17 bytes |
| `Callbacks.SmallSymbolsStrandACallback` | internal/coded/coded.go:313-331 | for each smaller payload, a run after which an accepted frame's callback never runs |
| `Numbering.Numberer.Take` | internal/coded/coded.go:565-569 | numbers are consecutive modulo 2^32 |
| `Numbering.Numberer.Untake` | internal/coded/coded.go:571-581 | the number handed out last comes back |
| `Numbering.Numberer.Put` | internal/coded/coded.go:584-603 | a refused datagram leaves the next number as it was |
| `Numbering.WireNumbers` | internal/coded/coded.go:535-603 | the k'th accepted datagram carries the k'th number however many are refused |
| `Numbering.RefusalsAreNotLoss` | internal/coded/coded.go:571-603 | over an in-order wire the peer records a loss exactly for each accepted datagram the wire dropped in the decided range |
| `Numbering.ShortGapsNeverRestart` | internal/lossmodel/lossmodel.go:170-172 | without a restart gap that record covers everything since the first arrival |
| `Reassembly.WithStart` | internal/multipath/reassembly.go:256-261 | the order list gains exactly the new start |
| `Reassembly.InsertValid` | internal/multipath/reassembly.go:89-141 | every insertion keeps the buffer disjoint, the order list and the byte count right |
| `OrderedDelivery.DeliveredInOrder` | internal/multipath/reassembly.go:89-209 | in every insertion order with repeats and refusals the output is the stream's first next bytes, and all of it, closed, once every piece was accepted |
| `FlowReceiver.Reassembler.constructor` | internal/multipath/reassembly.go:60-65 | an unset bound selects both defaults and drops the shared memory |
| `FlowReceiver.Reassembler.Search` | internal/multipath/reassembly.go:232-233 | the halving search finds the insertion point |
| `FlowReceiver.Reassembler.CheckNeighbours` | internal/multipath/reassembly.go:232-253 | looking at two neighbours decides overlap with any buffered segment |
| `FlowReceiver.Reassembler.InsertOrder` | internal/multipath/reassembly.go:256-261 | the list stays sorted with the start added |
| `FlowReceiver.Reassembler.RemoveOrder` | internal/multipath/reassembly.go:263-268 | the start is removed and nothing else |
| `FlowReceiver.Reassembler.ConsumeContiguous` | internal/multipath/reassembly.go:146-209 | the drain delivers the contiguous chain and releases exactly its buffered bytes |
| `FlowReceiver.Reassembler.Insert` | internal/multipath/reassembly.go:89-141 | every outcome, error and memory charge of an insertion; a refused one changes nothing |
| `FlowReceiver.Reassembler.Keep` | internal/multipath/reassembly.go:120-138 | an out-of-order segment is charged and buffered, or refused with nothing changed |
| `FlowReceiver.Reassembler.Close` | internal/multipath/reassembly.go:213-222 | closing returns everything the flow had charged |
| `FlowReceiver.Reassembler.ReceivedRanges` | internal/multipath/reassembly.go:283-306 | the report is the merged buffered ranges, cut short |
| `StripedFlow.InsertKeepsBytes` | internal/multipath/reassembly.go:89-209 | the receiver never loses a byte it has and has every byte of a segment it accepts |
| `StripedFlow.RangesOfExact` | internal/multipath/reassembly.go:283-306 | the ranges are sorted, gap-separated and hold exactly the buffered bytes |
| `StripedFlow.NextSafe` | internal/pep/acktrack.go:43-72 | every arrival, report, close and delivery of part of a report keeps sender and receiver consistent |
| `StripedFlow.AcknowledgementsAreTrue` | internal/pep/acktrack.go:137-165 | however reports are delayed, reordered, repeated or cut, of a covered range the receiver has every byte, or had it buffered when it was closed |
| `StripedFlow.AcknowledgementsAreTrueFromTheStart` | internal/pep/acktrack.go:137-165 | the same from a fresh flow and a fresh record, and while the flow is open it has every byte |
| `StripedFlow.CoveredAfterClose` | internal/multipath/reassembly.go:213-222 | of a covered range a close keeps exactly the bytes below the cursor |
| `StuckFlow.JammedForGood` | internal/multipath/reassembly.go:103-141 | once a buffered segment straddles the cursor nothing ever moves it |
| `StuckFlow.StuckExactly` | internal/multipath/reassembly.go:89-209 | an acknowledged byte not yet out can never come out exactly when a buffered segment straddles the cursor |
| `StuckFlow.JamsExactly` | internal/multipath/reassembly.go:103-138 | of the segments accepted exactly one that straddles the cursor brings that about |
| `StuckFlow.AcknowledgedButStuck` | internal/multipath/reassembly.go:103-138 | a concrete flow with an acknowledged byte that is never delivered |
| `StripedFlow.UsingConserves` | internal/multipath/reassembly.go:120-138 | each use of the shared budget keeps used bytes equal to what the flows that share it buffer |
| `StripedFlow.MemoryConserved` | internal/multipath/reassembly.go:182-222 | over every run that holds, within capacity, with no release of bytes not held; with both bounds set for every flow it is what all flows buffer |
| `StripedFlow.UnboundedFlowIsUncharged` | internal/multipath/reassembly.go:60-65 | as soon as one fresh flow leaves a bound unset, a byte is buffered and charged to nobody |
| `MemoryBudget.Budget.TryAcquire` | internal/memlimit/budget.go:93-108 | bytes are reserved exactly when they fit |
| `MemoryBudget.Budget.Release` | internal/memlimit/budget.go:113-128 | releasing opens a new generation, and releasing too much is refused |
| `MemoryBudget.NextSound` | internal/memlimit/budget.go:50-128 | no step leaves a sleeper on the open generation that would fit |
| `MemoryBudget.NoLostWakeUp` | internal/memlimit/budget.go:50-90 | in every run a sleeper that would fit has been woken and is admitted |
| `AckTracker.MergeKeeps` | internal/pep/acktrack.go:76-98 | merging keeps the bytes and leaves ranges sorted and gap-separated |
| `AckTracker.CompactKeeps` | internal/pep/acktrack.go:102-134 | folding ranges into the cumulative point keeps the bytes and ends in canonical form |
| `AckTracker.AdvanceAdds` | internal/pep/acktrack.go:43-53 | advancing adds exactly the bytes below the point |
| `AckTracker.AddRangesAdds` | internal/pep/acktrack.go:56-72 | adding ranges adds exactly their bytes |
| `AckTracker.CanonicalUnique` | internal/pep/acktrack.go:20-33 | a byte set has one canonical form |
| `AckTracker.CoveredExact` | internal/pep/acktrack.go:137-165 | covered holds exactly when every byte of the range is in the set |
| `AckTracker.Tracker.AdvanceTo` | internal/pep/acktrack.go:43-53 | the in-place advance |
| `AckTracker.Tracker.Add` | internal/pep/acktrack.go:56-72 | the in-place addition |
| `AckTracker.Tracker.IsCovered` | internal/pep/acktrack.go:143-165 | the scan answers the set question |
| `AckTracker.Tracker.Snapshot` | internal/pep/acktrack.go:252-262 | a snapshot is the record |
| `AckTracker.Covers` | internal/pep/acktrack.go:280-299 | a snapshot answers the same question |
| `AckTracker.Highest` | internal/pep/acktrack.go:269-277 | the end of the last range or the cumulative point |
| `LossModel.WithDefaults` | internal/lossmodel/lossmodel.go:69-83 | the tolerance always fits the ring |
| `LossRecord.ObserveMatches` | internal/lossmodel/lossmodel.go:133-180 | one observation on the ring refines one step of the reference reading |
| `LossRecord.LossRecordExact` | internal/lossmodel/lossmodel.go:133-248 | since the last restart the record holds the identifiers from the base to next in order, arrived exactly if they came before being decided, decided exactly when a tolerance behind |
| `LossRates.Analyze` | internal/lossmodel/lossmodel.go:440-489 | the loop's counts and the three rates of a finished run |
| `LossRates.ClampNeverBinds` | internal/lossmodel/lossmodel.go:317-353 | in every run each reported rate is the exact quotient of its counters, within zero and one |
| `LossRates.OnlineEqualsOffline` | internal/lossmodel/lossmodel.go:339-353 | up to one round and without a restart the reported rates equal the offline ones |
| `LossEstimator.Estimator.constructor` | internal/lossmodel/lossmodel.go:126-129 | a new estimator has seen nothing |
| `LossEstimator.Estimator.Observe` | internal/lossmodel/lossmodel.go:133-180 | the in-place observation with its two retiring loops |
| `LossEstimator.Estimator.Decide` | internal/lossmodel/lossmodel.go:210-216 | one identifier is retired |
| `LossEstimator.Estimator.Record` | internal/lossmodel/lossmodel.go:218-248 | one outcome is counted |
| `LossEstimator.Estimator.CloseRound` | internal/lossmodel/lossmodel.go:250-266 | a round is kept and all counters decay |
| `LossEstimator.Estimator.RestartAt` | internal/lossmodel/lossmodel.go:202-207 | nothing is carried across a discontinuity |
| `LossEstimator.Estimator.Snapshot` | internal/lossmodel/lossmodel.go:339-353 | the three rates reported |
| `MaxFilter.TuicMinMax.SetRoundTrip` | internal/congestion/bbr_tuic_minmax.go:92-109 | the time window is ten round trips, within one and ten seconds |
| `MaxFilter.TuicMinMax.UpdateMax` | internal/congestion/bbr_tuic_minmax.go:135-158 | the in-place update |
| `MaxFilter.TuicMinMax.SubWindowUpdate` | internal/congestion/bbr_tuic_minmax.go:160-182 | the in-place promotion |
| `MaxFilter.EstimateIsWindowedMaximum` | internal/congestion/bbr_tuic_minmax.go:128-182 | the estimate was observed within ten rounds and the time window and is the largest since; samples are sorted down by value and up by round |
| `PacketStates.Sampler.OnSentPacket` | internal/congestion/bbr_tuic_bw.go:131-164 | a tracked packet enters the table and sets an unknown watermark |
| `PacketStates.Sampler.PruneStates` | internal/congestion/bbr_tuic_bw.go:448-465 | a full table loses exactly its lowest quarter |
| `PacketStates.Sampler.RemoveObsoleteStates` | internal/congestion/bbr_tuic_bw.go:201-219 | walk or scan, as the code chooses |
| `PacketStates.Sampler.OnCongestionEvent` | internal/congestion/bbr_tuic_bw.go:251-404 | acknowledged states go, then obsolete ones |
| `PacketStates.ObsoletePacketNumber` | internal/congestion/bbr_tuic.go:648-676 | two below the largest acknowledged, or one past the largest lost |
| `PacketStates.RemoveObsoleteExact` | internal/congestion/bbr_tuic_bw.go:201-219 | either way exactly the states at or above the argument remain |
| `PacketStates.WalkMissesExactly` | internal/congestion/bbr_tuic_bw.go:201-219 | on any table at all removal equals the plain filter exactly when it scans or no key lies below the watermark |
| `PacketStates.StepMissesExactly` | internal/congestion/bbr_tuic_bw.go:201-404 | the same for a whole congestion event, whatever numbers were sent |
| `PacketStates.OverlappingNumbersMiss` | internal/congestion/bbr_tuic_bw.go:201-219 | number 1 sent after 5 outlives the acknowledgement of 7 |
| `PacketStates.FastEqualsPlain` | internal/congestion/bbr_tuic_bw.go:131-219 | through every run the fast table equals the plainly filtered one and the watermark stays at or below every key |
| `PacketStates.FastEqualsPlainFromTheStart` | internal/congestion/bbr_tuic_bw.go:131-219 | the same from an empty table |
| `Bbr.NewSane` | internal/congestion/bbr_tuic.go:136-179 | a new sender is in startup with its window within the limits |
| `Bbr.TargetBounded` | internal/congestion/bbr_tuic.go:819-840 | the target window is within the limits whatever the sampler says |
| `Bbr.SeedSane` | internal/congestion/bbr_tuic.go:271-298 | a seed only raises the window and never past the maximum |
| `Bbr.RecoveryStep` | internal/congestion/bbr_tuic.go:678-703 | recovery changes only once full bandwidth is known |
| `Bbr.ModeStep` | internal/congestion/bbr_tuic.go:721-817 | leaving startup, draining and probing re-establish the phases |
| `Bbr.EventSane` | internal/congestion/bbr_tuic.go:425-557 | an acknowledgement and loss event keeps windows and phases |
| `Bbr.ResizeSane` | internal/congestion/bbr_tuic.go:929-968 | so does a datagram-size change |
| `Bbr.BbrInvariant` | internal/congestion/bbr_tuic.go:425-985 | over every sequence of events the window and the one offered stay within limits, recovery, drain and bandwidth probing imply full bandwidth, and startup is never re-entered after it |
| `BbrSender.Sender.GetCongestionWindow` | internal/congestion/bbr_tuic.go:973-985 | the window offered is within the limits |
| `BbrSender.Sender.OnCongestionEvent` | internal/congestion/bbr_tuic.go:425-557 | the handlers in their order make the event, and keep windows and phases |
| `BbrSender.Sender.OnPacketSent` | internal/congestion/bbr_tuic.go:380-397 | a send keeps windows and phases |
| `BbrSender.Sender.SeedRate` | internal/congestion/bbr_tuic.go:271-298 | a seed only raises the window, within its maximum, and leaves the mode alone |
| `BbrSender.Sender.UpdateRecoveryState` | internal/congestion/bbr_tuic.go:678-703 | recovery changes only once full bandwidth is known |
| `BbrSender.Sender.MaybeExitStartupDrain` | internal/congestion/bbr_tuic.go:721-734 | leaving startup and drain restores the phases after full bandwidth was found |
| `BbrSender.Sender.ProbeRoundTrip` | internal/congestion/bbr_tuic.go:781-817 | entering and leaving the round-trip probe keeps the phases |
| `BbrSender.Sender.UpdatePacing` | internal/congestion/bbr_tuic.go:846-875 | the pacing rate is capped on every path |
| `BbrSender.Sender.UpdateCwnd` | internal/congestion/bbr_tuic.go:877-893 | the window stays within its limits |
| `BbrSender.Sender.UpdateRecoveryWindow` | internal/congestion/bbr_tuic.go:895-919 | a recovery window in force is at least the minimum |
| `BbrSender.Sender.SetMaxDatagramSize` | internal/congestion/bbr_tuic.go:929-958 | a size change moves the limits and keeps the windows within them |
| `WireCap.PacingDuration` | internal/congestion/wirecap.go:38-44 | the time is the exact quotient rounded up |
| `WireCap.WireScheduler.constructor` | internal/congestion/wirecap.go:30-36 | bulk traffic has the total less the reserve |
| `WireCap.WireScheduler.ChargePacket` | internal/congestion/wirecap.go:86-98 | the overshoot reported and both buckets after a packet |
| `WireCap.WireScheduler.SetMaxDatagramSize` | internal/congestion/wirecap.go:100-109 | the largest datagram only grows |
| `WireCap.WireCapHolds` | internal/congestion/wirecap.go:38-98 | in any span a class's bytes are at most its rate times the span plus ten datagrams plus rounding plus the trailing overshooting packets |
| `WireCap.NoOvershootBound` | internal/congestion/wirecap.go:38-98 | with no overshoot reported that is the plain bound, for all traffic and for bulk at total less reserve |
| `WireCap.LeaveIsHonoured` | internal/congestion/wirecap.go:46-73 | a packet sent when leave was given is never reported, and leave is given at the time named |

## Left out

- CodedPath.FramesSurviveErasure: streams of at most 2^31 - 512 symbols; beyond them the origin moves as `SymbolFates.OriginMovesForward` says.
- SymbolFates.EverySymbolHasOneFate: arrivals within 2^31 of the window and of the origin; the first one further from the origin is `SymbolFates.OriginMovesForward`, the account after it is not kept.
- Callbacks.StepSound: repairs are one step with the symbol they follow, and a symbol refused as too large counts as handed over.
- CodedSender.SentFramesSurviveErasure: the plan of capacities and repairs is any function of the symbol's number; limits are between 5 and 65535.
- Rereading.HandedUpAsOftenAsRead: runs in which everything the decoder reports is right, which is exactly what `LateSource.RunExact` decides; a wrongly recovered symbol is read as it is.
- PacketStates.FastEqualsPlain: packet numbers increase; `PacketStates.StepMissesExactly` says what a step does when they do not.
- BbrSender.Sender.OnCongestionEvent: sampler updates, the application-limited mark and the restart from idle are inputs of the event.
- BbrSender.Sender.SeedRate: does not update the bandwidth filter, which is an input here.
- BbrSender.Sender.OnPacketSent: whether the sender restarts from idle, and from what, is an input.
- PacketStates.Sampler.OnSentPacket: the cumulative totals stored with a packet are a parameter.
- LossRates.Analyze: run lengths of losses, mean burst and burst factor.
- LossEstimator.Estimator.Snapshot: mean burst, burst factor, the independence test and the loss floor.
- PacketStates.Sampler.OnCongestionEvent: delivery-rate samples and the cumulative totals behind them; what is stored with a packet is a parameter.
- Bbr.BbrInvariant: the sampler's estimate, acknowledgement height and round-trip samples, the random phase and the clock are inputs of each event; the maximum window in packets is any number of at least four.
- WireCap.PacingDuration: the product of bytes and a second does not wrap, which needs packets below 18 gigabytes.
- FlowReceiver.Reassembler.ConsumeContiguous: the first pass that only sizes the output buffer.
- Datagram headers other than the symbol header, and the malformed-datagram counters.
- How many repairs are sent: any number over any symbols already sent.
- Decoder, estimator, reassembler and controller statistics and telemetry.
- Floating-point rounding: rates, gains and decaying counters are reals.
- Buffer ownership and slice aliasing: payloads are sequences of bytes.
- Blocking waits in the acknowledgement tracker and its close.
- Rate and window policy (`internal/fec/rate.go`, `internal/congestion/erasure.go`, `brutal.go`, `adaptive.go`, `bbr.go`), the pacer, path model, classifier, identity, network emulation and commands: policy, plumbing or easier versions of what is here.
