# Verified models of the sing-quic data path

These Dafny modules model the parts of sing-quic that carry, repair, reorder and pace data, and
prove what those parts are for: that the sliding-window erasure code recovers only what was sent and
everything that can be recovered, that reassembly delivers one stream, that framing gives back the
frames it was given, and that the estimators and queues around them say what they claim to.

## What is modelled

**The erasure code** (`queqiao/internal/fec`). `Bits8` and `Gf256` build GF(256) from the tables the
package fills at start-up and prove them a field, equal to polynomial arithmetic. `Vectors`, `Ids`,
`Coefficients` and `Mixing` are the byte vectors, the wrapping identifiers, the regenerated coefficient
rows and the hash they come from. `LinearSystem`, `Echelon`, `Knowledge` and `Determinacy` are the
decoder's algebra: what the held rows mean, their reduced echelon form, that they are exactly the
consequences of what was accepted, and that a symbol is known exactly when it is determined. `DecoderSteps`, `LateArrival`,
`Truth` and `Decoder` are the in-place decoder, `Encoder` the ring of the sender, `Link` joins them,
and `Reports` adds up what several calls report.

Soundness and completeness are proved for every call in which no source symbol arrives for a symbol
that a held row has as its pivot, and in `SoundRuns` for every run in which no symbol first arrives
after a repair that covers it, which never makes such a call. A channel that erases but does not
reorder is one of these: `Conversation` proves for whole conversations over it that the symbols known
are exactly those that could be known from what arrived, and `TwoRepairs` when two repairs make up for
two missing symbols. A late arrival outside that condition can make the decoder report a symbol never sent, because rows are
scaled to a unit pivot only when they are inserted, so that a row whose pivot becomes known keeps a
coefficient that harvesting does not divide by. From a reduced state
`Decoder.WindowDecoder.Source` states exactly which late arrivals do so and
`Link.ReorderedArrivalFails` is a concrete case. A late arrival that does no harm still leaves the
state unreduced, and a second one can then fail that `Corrupts` does not name
(`Reordering.LateTwiceFails`). What such a state keeps is in `Truth`: every equation held is true of
the stream, a row is taken rightly exactly when its coefficient is one or nothing remains in it, and a
source symbol reports only originals exactly when every row its harvest takes is taken rightly.

What becomes of every position holds for any arrivals in any order and is proved over runs in
`DecoderRuns`.

**Reassembly** (`queqiao/internal/multipath`, `queqiao/internal/memlimit`,
`queqiao/internal/pep`). `Segments`, `Reassembly` and `StreamRuns` are the reassembler over its
buffer, order and shared budget; `Memlimit` is the budget with its waiters, generations and ledger;
`InboundQueue` is the hand-off of events to the application. In the last two each method is one
stretch of code run under the lock, so that a sequence of calls is one interleaving.

**Coded framing** (`queqiao/internal/coded`). `Framing` is the wire format, `Packing` the sender,
`Assembly` the receiver, `Carriage`, `CarriageRuns` and `CarriageSafety` what they do together, and
`CodedPath` the same through the erasure code. A frame of a length
from limit-3 to limit is too long to be packed behind its header and needs only one fragment; the
receiver takes a count of one for packed frames, so that such a frame never arrives.
`Packing.YieldExact` proves that these are the only lengths for which this happens.

**Estimators and queues** (`congestion_queqiao`, `congestion_meta2`). `Gaps`, `Markov`, `LossRounds`,
`LossModel` and `LossAnalysis` are the online and the offline loss estimator; `WindowedMax` the
three-sample maximum; `RingBuffer` and `PacketQueue` the packet-number queue over its ring;
`PacketStates` the table of packets in flight with its watermark; `Pacing` the token bucket;
`BandwidthSearch` when the search for bandwidth ends; `Bbr` the mode, recovery and window state machine, after section 4.3 of
draft-cardwell-iccrg-bbr-congestion-control-00.

In the loss estimator the first number of a numbering is recorded as arrived even when it came more
than the tolerance late, because the numbering starts at it (`LossModel.FirstNeedNotBeTimely`); every
other number is recorded as arrived exactly when it was timely. All of them are, if and only if no
arrival starts a numbering earlier from the tolerance or more behind, and less than the 1024 numbers
past which it would be ignored (`LossModel.Estimator.Observe`, `LossModel.Estimator.RecordedTimely`).
In the search for bandwidth the target is rounded down, so that a bandwidth below four bytes a second
counts as growth over itself (`BandwidthSearch.SteadyEnds`). In the windowed maximum the
wall-clock bound holds when every sample carries a time; `WindowedMax.OutlivedExactly` states when it
fails otherwise and `WindowedMax.MixedTimesOutlive` is such a case, which only the filter's interface
allows: the connection's callbacks always give the bandwidth filter a time, and the aggregate helpers
and the acknowledgement filter never do.

Numbers are unbounded except where their width matters: identifiers are 32-bit and wrap, bytes are
0 to 255, sixteen- and thirty-two-bit fields are cut to their width, reassembly sequences are bounded
by 2^64-1, congestion byte counts saturate. Floating point is modelled by reals.

Ghost fields record what a contract has to speak of and the program does not keep: what was sent,
accepted, delivered, decided. They take no part in any result.

## Model

| member | source | states |
|---|---|---|
| Gf256.ExpOrder | queqiao/internal/fec/gf.go:24-31 | the powers of the generator return to one first at the 255th, so the power table lists 255 different elements |
| Gf256.LogExists | queqiao/internal/fec/gf.go:24-31 | every non-zero byte is one of the 255 powers: the log table has no gap |
| Gf256.TablesMultiplyPolynomials | queqiao/internal/fec/gf.go:22-40 | multiplication through the log and power tables is multiplication of polynomials modulo 0x11d, for every pair of bytes |
| Gf256.BuildTables | queqiao/internal/fec/gf.go:22-40 | the start-up loops leave tables that hold the powers, the logarithms and every product |
| Gf256.MulAssociates | queqiao/internal/fec/gf.go:33-40 | table multiplication is associative |
| Gf256.MulDistributes | queqiao/internal/fec/gf.go:33-40 | table multiplication distributes over the exclusive or that adds symbols |
| Gf256.MulInverse | queqiao/internal/fec/gf.go:45-50 | the inverse read from the tables times its argument is one, for every non-zero byte |
| Vectors.MulSliceXor | queqiao/internal/fec/gf.go:55-70 | adds a multiple of one vector to another in place, byte by byte, and touches nothing past the shorter of them |
| Vectors.AtCombine | queqiao/internal/fec/window.go:641-660 | growing a vector and adding a multiple of a shorter one is the same combination at every byte position, with zeros past each end |
| Vectors.DotAddScaled | queqiao/internal/fec/window.go:657-660 | adding a multiple of one coefficient row to another adds that multiple of what the row computes |
| Ids.DiffOfWraps | queqiao/internal/fec/window.go:421-455 | the sign of a wrapped 32-bit difference orders positions that lie within half of the identifiers |
| Ids.SlotOfWrap | queqiao/internal/fec/window.go:214-224 | a power-of-two ring finds the same slot from a wrapped identifier as from the position it stands for |
| LinearSystem.SubstitutionHolds | queqiao/internal/fec/window.go:574-594 | once a symbol is known, putting its value into every row keeps exactly the same solutions |
| LinearSystem.InsertionHolds | queqiao/internal/fec/window.go:496-543 | clearing a new row's pivot from the others and adding the row keeps exactly the solutions of the old rows and the new one |
| Echelon.InsertionReduced | queqiao/internal/fec/window.go:520-543 | adding a scaled row and clearing its pivot from the others keeps reduced echelon form |
| Echelon.SubstitutionReduced | queqiao/internal/fec/window.go:574-594 | substituting a symbol that is no row's pivot keeps reduced echelon form |
| Echelon.HarvestReduced | queqiao/internal/fec/window.go:548-570 | taking out a row with one unknown and substituting its symbol keeps reduced echelon form |
| Echelon.HarvestHolds | queqiao/internal/fec/window.go:548-570 | a row with one unknown left, its pivot, gives that symbol's value and nothing else is lost |
| Knowledge.LearningExact | queqiao/internal/fec/window.go:496-543 | a state equivalent to the old one and a new equation holds exactly the consequences of everything accepted |
| Knowledge.EvictionDropsOne | queqiao/internal/fec/window.go:468-492 | at most one row mentions the oldest unknown symbol, so eviction drops at most one row |
| Knowledge.EvictionProjects | queqiao/internal/fec/window.go:468-492 | what is left after eviction holds of exactly those values of the newer symbols that some value of the evicted one completes |
| Knowledge.SlidingExact | queqiao/internal/fec/window.go:421-455 | moving the window by one keeps the state exactly the consequences of what was accepted that mention only window symbols |
| Determinacy.KnownIffDetermined | queqiao/internal/fec/window.go:465-611 | a window symbol is known exactly when the accepted equations determine it |
| Determinacy.UnknownIsOpen | queqiao/internal/fec/window.go:548-570 | for a symbol not known there is a second assignment that satisfies every accepted equation and differs there |
| Coefficients.WindowCoefficient | queqiao/internal/fec/window.go:108-126 | the coefficient both ends derive from a repair's identifier and an index is never zero |
| Coefficients.WindowCoefficients | queqiao/internal/fec/window.go:130-139 | the row is as long as asked for, empty for no symbols, and is the derived coefficient at each index |
| Coefficients.RepairRowDot | queqiao/internal/fec/window.go:365-402 | laid out over the wrapping window, the regenerated row computes the combination the encoder sent |
| Mixing.EveryCoefficient | queqiao/internal/fec/window.go:108-117 | the identifier of a repair decides its coefficients: at every index of a span every non-zero byte is the coefficient of some repair, because each step of the 32-bit mix can be undone |
| Mixing.MixUndone | queqiao/internal/fec/window.go:108-117 | at every index every 32-bit word is the mix of some repair's identifier |
| Mixing.FrozenRows | queqiao/testdata/protocol1/vectors.json:673-693 | the rows both ends must agree on begin 1, 40, 124, 189 for repair 0, 212, 40, 11, 122 for repair 1 and 172, 198, 51, 206 for repair 2 |
| Encoder.RoundUpPowerOfTwo | queqiao/internal/fec/window.go:672-678 | the least power of two that is at least the argument, for every argument whose power of two fits the source's integers |
| Encoder.WindowEncoder.constructor | queqiao/internal/fec/window.go:155-159 | an encoder that holds nothing, over a ring of the rounded capacity |
| Encoder.WindowEncoder.SetCapacity | queqiao/internal/fec/window.go:167-190 | after a resize the ring holds the newest symbols that fit, each in its slot, and what was sent is unchanged |
| Encoder.WindowEncoder.Reset | queqiao/internal/fec/window.go:206-210 | nothing is held and identifiers go on from where they were |
| Encoder.WindowEncoder.Add | queqiao/internal/fec/window.go:214-224 | the symbol joins those held, displacing the oldest of a full ring, under the next wrapped identifier |
| Encoder.WindowEncoder.Repair | queqiao/internal/fec/window.go:240-262 | the repair is the exact combination of the newest symbols it names, as long as the longest of them; there is one whenever a symbol is held |
| Decoder.WindowDecoder.Leading | queqiao/internal/fec/window.go:598-611 | the oldest symbol a row still depends on, and whether there is none |
| Decoder.WindowDecoder.Substitute | queqiao/internal/fec/window.go:574-594 | records the value, reports it when it was recovered, and substitutes it in every row |
| Decoder.WindowDecoder.Harvest | queqiao/internal/fec/window.go:548-570 | ends with at least two unknowns in every row, having taken each completed row out in turn, and keeps solutions and echelon form |
| Decoder.WindowDecoder.Insert | queqiao/internal/fec/window.go:496-543 | adds an equation: afterwards the state holds exactly the consequences of the old state and the equation, in reduced form |
| Decoder.WindowDecoder.Evict | queqiao/internal/fec/window.go:468-492 | retires the oldest position: it is reported lost exactly when it is unknown, after the origin and never reported, and the row that depended on it is dropped |
| Decoder.WindowDecoder.Slide | queqiao/internal/fec/window.go:421-455 | moves the window to an arrival less than a width ahead, position by position |
| Decoder.WindowDecoder.Jump | queqiao/internal/fec/window.go:421-455 | an arrival a width or more ahead empties the window |
| Decoder.WindowDecoder.Admit | queqiao/internal/fec/window.go:421-455 | an identifier behind the window is refused and changes nothing; one ahead moves the window exactly so far; the first one starts the accounting at its own position, and the run stays accounted for exactly while no advance outruns the width and the span since the origin stays under half the identifiers |
| Decoder.WindowDecoder.constructor | queqiao/internal/fec/window.go:313-317 | a decoder that knows nothing of the stream it will be compared with |
| Decoder.WindowDecoder.Source | queqiao/internal/fec/window.go:347-361 | from a reduced and exact state of a true stream, every symbol reported is the original one if and only if the call was not a late arrival named by Corrupts; from any state whose equations are true of the stream it is so if and only if the harvest takes each row rightly, and then the state stays true; the symbol becomes known, what was reported stays reported, and no position known before is reported recovered |
| Decoder.WindowDecoder.Repair | queqiao/internal/fec/window.go:365-402 | from a reduced and exact state a repair that is a combination of the stream reports only original symbols and keeps that state; from any true state a call that reports only original symbols leaves it true; empty or oversized repairs change nothing, stale ones nothing that is known or recovered, and nothing at all when the window need not move; no position known before is reported recovered; and while accounted for the origin is no later than the oldest symbol a repair in reach names |
| Decoder.InsertedLearned | queqiao/internal/fec/window.go:520-543 | adding a reduced equation, scaled to a unit pivot that is cleared from the rows held, keeps reduced form and learns exactly that equation |
| Truth.TakenRight | queqiao/internal/fec/window.go:548-570 | taken from any state true of the stream, reduced or not, a row with one unknown gives the original symbol if and only if its coefficient is one or its remainder is zero, and then the state stays true |
| Truth.JudgedTake | queqiao/internal/fec/window.go:548-570 | throughout a harvest what was reported is original exactly when every row so far was taken rightly |
| Truth.InsertedTruthful | queqiao/internal/fec/window.go:496-543 | adding a true equation keeps every equation held true of the stream, reduced or not |
| Truth.EvictedTruthful | queqiao/internal/fec/window.go:468-492 | eviction keeps what remains true of the stream |
| Truth.ReportedWhole | queqiao/internal/fec/window.go:578-583 | a reported symbol is the stream's own, whole, with nothing but zeros behind it |
| LateArrival.ArrivalOutcome | queqiao/internal/fec/window.go:548-594 | the exact condition under which a late source symbol is followed by a wrong recovery: a held row pairs it with one other symbol under a coefficient other than one, and its data differs from the symbol |
| LateArrival.PairWrong | queqiao/internal/fec/window.go:548-570 | in that case the value recovered differs from the original |
| LateArrival.PairLearned | queqiao/internal/fec/window.go:548-570 | in every other case of such a pair the state stays equivalent to what was accepted |
| DecoderSteps.SettleOneFate | queqiao/internal/fec/window.go:572-583 | recording a symbol keeps one fate for each position |
| DecoderSteps.EvictOneFate | queqiao/internal/fec/window.go:468-492 | retiring a position keeps one fate for each position |
| DecoderSteps.JumpOneFate | queqiao/internal/fec/window.go:421-455 | emptying the window keeps one fate for each position |
| DecoderSteps.SolvedSlides | queqiao/internal/fec/window.go:421-492 | reduced form and exact knowledge survive a slide |
| Link.NothingMissed | queqiao/internal/fec/window.go:347-402 | over any sequence of arrivals that stayed good, a window symbol is known exactly when what was accepted determines it |
| Link.HeldIsOriginal | queqiao/internal/fec/window.go:347-402 | every value held is the stream's own, extended by zeros |
| Link.OneFateEach | queqiao/internal/fec/window.go:418-492 | in any state of any run no position was reported twice or both recovered and lost, none lost is known, and while the run is accounted for every position passed since the origin is known or reported lost |
| DecoderRuns.Run | queqiao/internal/fec/window.go:347-492 | any arrivals in any order: what was reported stays reported, no position known is reported recovered, none lost is or becomes known, none is reported twice in one call or in two; while accounted for, every position the window has passed that some arrival in its reach named, or that lies after one so named, became known or was reported lost, never both, and of a fresh decoder nothing else was reported lost; and while what arrives is the stream's and only original symbols were reported, every equation held is true |
| DecoderRuns.OriginIsOldest | queqiao/internal/fec/window.go:459-463 | a position is no older than the origin exactly when some arrival in reach of the window named it or one before it: the origin is the oldest position known to exist |
| DecoderRuns.TopIsNewest | queqiao/internal/fec/window.go:421-455 | the window ends with the newest position any arrival named |
| DecoderRuns.AccountedIs | queqiao/internal/fec/window.go:421-455 | over positions that span less than half the identifiers the run is accounted for exactly as long as no arrival leaps more than a window's width ahead of all before it |
| DecoderRuns.SpanInReach | queqiao/internal/fec/window.go:421-455 | positions that span less than half the identifiers, a window to spare, are told apart in whatever order they arrive |
| SoundRuns.SoundRun | queqiao/internal/fec/window.go:347-492 | in a run in which no symbol first arrives after a repair that covers it, from the first arrival on and otherwise in any order, everything reported recovered is the stream's own, and at the end a window symbol is known exactly when the arrivals that counted determine it |
| SoundRuns.PivotMentioned | queqiao/internal/fec/window.go:496-543 | the pivot of a row held is a symbol that something accepted mentions |
| SoundRuns.NoPivotHit | queqiao/internal/fec/window.go:347-361 | a symbol behind the window, ahead of it, known in it or mentioned by nothing accepted is no row's pivot |
| Link.ReorderedArrivalFails | queqiao/internal/fec/window.go:525-569 | a concrete reordered channel on which a symbol the sender never sent is recovered: repair 0 over symbols 0 and 1, then symbol 0 |
| Reordering.LateTwiceFails | queqiao/internal/fec/window.go:525-569 | a concrete run in which two late arrivals, neither of them named by Corrupts, make the decoder report a symbol never sent: repair 0 over symbols 0, 1 and 2, then symbol 0, then symbol 1 |
| Link.Channel.Send | queqiao/internal/fec/window.go:214-224 | over a channel that erases but does not reorder, a symbol sent becomes known if delivered, and what the receiver accepted gains exactly the equation that the symbol is; if erased it changes nothing at the receiver; every symbol recovered is one that was sent, whole |
| Link.Channel.Protect | queqiao/internal/fec/window.go:240-262 | over that channel a repair generated by the encoder recovers only whole symbols that were sent; delivered, what the receiver accepted gains exactly the combination of the newest symbols held, unless that is empty; erased, it changes nothing there |
| Link.Channel.Resize | queqiao/internal/fec/window.go:167-210 | resizing or resetting the encoder between them keeps both ends sound |
| Conversation.ArrivedKnowable | queqiao/internal/fec/window.go:347-361 | a symbol that arrived can be known |
| Conversation.RepairDetermines | queqiao/internal/fec/window.go:240-262 | a repair that arrived makes up for any one symbol of its span: when all the others are determined by what arrived, so is that one |
| TwoRepairs.TwoCombinations | queqiao/internal/fec/window.go:108-139 | two streams that differ at no more than two places of a span, and agree on one repair of it, agree on another repair exactly when they do not differ or the determinant of the four coefficients is zero |
| TwoRepairs.TwoRepairsDetermine | queqiao/internal/fec/window.go:240-262 | two repairs that arrived make up for any two symbols of the span they share when all the others are determined and the determinant of the four coefficients is not zero |
| TwoRepairs.TwoErasedKnowable | queqiao/internal/fec/window.go:240-262 | two symbols erased, and repairs 0 and 1 over both: both symbols can be known, whatever they are |
| Conversation.KnownKnowable | queqiao/internal/fec/window.go:347-402 | after each action what is known stays exactly what could be known by then |
| Conversation.Converse | queqiao/internal/fec/window.go:147-492 | any sequence of symbols, repairs, resizes and resets, each symbol and repair delivered or erased: everything reported recovered was sent, whole; nothing is reported twice or both recovered and lost; and the symbols known are exactly those that, at some point while they were in the window, the symbols and repairs that had arrived determined, both read off the actions alone |
| Segments.NeighboursSuffice | queqiao/internal/multipath/reassembly.go:182-208 | looking at the two neighbours of the insertion point finds an overlap exactly when a scan of every buffered segment does |
| Segments.InsertionLists | queqiao/internal/multipath/reassembly.go:210-215 | inserting a start at its place keeps the order sorted, equal to the key set, and adds the segment's bytes |
| Segments.RemovalLists | queqiao/internal/multipath/reassembly.go:217-222 | removing a start keeps the order sorted, equal to the key set, and subtracts the segment's bytes |
| Segments.FilingAccounts | queqiao/internal/multipath/reassembly.go:99-113 | filing a segment adds exactly its bytes to what is accounted for, all of them new |
| Segments.DeliveryAccounts | queqiao/internal/multipath/reassembly.go:138-147 | delivering the segment at the cursor moves exactly its bytes from buffered to delivered |
| Reassembly.Reassembler.Search | queqiao/internal/multipath/reassembly.go:183 | bisection finds the first start that is not before the one looked for |
| Reassembly.Reassembler.CheckNeighbours | queqiao/internal/multipath/reassembly.go:182-208 | accepts a segment exactly when it overlaps no buffered segment |
| Reassembly.Reassembler.InsertOrder | queqiao/internal/multipath/reassembly.go:210-215 | the order lists the buffer with the new segment in it |
| Reassembly.Reassembler.RemoveOrder | queqiao/internal/multipath/reassembly.go:217-222 | the order lists the buffer without the segment |
| Reassembly.Reassembler.Insert | queqiao/internal/multipath/reassembly.go:75-127 | the outcome is the one a full scan of the buffer dictates, limits and budget are refused exactly when exceeded, every accepted byte is delivered or buffered once, and the bytes others hold of the budget do not change |
| Reassembly.RepeatSaysNothingNew | queqiao/internal/multipath/reassembly.go:90-104 | a segment past the cursor taken for a repeat repeats byte for byte what was accepted, and one refused as conflicting starts where another does and differs from it |
| Reassembly.Reassembler.ConsumeContiguous | queqiao/internal/multipath/reassembly.go:129-159 | delivers everything contiguous, stops exactly at a gap or the end, gives back exactly the charges of what it delivers, and leaves nothing buffered at the cursor |
| Reassembly.Reassembler.Close | queqiao/internal/multipath/reassembly.go:161-172 | empties the buffer, gives back exactly what was charged and keeps what was delivered |
| Reassembly.Reassembler.ReceivedRanges | queqiao/internal/multipath/reassembly.go:233-256 | sorted ranges, none empty or touching, that cover exactly the buffered bytes, or when capped exactly those below the end of the last one |
| StreamRuns.DeliveredIsPrefix | queqiao/internal/multipath/reassembly.go:129-159 | when everything accepted is of one stream, what was delivered is the stream up to the cursor |
| StreamRuns.CursorAtGap | queqiao/internal/multipath/reassembly.go:129-159 | the byte at the cursor has never been accepted and every byte below it has |
| StreamRuns.AllTakenDelivers | queqiao/internal/multipath/reassembly.go:129-159 | once every byte and the end were accepted the whole stream is out and the flow is closed |
| StreamRuns.PiecesNeverConflict | queqiao/internal/multipath/reassembly.go:75-106 | pieces of one segmentation are never refused as conflicting, overlapping or crossing the cursor |
| StreamRuns.RoomForAll | queqiao/internal/multipath/reassembly.go:107-110 | with room for every piece none is refused for want of room |
| StreamRuns.Feed | queqiao/internal/multipath/reassembly.go:75-159 | feeding the pieces of one segmentation in any order with any repeats outputs the stream up to the cursor, and all of it, closed, when none was refused |
| Memlimit.Budget.TryAcquire | queqiao/internal/memlimit/budget.go:93-108 | succeeds exactly when the bytes fit, and charges exactly them; what is in use is always what was granted less what was given back, and the peak the most that ever was |
| Memlimit.Budget.Acquire | queqiao/internal/memlimit/budget.go:50-91 | refused, cancelled, served or parked on the open generation, by size, context and free bytes |
| Memlimit.Budget.Wake | queqiao/internal/memlimit/budget.go:76-90 | a woken caller is served if its bytes fit and is otherwise parked on the generation open now |
| Memlimit.Budget.Abandon | queqiao/internal/memlimit/budget.go:80-87 | a caller whose context ended leaves without a trace |
| Memlimit.Budget.Release | queqiao/internal/memlimit/budget.go:113-128 | gives back exactly the bytes and wakes every waiter there is |
| Memlimit.Budget.NoLostWakeUp | queqiao/internal/memlimit/budget.go:50-128 | in every interleaving, a waiter whose bytes fit has been woken |
| Memlimit.HighestIs | queqiao/internal/memlimit/budget.go:93-128 | the peak that every call keeps is the largest amount ever outstanding: never exceeded, and once reached |
| InboundQueue.Backlog.EnqueueInbound | queqiao/internal/pep/inbound_queue.go:22-51 | before shutdown accepted exactly when the channel is free and no pump is at work, or the backlog and the budget have room; events keep the order of acceptance |
| InboundQueue.Backlog.PumpTurn | queqiao/internal/pep/inbound_queue.go:65-82 | the pump takes the oldest event and gives back its charge, or retires when there is none |
| InboundQueue.Backlog.PumpPublish | queqiao/internal/pep/inbound_queue.go:83-85 | the event in the pump's hand is the next one into the channel |
| InboundQueue.Backlog.PumpCleanup | queqiao/internal/pep/inbound_queue.go:55-64 | at shutdown the queue is dropped and its whole charge given back |
| InboundQueue.Backlog.FirstInFirstOut | queqiao/internal/pep/inbound_queue.go:22-93 | in every interleaving what was received is what was accepted, in that order |
| InboundQueue.Backlog.NothingLeft | queqiao/internal/pep/inbound_queue.go:53-93 | once the pump is gone nothing is queued and nothing charged |
| Framing.FramesOfPacked | queqiao/internal/coded/coded.go:814-832 | reading a payload of packed frames gives back those frames in order |
| Framing.FramesExact | queqiao/internal/coded/coded.go:814-832 | of any payload the frames read, packed again, are the payload but for a rest that is no whole frame |
| Framing.PacketBytes | queqiao/internal/coded/coded.go:333-336 | on the wire a packed frame is four bytes of length, high byte first, and the frame |
| Framing.FramesShorter | queqiao/internal/coded/coded.go:814-832 | a frame read out of a payload is always shorter than the payload |
| Framing.ParseFrames | queqiao/internal/coded/coded.go:814-832 | the reading loop puts out exactly the frames the payload carries, behind those before |
| Framing.SymbolOfVector | queqiao/internal/coded/coded.go:391-396 | a symbol is read back from its vector whatever padding follows it |
| Framing.ParsedIsVector | queqiao/internal/coded/coded.go:834-853 | a vector is read as a symbol exactly when it begins with that symbol's own vector, with a part below the count and a count of 1 to 256 |
| Framing.VectorBytes | queqiao/internal/coded/coded.go:391-396 | on the wire a symbol is the length of its payload, its part and the count of parts, two bytes each with the high byte first, and the payload |
| Framing.FragmentsJoin | queqiao/internal/coded/coded.go:342-363 | the fragments of a frame, joined, are the frame, for every frame and every symbol size |
| Packing.YieldExact | queqiao/internal/coded/coded.go:320-363 | what a receiver makes of a sealed parcel is the parcel's frames if and only if it is not a frame of a length from limit-3 to limit sent as one fragment; such a frame is never delivered |
| Packing.Packer.AppendFrame | queqiao/internal/coded/coded.go:320-337 | takes a frame exactly when it needs no more than 256 symbols, and keeps the order of frames |
| Packing.Packer.SendFragments | queqiao/internal/coded/coded.go:342-363 | a large frame becomes symbols of its own that name their index and count |
| Packing.Packer.FlushPacked | queqiao/internal/coded/coded.go:374-387 | the frames waiting become one symbol and none are left waiting |
| Packing.Packer.Drain | queqiao/internal/coded/coded.go:282-311 | sending what is pending puts every frame up to the first unsendable one on the wire in order, with nothing left behind when all are sent |
| Assembly.Assembler.Note | queqiao/internal/coded/coded.go:692-701 | keeps the newest identifier and drops exactly the groups more than the slack behind it |
| Assembly.Assembler.Arrived | queqiao/internal/coded/coded.go:703-757 | an arrival is parsed, placed, joined or refused as the table dictates |
| Assembly.Assembler.Place | queqiao/internal/coded/coded.go:737-756 | a fragment joins its group once, and the last one turns the group into the joined frame |
| Assembly.Assembler.Lost | queqiao/internal/coded/coded.go:760-768 | a lost symbol drops exactly the groups whose span holds it |
| Assembly.Assembler.DropOldestGroup | queqiao/internal/coded/coded.go:799-812 | the group dropped at the cap is one farthest behind |
| Carriage.RoomLeft | queqiao/internal/coded/coded.go:726-733 | for the symbols of a conforming sender the cap on groups is never met, so none is dropped for it |
| Carriage.KeyEnd | queqiao/internal/coded/coded.go:712-721 | wrapped identifier arithmetic finds a group stale or hit by a loss exactly when its positions are |
| Carriage.PartReached | queqiao/internal/coded/coded.go:722-757 | a fragment in time completes its frame exactly when it is the last one of a parcel none of whose symbols was given up |
| CarriageRuns.ArrivalTracks | queqiao/internal/coded/coded.go:703-757 | every arrival keeps the table in step with what arrived, and releases frames exactly when it completes their parcel |
| CarriageRuns.LossTracks | queqiao/internal/coded/coded.go:760-768 | every loss keeps the table in step with what arrived |
| CarriageRuns.Carry | queqiao/internal/coded/coded.go:586-658 | whatever arrives, is lost or never comes, in any order within the slack, the frames out are those of exactly the parcels all of whose symbols arrived, each parcel once, in order when the symbols came in order |
| CarriageRuns.Transfer | queqiao/internal/coded/coded.go:282-311 | end to end: over any network that carries every symbol once, in any order within the slack, the frames out are exactly the frames sent, none of a stranded length, and in their order when the symbols came in order |
| CarriageRuns.RoundTrip | queqiao/internal/coded/coded.go:320-408 | when every symbol arrives the frames out are the frames sent as a multiset, and as a sequence when in order |
| CarriageSafety.ArrivalSafe | queqiao/internal/coded/coded.go:703-757 | an arrival of anything sent, repeated, late or at the cap on groups, puts out only what its parcel yields |
| CarriageSafety.Overhear | queqiao/internal/coded/coded.go:586-658 | with any repeats, in any order and at any distance, and whatever is given up, every frame that comes out was sent |
| CodedPath.Settle | queqiao/internal/coded/coded.go:651-657 | the symbols a datagram repaired, then those it gave up, keep the assembler in step with the decoder: each is new to it and close enough to be placed |
| CodedPath.Listen | queqiao/internal/coded/coded.go:589-658 | the decoder and the assembler together, over any conversation on a channel that erases but keeps order: the symbols known are exactly those that what arrived determined while they were in the window, and the frames out are those of exactly the parcels all of whose symbols are known, each parcel once |
| CodedPath.TransferOverErasures | queqiao/internal/coded/coded.go:282-658 | frames from end to end over that channel, with any repairs and resizes: the frames out are those of exactly the parcels all of whose symbols arrived or were determined by what arrived while in the window, each once; so none comes out that was not sent, nor more often than it was, and all of them do when every symbol could be known |
| Markov.WeightByRounds | congestion_queqiao/lossmodel/lossmodel.go:251-267 | a decayed counter is the sum of its per-round counts, each discounted by 0.75 for every round closed since, and the round in progress in full |
| Markov.OutcomesWithinTrials | congestion_queqiao/lossmodel/lossmodel.go:318-337 | a decayed count of outcomes never exceeds the decayed count of its trials |
| Gaps.MarksRetire | congestion_queqiao/lossmodel/lossmodel.go:211-217 | retiring the lowest number leaves the 1024-slot ring speaking truly of the window one further on |
| Gaps.RebasedMarks | congestion_queqiao/lossmodel/lossmodel.go:142-156 | before anything is decided the ring speaks truly of a numbering that starts earlier |
| Gaps.LateTracked | congestion_queqiao/lossmodel/lossmodel.go:142-150 | an arrival behind the window changes no fate decided or waiting |
| Gaps.RebasedTimely | congestion_queqiao/lossmodel/lossmodel.go:151-156 | a number that starts the numbering earlier is timely if and only if it came less than the tolerance behind the highest |
| Gaps.FatesTimely | congestion_queqiao/lossmodel/lossmodel.go:151-181 | every fate decided is as timeliness says if and only if the first number of the numbering, once decided, was timely |
| LossModel.WithDefaults | congestion_queqiao/lossmodel/lossmodel.go:70-84 | every configuration becomes one whose tolerance fits the ring, and a usable one is kept |
| LossModel.Estimator.Record | congestion_queqiao/lossmodel/lossmodel.go:219-249 | the six counters, the round and the ring of rounds go on describing exactly what was recorded |
| LossModel.Estimator.CloseRound | congestion_queqiao/lossmodel/lossmodel.go:251-267 | the round's loss replaces the oldest one kept and every counter decays once |
| LossModel.Estimator.Observe | congestion_queqiao/lossmodel/lossmodel.go:134-181 | every number from the base is decided once, in order, when an arrival is a tolerance ahead; it is recorded as arrived exactly when it came before any such arrival, or is the base; and the base is timely exactly when the arrival that last set it started the numbering, or came less than the tolerance behind the highest |
| LossModel.Estimator.RecordedTimely | congestion_queqiao/lossmodel/lossmodel.go:134-181 | in every state the fates of the numbering are all as timeliness says if and only if nothing is decided yet or its first number was timely |
| LossModel.FirstNeedNotBeTimely | congestion_queqiao/lossmodel/lossmodel.go:151-156 | an estimator given 100 and then 50 records 50 as arrived although it came 50 numbers late with a tolerance of 8 |
| LossModel.Estimator.Restart | congestion_queqiao/lossmodel/lossmodel.go:203-208 | a discontinuity forgets the window and the previous fate, and keeps what was recorded |
| LossModel.Estimator.Floor | congestion_queqiao/lossmodel/lossmodel.go:393-420 | the lowest and the latest loss over the rounds remembered and the one in progress once a quarter full |
| LossModel.Estimator.Summary | congestion_queqiao/lossmodel/lossmodel.go:340-388 | each rate is the quotient of its counters and zero without trials; the mean burst is the inverse of the chance that an arrival follows a loss and zero without one, and the burst factor then one; recent is the loss of the round in progress once it is a quarter full and otherwise of the last round closed, the floor the lowest of that and of the rounds remembered, and the congestive part what is between them; the memoryless verdict needs 200 transitions and a deviation within three standard errors |
| LossModel.ClusteringIs | congestion_queqiao/lossmodel/lossmodel.go:357-365 | the burst factor is the mean burst over that of a memoryless channel, and never less than one |
| LossModel.ThreeSigma | congestion_queqiao/lossmodel/lossmodel.go:376-388 | the comparison of squares by which noise is judged is the comparison with three standard errors |
| LossRounds.RingTurns | congestion_queqiao/lossmodel/lossmodel.go:251-258 | the ring always holds the last rounds, each at its number modulo the size |
| LossAnalysis.Analyze | congestion_queqiao/lossmodel/lossmodel.go:441-490 | the offline pattern: counts, rates, the histogram of loss runs and the longest of them |
| LossAnalysis.RunsAccount | congestion_queqiao/lossmodel/lossmodel.go:441-474 | the runs account for every loss, and the ended ones for every arrival after a loss |
| LossAnalysis.StartsAccount | congestion_queqiao/lossmodel/lossmodel.go:441-474 | every run of losses but one at the start accounts for one loss after an arrival, and every fate but the first follows an arrival or a loss |
| LossAnalysis.MeanBurstIsMean | congestion_queqiao/lossmodel/lossmodel.go:481-485 | with no run open at the end, the mean burst reported is the mean of the histogram |
| LossAnalysis.OnlineIsOffline | congestion_queqiao/lossmodel/lossmodel.go:219-267 | after any fates, discontinuities among them included, each online counter is the offline analysis of the same fates taken round by round, the counts of each closed round discounted by 0.75 once for it and for every round closed since |
| LossAnalysis.AnalyzedIs | congestion_queqiao/lossmodel/lossmodel.go:219-249 | parted at every discontinuity and analyzed offline, the fates recorded give the same counts as the transitions the estimator counted |
| LossAnalysis.EstimatorIsOffline | congestion_queqiao/lossmodel/lossmodel.go:219-267 | the counters of an estimator, whatever it was given, are the discounted offline analysis of what it recorded, and what it recorded since its numbers last began again is the last stretch of it |
| WindowedMax.UpdatedNested | congestion_queqiao/bbr_tuic_minmax.go:135-182 | after every update the three samples are the maxima of nested suffixes of the history, each the first of its suffix |
| WindowedMax.NestedOrdered | congestion_queqiao/bbr_tuic_minmax.go:135-182 | they are ordered in value, in round and in time |
| WindowedMax.UpdatedFresh | congestion_queqiao/bbr_tuic_minmax.go:135-182 | the estimate is at most the window's rounds old and, when every time is set, within the wall-clock window |
| WindowedMax.UpdatedKeeps | congestion_queqiao/bbr_tuic_minmax.go:135-182 | an estimate within both its windows stands unless the new sample is as great; and unless it has expired the new estimate is at least each of the three samples still within the window of rounds |
| WindowedMax.UpdatedKept | congestion_queqiao/bbr_tuic_minmax.go:135-182 | the greatest sample since the filter was emptied is the estimate as long as it is within both windows of the newest, for the least wall-clock window in force |
| WindowedMax.KeptIsGreatest | congestion_queqiao/bbr_tuic_minmax.go:135-158 | with every sample within both windows of the newest the estimate is the greatest of them all |
| WindowedMax.UpdatedSpaced | congestion_queqiao/bbr_tuic_minmax.go:160-182 | while the estimate stands the second sample is less than it or a quarter window fresh, and the third less than the second or half a window fresh |
| WindowedMax.OutlivedExactly | congestion_queqiao/bbr_tuic_minmax.go:128-182 | over any history, the exact condition under which the wall-clock bound fails: an estimate without a time, too many rounds old, whose successor has expired |
| WindowedMax.MixedTimesOutlive | congestion_queqiao/bbr_tuic_minmax.go:128-182 | with unset times among set ones, which the filter's interface allows, the wall-clock bound fails: two updates from an empty filter leave the state from which a third does it |
| WindowedMax.MixedTimesRun | congestion_queqiao/bbr_tuic_minmax.go:128-182 | the same three samples given to a filter leave an estimate further back than its wall-clock window; mixed times belong to the filter's interface only: the connection's callbacks always set them, the aggregate helpers and the acknowledgement filter never do |
| WindowedMax.Filter.UpdateMax | congestion_queqiao/bbr_tuic_minmax.go:135-158 | the three samples change in place as the update says: the estimate is at least the newest sample, stands while it is within both windows unless the sample is as great, and is then the greatest since the filter was emptied as long as no sample has left either window |
| WindowedMax.Filter.Get | congestion_queqiao/bbr_tuic_minmax.go:77 | the estimate is the greatest sample of a suffix of the history, and of all of it as long as no sample has left either window |
| WindowedMax.Filter.SetRoundTrip | congestion_queqiao/bbr_tuic_minmax.go:92-109 | ten round trips, clamped to between one and ten seconds |
| RingBuffer.Ring.PushBack | congestion_meta2/ringbuffer.go:34-46 | one more element at the back, whatever the state of the ring |
| RingBuffer.Ring.PopFront | congestion_meta2/ringbuffer.go:51-63 | the front element leaves |
| RingBuffer.Ring.Grow | congestion_meta2/ringbuffer.go:99-109 | doubling a full ring keeps what it holds in order |
| RingBuffer.Ring.Offset | congestion_meta2/ringbuffer.go:69-75 | the element so many places behind the front |
| PacketQueue.Queue.Emplace | congestion_meta2/packet_number_indexed_queue.go:54-88 | on a queue with entries succeeds exactly above the last slot, and then only that entry is added |
| PacketQueue.Queue.GetEntry | congestion_meta2/packet_number_indexed_queue.go:92-99 | the map's answer for every number |
| PacketQueue.Queue.Remove | congestion_meta2/packet_number_indexed_queue.go:103-119 | takes out exactly that entry and hands it over |
| PacketQueue.Queue.RemoveUpTo | congestion_meta2/packet_number_indexed_queue.go:124-135 | keeps exactly the entries from the number on |
| PacketQueue.Queue.FrontIsFirst | congestion_meta2/packet_number_indexed_queue.go:137-177 | the count is the number of entries, none is present exactly when no slot is used, and the first slot is the lowest entry |
| PacketQueue.PresentSize | congestion_meta2/packet_number_indexed_queue.go:142-145 | the slots counted present are as many as the entries |
| PacketStates.Table.RemoveObsolete | congestion_queqiao/bbr_tuic_bw.go:200-218 | by walk or by scan, keeps exactly the packets from the oldest outstanding on, and walks no further than the watermark moves |
| PacketStates.Table.OnSentPacket | congestion_queqiao/bbr_tuic_bw.go:130-163 | records the packet in a table that never exceeds 8192, dropping only older ones |
| PacketStates.Table.PruneStates | congestion_queqiao/bbr_tuic_bw.go:447-464 | drops the lowest quarter of a full table |
| Pacing.Pace | congestion_queqiao/pacer.go:68-102 | sends gated on a datagram's budget put out no more than a burst and what the rate earns from the first send to the last |
| Pacing.Pacer.TimeUntilSend | congestion_queqiao/pacer.go:121-135 | at the time returned the budget covers a datagram, and at no earlier time when that time is past the least delay |
| Pacing.Pacer.LeftAndEarned | congestion_queqiao/pacer.go:78-102 | what was left and what has been earned since is there to be sent, up to a burst, and at ten datagrams a second or more nothing else is |
| Pacing.Pacer.SentPacket | congestion_queqiao/pacer.go:68-76 | what is left of the budget is carried on, never below zero |
| Pacing.EarnedTogether | congestion_queqiao/pacer.go:97 | whole bytes earned over two spans are earned over both together, rounding down |
| Pacing.EarnedIsShare | congestion_queqiao/pacer.go:97 | a second earns the rate, and any time its share of it, to the byte |
| Bbr.Sender.OnCongestionEvent | congestion_queqiao/bbr_tuic.go:435-563 | every event keeps the windows within their bounds, mode, gain and recovery in agreement, full bandwidth once found, and the mode changes to those allowed; the window moves as CalculateCwnd says and the rate as CalculatePacingRate does |
| Bbr.Sender.UpdateRecoveryState | congestion_queqiao/bbr_tuic.go:665-690 | recovery is entered by a loss once the bandwidth is known, grows after a round, and ends past its last packet |
| Bbr.Sender.UpdateGainCycle | congestion_queqiao/bbr_tuic.go:692-706 | the gain moves one step at most: out of draining once the flight fits, not out of probing while the flight is short and nothing was lost, and otherwise exactly when a phase has lasted a round trip |
| Bbr.Sender.MaybeExitStartupDrain | congestion_queqiao/bbr_tuic.go:708-721 | Startup ends when the bandwidth is known, Drain when the flight fits, and ProbeBW is never entered in its draining phase |
| Bbr.Sender.CalculatePacingRate | congestion_queqiao/bbr_tuic.go:833-862 | the rate is the bandwidth times the gain, up to the cap, once the bandwidth is known; before that it rises to it and never falls, and starts from the initial window in a round trip |
| Bbr.Sender.CheckFullBandwidth | congestion_queqiao/bbr_tuic.go:744-766 | after any rounds the two counters and the flag are what the sequence of rounds says: the bandwidth of the last round that grew, how many in a row have not, and whether some round ended the search; a round has lost too much with eight losses of more than a fiftieth of the flight |
| BandwidthSearch.EndedMore | congestion_queqiao/bbr_tuic.go:744-766 | a round ends the search exactly when it did not grow by a quarter and either lost too much or is the third such in a row |
| BandwidthSearch.TargetIsQuarterMore | congestion_queqiao/bbr_tuic.go:744-766 | growth is by a quarter, rounded down to the byte |
| BandwidthSearch.SearchEnds | congestion_queqiao/bbr_tuic.go:744-766 | a search that goes on has grown in at least every third round and its bandwidth compounds with every step |
| BandwidthSearch.EndsWithin | congestion_queqiao/bbr_tuic.go:744-766 | on a path of any bandwidth the search ends: with every bandwidth at least four and below four times two to the m it has ended once there were more than 18 m rounds |
| BandwidthSearch.SteadyEnds | congestion_queqiao/bbr_tuic.go:744-766 | at one steady bandwidth without heavy loss the search ends with the fourth round, if and only if the bandwidth is at least four: below that the target is rounded down to the same bandwidth |
| Bbr.Sender.MaybeProbeRTT | congestion_queqiao/bbr_tuic.go:768-804 | ProbeRTT is entered only on an expired round trip and left for the mode the bandwidth dictates |
| Bbr.Sender.CalculateCwnd | congestion_queqiao/bbr_tuic.go:864-880 | with the bandwidth known the window is at most the target with what aggregation adds, and grows by all that was acknowledged as far as that fits under it and the largest window; before that it never falls, and grows by what was acknowledged exactly while short of the target or of a first window; in ProbeRTT it stays |
| Bbr.Sender.TargetMeans | congestion_queqiao/bbr_tuic.go:806-827 | within its bounds the target is what the bandwidth fills in a round trip, times the gain, to the byte |
| Bbr.ScaledIsProduct | congestion_queqiao/bbr_tuic.go:833-838 | a rate at a gain is their product, to the byte |
| Bbr.Sender.CalculateRecoveryWindow | congestion_queqiao/bbr_tuic.go:882-906 | in recovery the window is what it was less what was lost, in Growth more by what was acknowledged, unless what is in flight and was acknowledged needs more |
| Bbr.Sender.SeedBandwidth | congestion_queqiao/bbr_tuic.go:272-299 | a seed lowers neither the rate nor the window, leaves the window without a round trip, and enters the filter as a sample of its own, after which the estimate is at least the seed |
| Bbr.Sender.RestartFromIdle | congestion_queqiao/bbr_tuic.go:324-351 | the peak is put back exactly when it is above the estimate and a sample of its age would still stand |
| Bbr.Sender.OnPacketSent | congestion_queqiao/bbr_tuic.go:381-418 | a packet sent with nothing in flight restores what idling forgot and lowers neither rate, window nor estimate; otherwise the filter is left alone |
| Bbr.Sender.SetMaxDatagramSize | congestion_queqiao/bbr_tuic.go:916-945 | every bound moves with the datagram size and every window is brought within them |
| Bbr.ScaledWindowKeeps | congestion_queqiao/bbr_tuic.go:947-955 | a window keeps its number of datagrams when their size changes |
| Bbr.Sender.CongestionWindow | congestion_queqiao/bbr_tuic.go:960-972 | the window in force is never below the least one, is the least one in ProbeRTT, and otherwise the sender's own or, in recovery, the recovery window where that is smaller |
| Bbr.Sender.NextCycleOffset | congestion_queqiao/bbr_tuic.go:723-742 | each offset of the cycle but the draining one, one for each of seven draws |

## Left out

- Decoder slots, rows and their vectors are values held in sequences rather than pointers into shared buffers, so aliasing between a caller's vector and the decoder's is not captured; the coefficient and data buffers of the field routines are arrays changed in place.
- The decoder's resize is modelled only as its constructor calls it, with the one fixed width.
- Decoder.WindowDecoder.Repair: from a state that a late arrival left unreduced it is stated that a call which reports only originals keeps every equation true, and by Truth.TakenRight when each row is taken rightly; the rows after elimination are not written out as a function of the state before the call.
- Conversation.Converse: leaves out conversations in which 2^31-512 or more symbols are sent without anything arriving once something has, past which the wrapped identifiers no longer tell positions apart.
- SoundRuns.SoundRun: leaves out runs in which a symbol first arrives after a repair that covers it; for these LateArrival, Truth and DecoderRuns state what holds and Link.ReorderedArrivalFails what does not.
- CodedPath.TransferOverErasures: covers fewer than 2^31 symbols in all, the span within which the assembler's identifiers are told apart, and leaves out the order of the frames, the arrival estimator and the queue of frames.
- Link.OneFateEach: accounts for every position passed only while the identifiers since the origin span fewer than 2^31, because the origin never advances; it is stated for runs in which no advance outran the width, as the source's own accounting is.
- StreamRuns.Feed: says nothing of pieces cut differently from one another, which the reassembler refuses as overlapping.
- Reassembly.Reassembler.Insert: the copy made of a retained payload and the unexported mark on a caller's segment are left out; a caller's segment is taken as not charged.
- CarriageRuns.Transfer: covers senders none of whose datagrams the carrier refused for size; a refusal drops the encoder's window and the rest of a frame's fragments, and the frame is left to be issued again.
- CarriageRuns.Carry: takes each symbol to arrive or be given up at most once; a datagram the carrier duplicates delivers its packed frames twice, and for repeats only CarriageSafety.Overhear is stated.
- Packing.Packer.AppendFrame: takes symbol payloads of 5 to 65535 bytes, which the smallest symbol size and the sixteen-bit length leave.
- Fragment groups are values in a map rather than shared records, and the byte count kept only to size a buffer is left out.
- LossAnalysis.Analyze: quotients without a divisor are named infinite or undefined rather than computed.
- LossModel.Estimator.Observe: its straight-line body is split by case into methods of the same steps, as Summary is by what it reports.
- PacketStates.Table.OnSentPacket: takes packet numbers that only rise; across packet-number spaces they do not, and then a packet below the watermark can outlive the walk until the table is pruned.
- PacketQueue.Queue.GetEntry: returns the entry rather than a pointer to it, so changing an entry in place through the pointer is not captured.
- Pacing.Pace: is stated for one constant bandwidth of at least ten datagrams a second and no burst floor.
- Bbr.Sender.OnCongestionEvent: takes what the delivery sampler, the acknowledgement aggregation and the random source produce as inputs of the event.
- Bbr.Sender.OnPacketSent: takes the bandwidth filter and both clock readings as arguments; what the sampler and the pacer note of the packet is modelled apart from it.
- Bbr.Sender.SetMaxDatagramSize: leaves out the overflow of byte counts by datagrams too large for 2^63 over the packet limit, whose value the quic-go module sets.
- Concurrency is modelled as interleavings of the stretches run under a lock; the memory model and the scheduler are not.
- The rate formulas of fec/rate.go, the cubic, adaptive, erasure and brutal controllers, and the delivery-rate arithmetic of the sampler are tuning over floating point.
- bandwidth_sampler.go and bbr_sender.go of congestion_meta2 repeat the modelled controller over more rate arithmetic.
- Network and protocol plumbing, obfuscation codecs, hole punching, the datagram fragmenters of the other protocols, telemetry, logging, clocks and random padding are not part of this model.
