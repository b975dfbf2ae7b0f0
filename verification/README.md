# MutsukiLink core: a verified model

MutsukiLink connects two peers. This project models the runtime-neutral core of the repository:
bounded state machines, a scheduler and binary codecs with no input or output inside them. The
properties proved are about whole runs, about every input, or about pairs of operations that undo
each other.

Each part comes in two layers. A `...Spec` module gives the state as a value and each operation as
a function of it; run modules prove theorems about arbitrary sequences of these operations. A
module with a class keeps the same state in fields, arrays and maps, updates it in place with the
loops of the original, and every method's postcondition ties the new state to the function. The
theorems therefore hold of the objects. Modules named for verdicts, decisions, terms or layouts state
what those functions mean without naming them: when a call is accepted, what it answers otherwise,
what it leaves, and what stands where on the wire.

| part | modules |
|---|---|
| Multiplexer: weighted-fair scheduling, reserved control queue, lifetime channel ids | `MuxSpec`, `MuxInvariant`, `MuxRun`, `MuxVerdicts`, `MuxFairness`, `MuxShares`, `MuxStarvation`, `MuxCeiling`, `Mux` |
| Two-party handshake over a network that loses, reorders and duplicates | `Identity`, `Capabilities`, `HandshakeSpec`, `HandshakeRun`, `HandshakeTerms`, `HandshakeHonest`, `Handshake` |
| Fragmentation and reassembly of realtime payloads | `FragmentSpec`, `FragmentCover`, `FragmentRun`, `FragmentRoundTrip`, `FragmentVerdicts`, `SendVerdicts`, `Fragments` |
| Typed control codec, compact data codec | `Wire`, `CodecSpec`, `ControlSpec`, `ControlCodecSpec`, `ControlCodec`, `DataCodecSpec`, `DataCodec`, `WireLayout`, `DataLayout`, `ControlLayout`, `DataVerdicts`, `ControlVerdicts` |
| Session, its channel map and its event bus | `ChannelMapSpec`, `ChannelMap`, `SessionSpec`, `SessionRun`, `SessionVerdicts`, `Sessions`, `EventBusSpec`, `EventBus` |
| Protocol registry | `RegistrySpec`, `RegistryVerdicts`, `Registry`, `RegistrySession` |
| Realtime latest-only send queue | `RealtimeSpec`, `RealtimeInvariant`, `RealtimeRun`, `RealtimeDecisions`, `RealtimeDelivery`, `RealtimeWire`, `Realtime` |
| Sliding-window limiters and the reconnect controller | `LimiterSpec`, `LimiterClock`, `LimiterWindow`, `Limiter`, `ReconnectSpec`, `ReconnectRun`, `Reconnect` |

`Base` and `Sums` hold shared vocabulary. Verify everything with `dafny verify dfyconfig.toml`.

## Reading notes

- Integer widths are explicit. Saturating additions, wrap-around and the 64- and 128-bit ceilings
  are written out; `usize` is 64 bits wide.
- Time, jitter samples, the verifier's decision, the link's answers and the cancellation flag are
  parameters. The identifier digest is a parameter too: every statement holds for any function
  from names to identifiers.
- In `HandshakeRun` the network is the set of frames ever sent, plus unsolicited rejections; any
  of them may be delivered to either side at any time and any number of times.
- The multiplexer's `virtual_finish` is the start tag of the head frame, and is modelled so.
- The reassembler records a completed pair before it checks the ranges, so a group whose ranges do
  not tile is over although nothing is delivered. The model keeps that.

## What the code does not promise

Where a natural property fails at a numeric limit or under an unsteady clock, the code is modelled
as it is; each line names what fails, the input that shows it, and how far the property holds.

- A stream byte limit is a lifetime budget if and only if it is below 2^64 - 1
  (`MuxRun.StreamBudget`, `MuxCeiling.StreamBudgetExactly`).
- Tags stop at the 128-bit ceiling. What a channel's tag was charged is shared fairly in every run;
  what it was served can differ further, by the cost that met the ceiling
  (`MuxFairness.WeightedFairness`), and does in a run that gets there, after some 2^125 frames
  (`MuxCeiling.UnequalAtCeiling`). The conditions in `MuxFairness.BackloggedShareEqually` and
  `MuxFairness.FairWithinService` suffice; that every run past them is unfair is not claimed, but
  the latter cannot be relaxed by 128 units of service. Absence of starvation has no such limit.
- A subscriber's loss counter stops at 2^64 - 1. The account of a subscriber holds if and only if no
  event met a full queue with the counter there (`EventBusSpec.BusRefinesLog`); a subscriber that
  never reads falls short from event 2^64 + 1 on (`EventBusSpec.SilentSubscriber`).
- The age of a realtime group is a counter that wraps after 2^64 groups; a group numbered just
  before the wrap is then served after a younger one of its priority
  (`RealtimeRun.NumbersAreAges`, `RealtimeRun.OlderServedFirstExactly`).
- The reconnect backoff is monotone, and geometric for whole multipliers, exactly when the initial
  or maximum delay is at most (2^64 - 1) / 1000 milliseconds (`ReconnectSpec.DelayMonotoneExactly`,
  `ReconnectSpec.DelayIsGeometricExactly`).
- The time allowed for reconnecting is added up in 64 bits: a limit of 2^64 - 1 allows every delay
  (`ReconnectRun.AnswersFollowHistory`).
- Circular sequence comparison agrees with the order of unwrapped numbers less than a whole range
  apart exactly when their difference is at least minus half and below plus half the range
  (`RealtimeRun.SerialOrder`), as in section 3.2 of RFC 1982.
- The rate limiters forget by the clock they are given. They decide as a full history would exactly
  for clocks that never turn (`LimiterClock.DecidesExactly`), and admit no more than the maximum
  within one window exactly for steady clocks (`LimiterWindow.BoundExactly`), which may turn as long
  as they do not come back near a time they have made the table forget; the readings 5, 20, 5 do
  (`LimiterWindow.ClockBackExceeds`).
- Saturating statistics of the realtime queue add up exactly while the true total is below the
  ceiling, or all of it is one flow's (`RealtimeRun.StatisticsAddUp`).

## Model

| member | source | states |
|---|---|---|
| MuxFairness.WeightedFairness | crates/mutsuki-link-core/src/mux.rs:341-381 | While channel i has something queued throughout a run, no other channel j open at the start has its tag charged more than i's by more than one maximal frame of each, and is served at most that much more plus whatever of its cost met the 128-bit ceiling; any other calls may be interleaved, and j may go idle, be cancelled or close |
| MuxFairness.BackloggedShareEqually | crates/mutsuki-link-core/src/mux.rs:341-381 | Two channels backlogged throughout a run are charged the same up to one maximal frame of each, and neither is served more than the other by more than that unless its own tag plus its own service is above the 128-bit ceiling |
| MuxFairness.FairWithinService | crates/mutsuki-link-core/src/mux.rs:341-381 | As long as the total cost ever served fits in 128 bits, no open channel is served more than a backlogged one by more than one maximal frame of each |
| MuxFairness.TagsTelescope | crates/mutsuki-link-core/src/mux.rs:341-381 | The tag of a channel backlogged throughout a run ends where it began plus its served cost, cut off at the 128-bit ceiling, so what went uncharged is exactly the part above the ceiling |
| MuxFairness.ServiceAtMostVirtualTime | crates/mutsuki-link-core/src/mux.rs:291-296 | However its traffic comes and goes, a channel is charged at most the advance of virtual time plus one maximal frame: being idle earns no credit |
| MuxFairness.VirtualTimeWithinService | crates/mutsuki-link-core/src/mux.rs:341-381 | Virtual time and every tag stay within the total cost served, over any run |
| MuxFairness.ServedIsCharged | crates/mutsuki-link-core/src/mux.rs:369-374 | The cost of the frames a channel sent is what its tag was charged plus what met the ceiling |
| MuxCeiling.RoundRobinAtCeiling | crates/mutsuki-link-core/src/mux.rs:341-381 | With virtual time at the 128-bit ceiling two backlogged channels take turns frame by frame, whatever their frames cost and their weights are |
| MuxCeiling.UnequalAtCeiling | crates/mutsuki-link-core/src/mux.rs:341-381 | Weighted shares do end there: a run reaches a state at the ceiling from which two channels of one weight stay backlogged for 2m dequeues while one is served 8m and the other 24m, more than two maximal frames apart once m is above 3 |
| MuxStarvation.NoStarvation | crates/mutsuki-link-core/src/mux.rs:341-381 | A channel with a frame queued is passed over by at most (max_channels - 1) * (its maximal cost + 1) data dequeues, whatever is opened, enqueued, cancelled or closed meanwhile, also under saturation |
| MuxStarvation.EventuallyServed | crates/mutsuki-link-core/src/mux.rs:341-381 | Once more data frames than that bound have left and nobody discarded the queue, the channel has sent, and its head frame went first |
| MuxShares.BytesFollowWeights | crates/mutsuki-link-core/src/mux.rs:341-381 | Over a run in which two channels stay backlogged and the cost served fits in 128 bits, eight times the difference between the bytes delivered to each times its partner's weight, 1 to 8 by bands of 32 hints, is at most one maximal frame of each and a rounding unit a frame: shares follow the priority hints |
| MuxSpec.CostIsWeightedBytes | crates/mutsuki-link-core/src/mux.rs:502-511 | For every hint h and the one w with 32(w - 1) <= h < 32w, the cost of a frame of n bytes satisfies 8n <= cost * w < 8n + w, an empty frame counting as one byte |
| MuxSpec.CostMonotone | crates/mutsuki-link-core/src/mux.rs:502-511 | A longer frame never costs less, so a frame within the channel limit costs at most the channel's maximal cost, also where the 128-bit product saturates |
| MuxSpec.NextIsUnique | crates/mutsuki-link-core/src/mux.rs:353-362 | At most one ready position satisfies the selection rule: smallest tag, then leftmost |
| MuxInvariant.WorkConserving | crates/mutsuki-link-core/src/mux.rs:341-381 | Something leaves exactly when something is pending: the ready list and the counter never hide a queued frame |
| MuxInvariant.OpenedValid | crates/mutsuki-link-core/src/mux.rs:168-225 | Opening keeps table, key index, ready list, pending count, limits and tag bounds in agreement |
| MuxInvariant.QueuedValid | crates/mutsuki-link-core/src/mux.rs:242-299 | Accepting a data frame keeps the same agreement, including the ready list holding exactly the non-empty channels without repetition |
| MuxInvariant.ServedValid | crates/mutsuki-link-core/src/mux.rs:341-381 | Serving the selected channel keeps the agreement and every tag between virtual time and virtual time plus one maximal cost |
| MuxInvariant.CancelledValid | crates/mutsuki-link-core/src/mux.rs:383-394 | Cancelling empties one queue and keeps the agreement |
| MuxInvariant.ClosedValid | crates/mutsuki-link-core/src/mux.rs:396-412 | Closing removes the channel from every index at once, retires its id and keeps the agreement |
| MuxInvariant.EmptiedValid | crates/mutsuki-link-core/src/mux.rs:434-443 | Discarding everything keeps the agreement |
| MuxRun.ChannelIsFifo | crates/mutsuki-link-core/src/mux.rs:242-412 | Over every run, what a channel had queued followed by what it accepted is what left it followed by what is still queued, frame for frame |
| MuxRun.NothingLost | crates/mutsuki-link-core/src/mux.rs:242-381 | Without a cancel, close or discard, accepted frames are delivered in order with none lost or duplicated |
| MuxRun.FramesConserved | crates/mutsuki-link-core/src/mux.rs:227-443 | Every accepted frame, control or data, is sent, still pending, or in a discard count some call reported |
| MuxRun.ControlIsFifo | crates/mutsuki-link-core/src/mux.rs:227-240 | Over every run the control frames queued followed by those accepted are those that left followed by those still queued, and no data frame is sent while one is pending |
| MuxVerdicts.OpenVerdict | crates/mutsuki-link-core/src/mux.rs:168-225 | A channel opens unless it is malformed, its protocol is not allowed, the ids are used up, or its id is closed or in use, reported in this order; it starts empty and no other channel changes |
| MuxVerdicts.ControlVerdict | crates/mutsuki-link-core/src/mux.rs:227-240 | A control frame is refused exactly when it is too long or the control queue is full |
| MuxVerdicts.EnqueueVerdict | crates/mutsuki-link-core/src/mux.rs:242-299 | A data frame is accepted exactly when none of the listed complaints about session, channel, size, depth, pending frames, generation, cancellation, room or stream bytes applies, and the first is reported otherwise |
| MuxVerdicts.DiscardableVerdict | crates/mutsuki-link-core/src/mux.rs:301-339 | A discardable frame that suits its channel is dropped without an error exactly when the channel or the multiplexer is full, and accepted otherwise |
| MuxVerdicts.CancelVerdict | crates/mutsuki-link-core/src/mux.rs:383-394 | Cancelling an open channel reports and drops its queue and touches no other; an unknown id is reported |
| MuxVerdicts.CloseVerdict | crates/mutsuki-link-core/src/mux.rs:396-412 | Closing removes exactly that channel and uses up its id, and tells closed from unknown ids |
| MuxVerdicts.DiscardVerdict | crates/mutsuki-link-core/src/mux.rs:434-443 | Discarding reports all that was pending, closes nothing, and afterwards there is nothing to send |
| MuxVerdicts.CancelledForever | crates/mutsuki-link-core/src/mux.rs:383-394 | In every run from a cancelled channel nothing is accepted for it or delivered from it again |
| MuxRun.RetiredForever | crates/mutsuki-link-core/src/mux.rs:396-412 | A closed id never opens, accepts or delivers again in any run |
| MuxRun.StreamBudget | crates/mutsuki-link-core/src/mux.rs:275-290 | A stream channel with a limit below the 64-bit maximum never accepts more bytes over its life than the limit |
| MuxCeiling.StreamBudgetExactly | crates/mutsuki-link-core/src/mux.rs:275-290 | For an open stream channel in any valid state, every run stays within the limit if and only if the limit is below the 64-bit maximum: at the maximum, sending single bytes exceeds it |
| Mux.Multiplexer.New | crates/mutsuki-link-core/src/mux.rs:134-166 | Any zero limit is refused; otherwise an empty multiplexer restricted to the given protocols |
| Mux.Multiplexer.OpenChannel | crates/mutsuki-link-core/src/mux.rs:168-225 | In place, the new state and error of the open operation on values, with the agreement kept |
| Mux.Multiplexer.EnqueueControl | crates/mutsuki-link-core/src/mux.rs:227-240 | In place, the control queue operation on values |
| Mux.Multiplexer.Enqueue | crates/mutsuki-link-core/src/mux.rs:242-299 | In place, the data enqueue operation on values, every error in its order |
| Mux.Multiplexer.EnqueueDiscardable | crates/mutsuki-link-core/src/mux.rs:301-339 | In place, accepts, drops under pressure or refuses as the operation on values does |
| Mux.Multiplexer.NextOutbound | crates/mutsuki-link-core/src/mux.rs:341-381 | In place, control first, then the head frame of the selected channel |
| Mux.Multiplexer.Serve | crates/mutsuki-link-core/src/mux.rs:341-381 | The served state: head removed, tag advanced by the cost, channel re-queued at the back if not empty |
| Mux.Multiplexer.SelectReady | crates/mutsuki-link-core/src/mux.rs:353-362 | The scan returns the unique ready position with the smallest tag, leftmost on a tie |
| Mux.Multiplexer.CancelChannel | crates/mutsuki-link-core/src/mux.rs:383-394 | In place, the cancel operation on values and the number of frames dropped |
| Mux.Multiplexer.CloseChannel | crates/mutsuki-link-core/src/mux.rs:396-412 | In place, the close operation on values, telling closed and unknown ids apart |
| Mux.Multiplexer.DiscardAll | crates/mutsuki-link-core/src/mux.rs:434-443 | In place, empties every queue and returns how many frames were pending |
| Mux.Multiplexer.ChannelsFor | crates/mutsuki-link-core/src/mux.rs:445-460 | The key index answers exactly what a scan of the channel table would, without repetition |
| HandshakeRun.Agreement | crates/mutsuki-link-core/src/handshake.rs:259-393 | In every run of one initiator and one responder over a network that loses, reorders and duplicates but does not forge: each side reports a session at most once; the initiator only after the responder, which had accepted a proof; and the two sessions are equal with local and remote exchanged |
| HandshakeRun.AcceptedProofIsAuthentic | crates/mutsuki-link-core/src/handshake.rs:464-488 | In every run at most one proof is handed to the verifier, and it is the initiator's own, under the responder's nonce and the path the responder holds; a session is reported only after it, under the same path |
| HandshakeRun.RunKeepsInv | crates/mutsuki-link-core/src/handshake.rs:217-534 | Every reachable two-party state satisfies the agreement invariant, from the frames on the network to the sessions reported |
| HandshakeRun.CoherenceIsFree | crates/mutsuki-link-core/src/handshake.rs:259-393 | Delivering any frame that was ever sent keeps both machines in states where the code's unwraps cannot fail |
| HandshakeTerms.OnlyTheEntitled | crates/mutsuki-link-core/src/handshake.rs:395-462 | In every run, under whatever path the responder has sent a challenge, handed out a proof or reported a session: on a trusted reconnect the initiator is one of the trusted peers, on a first pairing pairing is allowed, the hello had no more offers than the responder takes, and the two share a link version and a protocol without contradiction |
| HandshakeTerms.TermsAreShared | crates/mutsuki-link-core/src/handshake.rs:217-534 | In every run challenges, selections and reported sessions carry the greatest link version both admit, exactly the capability bits both have, and exactly the protocols both offer in a shared version, once and in the responder's order |
| HandshakeTerms.HelloVerdict | crates/mutsuki-link-core/src/handshake.rs:395-450 | A hello is answered with a challenge exactly when its offers are within the limit, a link version is shared, the peer is entitled to the path, no offers contradict and one is shared; otherwise the first of these that fails decides the error |
| HandshakeTerms.NegotiationAgrees | crates/mutsuki-link-core/src/handshake.rs:554-590 | Negotiation fails exactly when two first offers of a protocol differ in schema or name, or share a version under capabilities of different protocols; otherwise it selects what the two catalogues share: greatest version, common bits, local order |
| HandshakeTerms.JoinJoins | crates/mutsuki-link-core/src/handshake.rs:554-590 | Two offers that agree join to their greatest shared version and exactly the capability bits both have, word by word |
| HandshakeTerms.StartVerdict | crates/mutsuki-link-core/src/handshake.rs:217-257 | Starting sends the hello of the configuration exactly when the catalogue of the path fits the own limit and every offer in it is sound |
| HandshakeTerms.ChallengeVerdict | crates/mutsuki-link-core/src/handshake.rs:291-299 | A challenge is accepted exactly when its version is admitted, its path is the one asked for and every capability bit is an own one |
| HandshakeTerms.SelectionVerdict | crates/mutsuki-link-core/src/handshake.rs:490-534 | A selection is accepted exactly when it is not empty, within the limit, without repetition, and each entry is allowed by an own offer; the error says which |
| HandshakeTerms.LateVerdicts | crates/mutsuki-link-core/src/handshake.rs:315-386 | A proof is handed on with the peer, path and nonce of this handshake unless it is too long, and a confirmation is accepted exactly when it names the session |
| HandshakeHonest.HonestExchange | crates/mutsuki-link-core/src/handshake.rs:217-534 | An in-order exchange with an accepting verifier establishes both sides, with mirrored sessions, if and only if the two configurations can meet: the offers are sound and few enough for both, the peer is trusted or pairing is allowed as the path asks, the link versions overlap, no protocol both offer contradicts itself, one is shared, and the proof is not too long |
| HandshakeHonest.InitiatorAcceptsItsChallenge | crates/mutsuki-link-core/src/handshake.rs:291-309 | Whatever version and capabilities a responder computes from a hello made by start, the initiator's challenge check accepts |
| HandshakeHonest.InitiatorAcceptsItsSelection | crates/mutsuki-link-core/src/handshake.rs:490-534 | Whatever a responder negotiates from such a hello, the initiator's selection check accepts, including count, distinctness, bounds, subset and version |
| HandshakeSpec.NegotiationMeaning | crates/mutsuki-link-core/src/handshake.rs:554-590 | Negotiation fails exactly when some protocol both offer cannot be joined; otherwise it selects every protocol with an agreed version once, as the join of the two first offers |
| HandshakeSpec.OtherwiseFails | crates/mutsuki-link-core/src/handshake.rs:388-393 | Outside the six expected phase and frame pairs every frame fails the machine, with the peer's reason for a reject |
| HandshakeSpec.StepsStayCoherent | crates/mutsuki-link-core/src/handshake.rs:217-488 | Every call leaves a machine whose phase has the remote identity, path, version or request it will need |
| Handshake.HandshakeMachine.Start | crates/mutsuki-link-core/src/handshake.rs:217-257 | In place, the start operation on values |
| Handshake.HandshakeMachine.Receive | crates/mutsuki-link-core/src/handshake.rs:259-393 | In place, the receive operation on values for every role, phase and frame |
| Handshake.HandshakeMachine.ReceiveHello | crates/mutsuki-link-core/src/handshake.rs:395-462 | In place, the responder's answer to a hello on values |
| Handshake.HandshakeMachine.DecideIdentity | crates/mutsuki-link-core/src/handshake.rs:464-488 | In place, acceptance sends the selection and refusal fails the machine |
| Handshake.HandshakeMachine.ValidateSelection | crates/mutsuki-link-core/src/handshake.rs:490-534 | The loop with its set of seen ids finds the same error as the condition over the whole list |
| Handshake.NegotiateOffers | crates/mutsuki-link-core/src/handshake.rs:554-590 | The loop computes the negotiation function, skipping ids already seen |
| Identity.NegotiateIsGreatestShared | crates/mutsuki-link-core/src/identity.rs:59-70 | Version negotiation finds the greatest version both ranges admit, fails only if there is none, and does not depend on the order of the two sides |
| Capabilities.AndIsBoth | crates/mutsuki-link-core/src/control.rs:153-156 | The intersection of two capability words has exactly the bits both have |
| Capabilities.ContainsIsBit | crates/mutsuki-link-core/src/control.rs:132-151 | Compact channel ids are bit 0 of the word and typed control is bit 5 |
| Capabilities.SubsetIsInclusion | crates/mutsuki-link-core/src/control.rs:158-160 | The mask test on 64-bit capability words decides inclusion bit by bit |
| Capabilities.IntersectGrantsNothingNew | crates/mutsuki-link-core/src/control.rs:233-256 | A capability intersection is within both sides and bounded if either side is |
| FragmentRoundTrip.RoundTrip | crates/ntp-mutsuki-link/src/fragment.rs:130-182 | From any history without an equal or newer pair, one group's fragments in any order with any repetition, among any older traffic: pending until every number has arrived, then complete with exactly the payload, then ignored |
| FragmentRoundTrip.DeliveredExactlyOnce | crates/ntp-mutsuki-link/src/fragment.rs:130-182 | As soon as every fragment has arrived there is one delivery of the group, and only one, carrying the payload |
| FragmentRoundTrip.SenderGroupAccepted | crates/ntp-mutsuki-link/src/fragment.rs:37-82 | The sender's own cut of any payload within the configured limits is such a group |
| FragmentRun.DeliveredWasReceived | crates/ntp-mutsuki-link/src/fragment.rs:130-181 | Soundness for arbitrary traffic: a delivered payload is made of received fragments of its pair, one per number, whose ranges tile it, each fragment's bytes unchanged at its offset |
| FragmentRun.CompletedPairsIncrease | crates/ntp-mutsuki-link/src/fragment.rs:137-147 | Between clears the delivered pairs strictly increase, so nothing is delivered twice |
| FragmentRun.PushAdvances | crates/ntp-mutsuki-link/src/fragment.rs:173-178 | A datagram never forgets a completed pair, and a delivery records one that is new |
| FragmentRun.ReceivedCountsSlots | crates/ntp-mutsuki-link/src/fragment.rs:283-307 | In every reachable state the received counter is the number of filled slots, so equality with the count means full and the counter cannot saturate |
| FragmentVerdicts.PushDecides | crates/ntp-mutsuki-link/src/fragment.rs:130-182 | For any datagram in any reachable state: pairs not later than the completed one are ignored, malformed datagrams refused, pairs older than the pending group ignored, another shape or a differing repetition refused, and anything else stored in its slot alone, in the pending group or a fresh one, which completes exactly when no slot is free and the ranges tile |
| FragmentVerdicts.AlwaysWaiting | crates/ntp-mutsuki-link/src/fragment.rs:130-182 | In every reachable state a pending group still lacks a fragment |
| SendVerdicts.SizeVerdict | crates/ntp-mutsuki-link/src/fragment.rs:23-50 | A payload is cut exactly when it is not empty, within the reassembly limit and no longer than the allowed number of pieces, at most 65535, times the link's datagram less 18 bytes; a link without datagrams is told apart |
| SendVerdicts.OutcomeVerdict | crates/ntp-mutsuki-link/src/fragment.rs:83-109 | The report counts each of the link's answers as often as it came, and a link error or an unsupporting link is an error |
| FragmentCover.SortedWalkDecidesTiling | crates/ntp-mutsuki-link/src/fragment.rs:309-329 | Sorting the ranges by offset, in any order among equals, and walking a cursor succeeds exactly when the ranges tile the buffer without gap or overlap |
| FragmentCover.TilesIgnoresOrder | crates/ntp-mutsuki-link/src/fragment.rs:309-329 | Whether ranges tile a buffer does not depend on their order |
| FragmentSpec.DecodeInvertsEncode | crates/ntp-mutsuki-link/src/fragment.rs:207-254 | An encoded fragment decodes to itself exactly when it is well formed for the receiver's limits, and to nothing otherwise |
| FragmentSpec.EncodeInvertsDecode | crates/ntp-mutsuki-link/src/fragment.rs:207-254 | Every datagram that decodes is the encoding of a well-formed fragment |
| DataLayout.FragmentLayout | crates/ntp-mutsuki-link/src/fragment.rs:63-79 | A fragment on the wire, byte by byte: magic, version, then index, count, offset and total length as big-endian numbers at 6, 8, 10 and 14, the piece from 18 |
| FragmentSpec.SplitSplits | crates/ntp-mutsuki-link/src/fragment.rs:52-82 | Cutting a payload into chunks gives consecutive non-empty pieces, numbered in order, ending at its end, none longer than the chunk |
| FragmentSpec.FragmentCountBounds | crates/ntp-mutsuki-link/src/fragment.rs:47-50 | The fragment count is the least number of chunks that holds the payload, and at least one |
| Fragments.SendFragmented | crates/ntp-mutsuki-link/src/fragment.rs:23-109 | Offers the encoded fragments in order within the datagram limit, stops at the first answer that is not a success, and reports the tally or the error; nothing is sent when a limit refuses the payload |
| Fragments.SendChunks | crates/ntp-mutsuki-link/src/fragment.rs:52-109 | The loop over the chunks with its reused buffer sends a prefix of the split |
| Fragments.Reassembly.Insert | crates/ntp-mutsuki-link/src/fragment.rs:283-303 | Fills one slot in place or refuses a differing repetition, byte for byte as the operation on values |
| Fragments.Reassembly.Finish | crates/ntp-mutsuki-link/src/fragment.rs:309-329 | Collecting, sorting and walking returns the buffer exactly when every slot is filled and the ranges tile it |
| Fragments.Reassembler.Push | crates/ntp-mutsuki-link/src/fragment.rs:130-182 | In place, the push operation on values, the completed pair being recorded even when finishing fails |
| Fragments.Reassembler.Clear | crates/ntp-mutsuki-link/src/fragment.rs:125-128 | Forgets both the partial group and the completed pair |
| Fragments.InsertTwice | crates/ntp-mutsuki-link/src/fragment.rs:156-170 | A new group stores its first fragment and then meets it again as an identical repetition, which changes nothing |
| ControlCodecSpec.DecodeInvertsEncode | crates/mutsuki-link-core/src/control.rs:674-764 | Decoding an encoded envelope gives it back, for every payload and with a remote error's local message left out |
| ControlCodecSpec.EncodeInvertsDecode | crates/mutsuki-link-core/src/control.rs:674-764 | Encoding a decoded frame gives the same bytes: accepted frames are canonical |
| ControlCodecSpec.EncodeSucceeds | crates/mutsuki-link-core/src/control.rs:674-711 | Encoding fails only for the mode, the version, the opcode or the payload's own checks; the 64 KiB check never fires because no payload exceeds 13,377 bytes |
| ControlCodecSpec.ExtensionRefused | crates/mutsuki-link-core/src/control.rs:740-757 | A valid frame with anything appended is refused as trailing bytes |
| ControlCodecSpec.PrefixRefused | crates/mutsuki-link-core/src/control.rs:717-750 | A valid frame cut anywhere is refused as truncated |
| WireLayout.BigEndian | crates/mutsuki-link-core/src/control.rs:1044-1054 | Numbers of two, four and eight bytes are written and read most significant byte first: b0 * 2^24 + b1 * 2^16 + b2 * 2^8 + b3 |
| ControlLayout.ControlFrameLayout | crates/mutsuki-link-core/src/control.rs:674-711 | A control frame byte by byte: magic, version at 4, message number at 6, flags at 8, request at 10, session presence at 18 and id at 19, payload length at 35, payload from 39 |
| ControlLayout.FixedPayloadLayout | crates/mutsuki-link-core/src/control.rs:766-857 | Every field of every payload of fixed size at its position, with the numbers of domains, operations and retry advice |
| ControlLayout.CodesAgree | crates/mutsuki-link-core/src/control.rs:258-292 | The eleven message numbers, for frames and for the operation an error names |
| ControlLayout.OfferListLayout | crates/mutsuki-link-core/src/control.rs:782-802 | A list of offers is its length and then each offer where the ones before it end |
| ControlLayout.OfferLayout | crates/mutsuki-link-core/src/control.rs:782-802 | An offer is id, debug identity, version range, schema and capabilities, back to back |
| ControlLayout.SelectionListLayout | crates/mutsuki-link-core/src/control.rs:803-818 | A list of selections likewise |
| ControlLayout.SelectionLayout | crates/mutsuki-link-core/src/control.rs:803-818 | A selection is id, version, schema and capabilities, back to back |
| ControlLayout.IdentityLayout | crates/mutsuki-link-core/src/control.rs:1096-1112 | A debug identity is a zero byte, or a one and two strings after their lengths |
| ControlLayout.SchemaLayout | crates/mutsuki-link-core/src/control.rs:1078-1082 | A schema is id, revision and fingerprint |
| ControlLayout.CapabilitiesLayout | crates/mutsuki-link-core/src/control.rs:1084-1094 | Capabilities are id, number of words and the words in order |
| ControlVerdicts.EncodeVerdict | crates/mutsuki-link-core/src/control.rs:674-711 | An envelope is encoded exactly in typed mode, in version 1, under the number of its payload, and with a well-made payload; the first failing check decides the error |
| ControlVerdicts.WellMadeIsAccepted | crates/mutsuki-link-core/src/control.rs:766-857 | The writer's checks on a payload say: versions ordered, revisions and channel numbers not zero, at most 32 distinct protocols of at most 8 capability words, names canonical, within 128 bytes and matching their id |
| ControlVerdicts.DecodeVerdict | crates/mutsuki-link-core/src/control.rs:713-764 | A frame is refused for the first thing wrong at its places, and otherwise decodes exactly when the rest is a well-made payload of the announced kind, to what the places say |
| ControlVerdicts.ReadingVerdict | crates/mutsuki-link-core/src/control.rs:859-991 | Inside a payload a count or length beyond its limit is a limit error, a wrong tag or text an invalid payload, and anything missing a truncation |
| ControlVerdicts.DottedIsWords | crates/mutsuki-link-core/src/control.rs:68-72 | The byte-wise check of an authority accepts exactly words of lower-case letters, digits, hyphens and underscores joined by single dots |
| ControlCodecSpec.PayloadGives | crates/mutsuki-link-core/src/control.rs:766-957 | Reading a written payload of any kind gives it back and leaves nothing |
| ControlCodecSpec.PayloadCame | crates/mutsuki-link-core/src/control.rs:859-991 | A payload that was read passes the writer's checks and its bytes are what the writer would have written |
| ControlCodecSpec.WritePayload | crates/mutsuki-link-core/src/control.rs:766-857 | No accepted payload is longer than 13,377 bytes |
| ControlCodecSpec.HeaderGives | crates/mutsuki-link-core/src/control.rs:713-749 | Reading a written header gives it back before any rest, session id absent or present |
| ControlCodecSpec.HeaderCame | crates/mutsuki-link-core/src/control.rs:713-749 | An accepted header is the written form of what was read, so an absent session id has exactly one form |
| ControlSpec.OpcodeRoundTrip | crates/mutsuki-link-core/src/control.rs:258-292 | The opcode mappings are inverse in both directions and never collide with the code for no operation |
| ControlSpec.DomainRoundTrip | crates/mutsuki-link-core/src/control.rs:993-1012 | The error domain mappings are inverse in both directions |
| ControlSpec.RetryRoundTrip | crates/mutsuki-link-core/src/control.rs:1014-1029 | The retry mappings are inverse in both directions |
| ControlSpec.OffersGive | crates/mutsuki-link-core/src/control.rs:782-802 | Reading the offers a list was written as gives the list back, with the duplicate, capability and name checks passing |
| ControlSpec.OffersCame | crates/mutsuki-link-core/src/control.rs:878-905 | A list of offers that was read passes every check of the writer and is its written form |
| ControlSpec.SelectionsGive | crates/mutsuki-link-core/src/control.rs:803-818 | The same for selections: reading what was written |
| ControlSpec.SelectionsCame | crates/mutsuki-link-core/src/control.rs:906-926 | The same for selections: writing what was read |
| CodecSpec.CapabilitiesGive | crates/mutsuki-link-core/src/control.rs:1084-1094 | Reading written capability words gives them back |
| CodecSpec.CapabilitiesCame | crates/mutsuki-link-core/src/control.rs:1210-1218 | Capabilities that were read are bounded and are their written form |
| CodecSpec.IdentityGives | crates/mutsuki-link-core/src/control.rs:1096-1112 | Reading a written debug identity gives it back, since canonical names are valid UTF-8 |
| CodecSpec.IdentityCame | crates/mutsuki-link-core/src/control.rs:1220-1240 | A debug identity that was read is its written form, with both strings within the limit |
| CodecSpec.RangeCame | crates/mutsuki-link-core/src/control.rs:1186-1192 | A version range that was read is valid and is its written form |
| CodecSpec.SchemaCame | crates/mutsuki-link-core/src/control.rs:1198-1208 | A schema that was read has a revision and is its written form |
| ControlCodec.EncodeControlEnvelope | crates/mutsuki-link-core/src/control.rs:674-711 | Writing a zero length first and filling it in after the payload gives the encoded frame |
| ControlCodec.DecodeControlEnvelope | crates/mutsuki-link-core/src/control.rs:713-764 | The two cursors give the decoded envelope, or the first error in the code's order |
| ControlCodec.EncodePayload | crates/mutsuki-link-core/src/control.rs:766-857 | In place, appends the payload's bytes or reports why the payload is refused |
| ControlCodec.DecodePayload | crates/mutsuki-link-core/src/control.rs:859-991 | In place, the parser of the opcode: the same value and remaining bytes, or the same error |
| ControlCodec.Writer.Offers | crates/mutsuki-link-core/src/control.rs:782-802 | The loop with its set of seen ids reports the first offer that is wrong, or appends the whole list |
| ControlCodec.Writer.Selections | crates/mutsuki-link-core/src/control.rs:803-818 | The same loop for selections |
| ControlCodec.Reader.Offers | crates/mutsuki-link-core/src/control.rs:878-905 | The loop with its set of seen ids reads the list the parser reads, or stops at the same error |
| ControlCodec.Reader.Selections | crates/mutsuki-link-core/src/control.rs:906-926 | The same loop for selections |
| ControlCodec.Reader.Take | crates/mutsuki-link-core/src/control.rs:1139-1150 | Advances by exactly the requested bytes or reports truncation |
| ControlCodec.Reader.Capabilities | crates/mutsuki-link-core/src/control.rs:1210-1218 | The word loop reads what the parser reads |
| ControlCodec.Reader.Text | crates/mutsuki-link-core/src/control.rs:1231-1240 | A length within the limit and well-formed UTF-8, or the matching error |
| ControlCodec.Writer.Capabilities | crates/mutsuki-link-core/src/control.rs:1084-1094 | Appends id, count and words, or refuses more than eight words |
| DataCodecSpec.DecodeInvertsEncode | crates/mutsuki-link-core/src/data.rs:142-223 | Under the same limits every encoded envelope decodes to itself |
| DataCodecSpec.EncodeInvertsDecode | crates/mutsuki-link-core/src/data.rs:142-223 | Under the same limits every accepted frame is the encoding of what it decodes to |
| DataCodecSpec.ExtensionRefused | crates/mutsuki-link-core/src/data.rs:205-213 | A valid data frame with anything appended is refused as trailing bytes |
| DataCodecSpec.PrefixRefused | crates/mutsuki-link-core/src/data.rs:169-213 | A valid data frame cut anywhere is refused as truncated |
| DataLayout.DataFrameLayout | crates/mutsuki-link-core/src/data.rs:142-166 | A data frame byte by byte: magic, version and kind, session at 7, channel at 23, generation at 27, sequence at 31, nesting depth at 39, flags at 41, payload length at 43, payload from 47 |
| DataLayout.DataEncodes | crates/mutsuki-link-core/src/data.rs:142-166 | An envelope is encoded exactly in compact mode, off the control channel, in a real generation and within the limits |
| DataVerdicts.DecodeVerdict | crates/mutsuki-link-core/src/data.rs:169-223 | A data frame decodes to what its places say unless one of the listed complaints applies, and the first decides the error |
| DataVerdicts.EncodeVerdict | crates/mutsuki-link-core/src/data.rs:142-166 | An envelope is refused for the mode, then the channel or generation, then a limit |
| DataCodecSpec.FlagsRoundTrip | crates/mutsuki-link-core/src/data.rs:237-249 | The two flags and their bits are inverse, and unknown bits are refused |
| DataCodec.EncodeInto | crates/mutsuki-link-core/src/data.rs:142-166 | Replaces the caller's storage by the frame, or leaves it untouched when the envelope is refused |
| ChannelMapSpec.BoundValid | crates/mutsuki-link-core/src/control.rs:371-404 | A binding the checks accept keeps the two indexes mutually inverse and overwrites nothing in either |
| ChannelMapSpec.UnboundValid | crates/mutsuki-link-core/src/control.rs:442-451 | Unbinding removes the pair from both indexes, retires the id and stays within the bound on lifetime bindings |
| ChannelMap.SessionChannelMap.New | crates/mutsuki-link-core/src/control.rs:351-361 | Only a bound between 1 and 128 is accepted |
| ChannelMap.SessionChannelMap.ValidateBind | crates/mutsuki-link-core/src/control.rs:389-404 | The refusals in the code's order |
| ChannelMap.SessionChannelMap.Bind | crates/mutsuki-link-core/src/control.rs:363-369 | In place, binds in both indexes or reports the refusal and changes nothing |
| ChannelMap.SessionChannelMap.BindValidated | crates/mutsuki-link-core/src/control.rs:371-386 | In place, the bound map and its binding |
| ChannelMap.SessionChannelMap.Unbind | crates/mutsuki-link-core/src/control.rs:442-451 | In place, the unbound map and the protocol channel that was freed |
| SessionRun.MapAndMultiplexerAgree | crates/mutsuki-link-core/src/session.rs:209-282 | In every reachable compact session the map holds exactly the open channels under their own protocol channel and generation, the retired ids are the same, and the indexes are inverse; a legacy session's map stays empty |
| SessionRun.BindingForLife | crates/mutsuki-link-core/src/session.rs:209-282 | A session channel id bound at two moments of a run is bound to the same protocol channel, and once closed it is never bound again |
| SessionRun.ChannelLife | crates/mutsuki-link-core/src/session.rs:209-282 | Over any run an id is unused, then open with one configuration, then retired for good |
| SessionRun.StepKeepsValid | crates/mutsuki-link-core/src/session.rs:209-361 | Every call of a session keeps the map and the multiplexer in step and both valid |
| SessionRun.ModeIsFixed | crates/mutsuki-link-core/src/session.rs:143-180 | The control and data modes and the negotiated protocols never change after establishment |
| SessionRun.EndsOnce | crates/mutsuki-link-core/src/session.rs:318-361 | Over any run exactly one closing event is published if the session has ended, and none otherwise |
| SessionRun.EndIsSilent | crates/mutsuki-link-core/src/session.rs:340-372 | After the end nothing is pending, nothing is published and no frame is handed out, whatever is called, and the reason stands |
| SessionRun.GracefulMeansDrained | crates/mutsuki-link-core/src/session.rs:330-338 | In any run that ends gracefully without a caller failing the session with that reason, draining was finished at a moment when nothing was pending, and the ending announced there is the last thing published |
| SessionVerdicts.ModesFollowCapabilities | crates/mutsuki-link-core/src/session.rs:143-180 | In every run control is typed exactly when bit 5 of the capability word is set, channel ids are compact exactly when bit 0 is set as well, and channels are restricted to the selected protocols in their selected versions |
| SessionVerdicts.StartsEmpty | crates/mutsuki-link-core/src/session.rs:143-180 | A session starts established, with nothing open, queued, mapped or used up |
| SessionVerdicts.OpenVerdict | crates/mutsuki-link-core/src/session.rs:209-276 | Opening a compact or a legacy channel is refused for the first of: session not active, wrong mode, a channel that does not belong to a selected protocol as it was validated, the map's complaint, the multiplexer's complaint |
| SessionVerdicts.OpenEffect | crates/mutsuki-link-core/src/session.rs:209-276 | An opened channel is added under its own configuration, and in compact mode bound to its owner |
| SessionVerdicts.DrainVerdict | crates/mutsuki-link-core/src/session.rs:318-338 | Draining begins only from established and finishes only when draining with nothing pending, each with its events |
| SessionVerdicts.EndVerdict | crates/mutsuki-link-core/src/session.rs:340-361 | Aborting or failing a live session discards what is pending, records the reason and publishes two events; on an ended one neither does anything |
| SessionVerdicts.DataPlaneVerdict | crates/mutsuki-link-core/src/session.rs:284-425 | The data plane takes frames only while the session is established or draining and hands them out at any time |
| SessionVerdicts.LifeAdvances | crates/mutsuki-link-core/src/session.rs:318-361 | Over every run a session only advances from established to draining to ended, and how it ended never changes |
| Sessions.LiveSession.FromHandshake | crates/mutsuki-link-core/src/session.rs:143-180 | A negotiated session starts established and empty, with modes selected by its capabilities |
| Sessions.LiveSession.OpenValidatedChannel | crates/mutsuki-link-core/src/session.rs:209-244 | In place, opens in the multiplexer and binds in the map together, or changes neither |
| Sessions.LiveSession.OpenLegacyValidatedChannel | crates/mutsuki-link-core/src/session.rs:249-276 | In place, opens in the multiplexer alone, only in legacy mode |
| Sessions.LiveSession.CloseChannel | crates/mutsuki-link-core/src/session.rs:278-282 | In place, closes in the multiplexer and unbinds in the map together |
| Sessions.LiveSession.BeginDrain | crates/mutsuki-link-core/src/session.rs:318-328 | Only from the established state, with one event |
| Sessions.LiveSession.FinishDrain | crates/mutsuki-link-core/src/session.rs:330-338 | Only when draining with nothing pending, with the two closing events in order |
| Sessions.LiveSession.Abort | crates/mutsuki-link-core/src/session.rs:340-346 | Discards everything and closes once |
| Sessions.LiveSession.FailWith | crates/mutsuki-link-core/src/session.rs:348-354 | Discards everything and fails once with the given reason |
| Sessions.LiveSession.Enqueue | crates/mutsuki-link-core/src/session.rs:400-403 | Refused outside the active states, otherwise the multiplexer's answer |
| Sessions.LiveSession.EnqueueDiscardable | crates/mutsuki-link-core/src/session.rs:405-411 | Refused outside the active states, otherwise the multiplexer's answer |
| Sessions.LiveSession.EnqueueControl | crates/mutsuki-link-core/src/session.rs:413-416 | Refused outside the active states, otherwise the multiplexer's answer |
| Sessions.LiveSession.NextOutbound | crates/mutsuki-link-core/src/session.rs:418-420 | Taking frames is allowed in every state |
| Sessions.LiveSession.CancelChannel | crates/mutsuki-link-core/src/session.rs:422-425 | Refused outside the active states, otherwise the multiplexer's answer |
| EventBusSpec.BusRefinesLog | crates/mutsuki-link-core/src/session.rs:81-124 | For a subscriber of any run, reading each gap as that many events makes what it received a prefix of what was published since it subscribed, with its pending loss and queue exactly the rest, if and only if no event met a full queue with the loss counter at its ceiling |
| EventBusSpec.EveryEventCounted | crates/mutsuki-link-core/src/session.rs:81-124 | In every run the events published to a subscriber are, in number, those delivered, those in delivered gaps, the pending loss, the queue, and those that met the ceiling of the loss counter |
| EventBusSpec.ShortForever | crates/mutsuki-link-core/src/session.rs:81-124 | An account that has fallen short never recovers while the subscription lasts |
| EventBusSpec.SilentSubscriber | crates/mutsuki-link-core/src/session.rs:81-124 | A subscriber with room for one event that never reads: its account holds through event 2^64 and from the next one on falls short by one more each time |
| EventBusSpec.SaturatedLossIsLost | crates/mutsuki-link-core/src/session.rs:106-114 | At the ceiling one more event makes a subscriber's account fall short by exactly that event |
| EventBusSpec.PublishAccounts | crates/mutsuki-link-core/src/session.rs:106-114 | One published event keeps a subscriber's account, also when the full queue drops its oldest, if and only if the loss counter is below its ceiling |
| EventBusSpec.TakeAccounts | crates/mutsuki-link-core/src/session.rs:116-124 | One taken item, event or gap, keeps a subscriber's account |
| EventBusSpec.TakingDrains | crates/mutsuki-link-core/src/session.rs:116-124 | Taking until nothing is left gives the pending loss and then every queued event in order: nothing outstanding is withheld |
| EventBusSpec.SubscriptionVerdict | crates/mutsuki-link-core/src/session.rs:81-104 | A subscription is refused for a zero capacity, lack of room or lack of ids, in this order, and otherwise starts empty under the next id; unsubscribing removes that id alone |
| EventBusSpec.OthersUntouched | crates/mutsuki-link-core/src/session.rs:106-124 | A published event becomes every subscriber's newest, without a loss while there is room, and taking touches no other subscriber |
| EventBus.SessionEventBus.Subscribe | crates/mutsuki-link-core/src/session.rs:81-104 | A fresh id and an empty queue, or the refusal, ids never being reused |
| EventBus.SessionEventBus.Publish | crates/mutsuki-link-core/src/session.rs:106-114 | The loop offers the event to every subscriber whatever their state |
| EventBus.SessionEventBus.Next | crates/mutsuki-link-core/src/session.rs:116-124 | The pending loss first, then the oldest queued event |
| EventBus.SessionEventBus.Unsubscribe | crates/mutsuki-link-core/src/session.rs:126-128 | Removes the subscriber and says whether there was one |
| RegistrySession.RegistryChannelOpens | crates/mutsuki-link-core/src/protocol.rs:394-434 | In a session whose protocols the registry activated, a channel the registry hands out always matches the session, and it opens if and only if the session is active in compact mode, the id is fresh, the protocol channel is unbound and both tables have room |
| RegistrySpec.NegotiatorsAgree | crates/mutsuki-link-core/src/protocol.rs:262-301 | The registry's own negotiation and the handshake's negotiation over its offers give the same selections in the same order and fail on the same remote lists |
| RegistrySpec.NegotiatedActivates | crates/mutsuki-link-core/src/protocol.rs:262-355 | Whatever either negotiation selects, activation accepts |
| RegistrySpec.ValidatedActivates | crates/mutsuki-link-core/src/protocol.rs:303-355 | Whatever selection the handshake's check accepts against the registry's offers, activation accepts |
| RegistrySpec.AcceptableActivates | crates/mutsuki-link-core/src/protocol.rs:303-355 | Distinct selections within the offers activate, each protocol active exactly as selected |
| RegistrySpec.RegisteredOk | crates/mutsuki-link-core/src/protocol.rs:150-177 | Registration keeps only valid descriptors, distinct and ordered by id, and never exceeds the protocol or channel limits |
| RegistrySpec.InsertKeepsSorted | crates/mutsuki-link-core/src/protocol.rs:150-177 | Inserting a new id keeps the descriptors in strict id order |
| RegistryVerdicts.RegisterVerdict | crates/mutsuki-link-core/src/protocol.rs:150-177 | A known id is refused by what differs, a new one by what is wrong with the descriptor or for lack of room; otherwise exactly that descriptor is added and its channels counted |
| RegistryVerdicts.DescriptorVerdict | crates/mutsuki-link-core/src/protocol.rs:186-241 | The first thing wrong with a descriptor decides: name, versions, schema, capabilities, number of channels, then a channel that does not fit or repeats a number or name |
| RegistryVerdicts.NegotiationVerdict | crates/mutsuki-link-core/src/protocol.rs:262-301 | A failing negotiation reports the contradiction of the first descriptor that has one with the peer's first offer of its protocol |
| RegistryVerdicts.ActivateVerdict | crates/mutsuki-link-core/src/protocol.rs:303-355 | A selection activates exactly when its protocol is new and registered with that schema, and its capability bits and version are within what is registered; the error says which |
| RegistrySession.RequestVerdict | crates/mutsuki-link-core/src/protocol.rs:394-434 | A channel request is refused for an inactive protocol, an unknown channel or a capacity out of range, and otherwise yields the registered channel under the negotiated terms |
| Registry.ProtocolRegistry.New | crates/mutsuki-link-core/src/protocol.rs:139-148 | Refuses invalid limits |
| Registry.ProtocolRegistry.Register | crates/mutsuki-link-core/src/protocol.rs:150-177 | In place, registers or reports the conflict, validation or limit error in the code's order |
| Registry.ProtocolRegistry.ValidateDescriptor | crates/mutsuki-link-core/src/protocol.rs:186-241 | The first complaint about a descriptor, in the code's order |
| Registry.ProtocolRegistry.ValidateChannels | crates/mutsuki-link-core/src/protocol.rs:214-241 | The loop with its sets of seen numbers and names finds the first invalid or repeated channel |
| Registry.ProtocolRegistry.ToFrozen | crates/mutsuki-link-core/src/protocol.rs:179-184 | The frozen registry has the registered descriptors and the protocol limit as its bound on remote offers |
| Registry.Negotiate | crates/mutsuki-link-core/src/protocol.rs:262-301 | The loop computes the registry's negotiation, stopping at the first conflict |
| Registry.ActivateSelections | crates/mutsuki-link-core/src/protocol.rs:303-355 | The loop computes the activation, stopping at the first refusal |
| RealtimeRun.Conservation | crates/mutsuki-link-core/src/realtime.rs:209-513 | Over every run each accepted call is popped, pending, replaced, expired, dropped for congestion or cleared, and the true totals are the sums of the true per-flow counts; the saturating totals show these numbers while fewer than 2^64 calls were accepted |
| RealtimeRun.StatisticsAddUp | crates/mutsuki-link-core/src/realtime.rs:209-513 | Each saturating total is the sum of the flows' saturating counters if and only if the true total is at most 2^64 - 1 or all of it is one flow's; for all but the two statistics of sent datagrams that is so while fewer than 2^64 calls were accepted |
| RealtimeRun.Bounds | crates/mutsuki-link-core/src/realtime.rs:209-439 | In every reachable state: at most the configured max_flows groups, each with 1 to max_datagrams_per_group datagrams and at most the larger of max_group_bytes and the payload limit pending |
| RealtimeRun.PoppedWasSubmitted | crates/mutsuki-link-core/src/realtime.rs:279-323 | Every popped datagram was submitted with exactly this flow, generation, sequence and payload, and leaves strictly before the deadline it was submitted with |
| RealtimeDecisions.EnqueueDecides | crates/mutsuki-link-core/src/realtime.rs:209-268 | The decision table of enqueue over the live groups: too long, expired, same pair extended or overflowed, later pair replacing, older refused, room, eviction or refusal, each with exactly the groups it leaves |
| RealtimeDecisions.EvictsExactly | crates/mutsuki-link-core/src/realtime.rs:234-248 | A new flow on a queue full of live groups is let in if and only if a less urgent group is pending; then exactly one group is gone, the least urgent and of those the oldest, and otherwise the groups are unchanged |
| RealtimeDecisions.EnqueueCounts | crates/mutsuki-link-core/src/realtime.rs:209-268 | Every datagram is counted where it went, flow by flow: queued or refused, replaced, expired, or dropped for room or with an overflowing group |
| RealtimeDecisions.PopNextServesFirst | crates/mutsuki-link-core/src/realtime.rs:279-283 | The popped group is the most urgent, then oldest, then of the smallest flow, its head leaves under the group's pair, deadline and priority, and nothing is popped only when nothing live is pending |
| RealtimeDecisions.PopFittingNeverSkipsUrgent | crates/mutsuki-link-core/src/realtime.rs:285-306 | Under a send budget only a head of the most urgent pending priority is served, the oldest of those that fit, and one is served exactly when one of them fits |
| RealtimeDecisions.PeekAnnouncesPop | crates/mutsuki-link-core/src/realtime.rs:270-277 | The announced size is the payload of the datagram the next pop would take plus twenty bytes |
| RealtimeDecisions.ServingCounts | crates/mutsuki-link-core/src/realtime.rs:270-306 | Taking or announcing a datagram counts what expired first, flow by flow, and nothing else |
| RealtimeDecisions.CongestionDropsDisposable | crates/mutsuki-link-core/src/realtime.rs:342-354 | Congestion drops exactly the disposable groups and counts their datagrams as congested |
| RealtimeDecisions.LimitDropsLonger | crates/mutsuki-link-core/src/realtime.rs:356-385 | A smaller limit drops exactly the groups with a datagram beyond it, as congested; a larger one drops nothing and zero is refused |
| RealtimeDecisions.SentIsCounted | crates/mutsuki-link-core/src/realtime.rs:325-336 | A reported transmission is counted, with its bytes, for its flow alone |
| RealtimeDecisions.NewVerdict | crates/mutsuki-link-core/src/realtime.rs:166-183 | A queue is refused exactly for a zero limit and starts with nothing pending or counted |
| RealtimeRun.LatestOnly | crates/mutsuki-link-core/src/realtime.rs:226-267 | While a flow stays pending its group shows the latest of the producer's positions submitted for it, and that is the maximum of them, through any number of wraps, provided each is within half the range of the latest before it |
| RealtimeRun.OneNearPosition | crates/mutsuki-link-core/src/realtime.rs:529-558 | Every generation and sequence is shown by exactly one position within half the range of a given one, a sequence of another generation being counted from zero, so such positions exist for any datagrams |
| RealtimeRun.CompareDecides | crates/mutsuki-link-core/src/realtime.rs:529-558 | Between positions within half the range, comparing their circular generation and sequence gives equal, newer or older exactly as the positions are |
| RealtimeRun.GroupAdvances | crates/mutsuki-link-core/src/realtime.rs:226-267 | A flow that stays pending keeps its group's pair, or moves to the pair of the datagram just submitted, which happens exactly when that is within limits and circularly newer |
| RealtimeRun.GroupIsFifo | crates/mutsuki-link-core/src/realtime.rs:308-439 | While a flow keeps its group, what the group held followed by what was added is what was popped followed by what it still holds |
| RealtimeDelivery.DeliveredWhole | crates/ntp-mutsuki-link/src/fragment.rs:23-182 | End to end: if a payload's fragments are submitted as one realtime group that lasts until its last datagram is served, and the link brings each served datagram at least once in any order among any older traffic, the receiver delivers exactly the payload, exactly once |
| RealtimeDelivery.GroupServed | crates/mutsuki-link-core/src/realtime.rs:209-323 | A group that is started, kept and served to its end hands over exactly the payloads put into it, in order and under its own pair |
| RealtimeDelivery.UndisturbedServed | crates/mutsuki-link-core/src/realtime.rs:209-323 | A new queue with room for a whole group meets those conditions when the group is submitted and then served without anything in between |
| RealtimeRun.NumbersAreAges | crates/mutsuki-link-core/src/realtime.rs:226-267 | A pending group's number is the count of groups made before it modulo 2^64, so of two groups made fewer than 2^64 groups apart the older has the smaller number exactly when the counter did not wrap in between |
| RealtimeRun.OlderServedFirstExactly | crates/mutsuki-link-core/src/realtime.rs:226-283 | After n earlier groups the older of two equally urgent groups is popped first if and only if it does not take the last number before the counter wraps |
| RealtimeRun.SerialOrder | crates/mutsuki-link-core/src/realtime.rs:529-558 | Circular comparison reads the difference modulo the range; for differences of less than a whole range it agrees with integer comparison exactly when the difference is at least minus half and below plus half the range |
| RealtimeInvariant.EnqueueKeeps | crates/mutsuki-link-core/src/realtime.rs:209-268 | Every accepted call adds one to the books, through expiry, refusal, replacement, eviction and group overflow, and keeps the bounds |
| RealtimeInvariant.PopFlowKeeps | crates/mutsuki-link-core/src/realtime.rs:308-323 | A pop takes one from the books and keeps the bounds, the group's recorded size still covering what is pending |
| RealtimeInvariant.SetMaxPayloadKeeps | crates/mutsuki-link-core/src/realtime.rs:356-385 | Shrinking the limit drops every group that no longer fits and keeps the books balanced |
| RealtimeInvariant.DropOneMore | crates/mutsuki-link-core/src/realtime.rs:448-486 | Dropping flows one by one in any order is dropping them all at once |
| RealtimeSpec.ServiceChosen | crates/mutsuki-link-core/src/realtime.rs:441-446 | A pending queue always has a next flow, and it is first in service order |
| RealtimeSpec.VictimChosen | crates/mutsuki-link-core/src/realtime.rs:460-473 | If any pending group is less urgent than the arriving datagram there is a victim, and it is the least urgent, oldest one |
| Realtime.RealtimeSendQueue.constructor | crates/mutsuki-link-core/src/realtime.rs:166-183 | An empty queue with zero counters |
| Realtime.RealtimeSendQueue.Enqueue | crates/mutsuki-link-core/src/realtime.rs:209-268 | In place, the enqueue operation on values, counters saturating |
| Realtime.RealtimeSendQueue.AppendToGroup | crates/mutsuki-link-core/src/realtime.rs:416-439 | In place, extends the group or drops it whole with the arriving datagram |
| Realtime.RealtimeSendQueue.EvictLowerPriority | crates/mutsuki-link-core/src/realtime.rs:460-473 | In place, drops the least urgent, oldest group below the arriving priority, if any |
| Realtime.RealtimeSendQueue.Expire | crates/mutsuki-link-core/src/realtime.rs:448-458 | In place, drops every group whose deadline has come |
| Realtime.RealtimeSendQueue.DropFlows | crates/mutsuki-link-core/src/realtime.rs:448-486 | The loop over the doomed flows has the effect of dropping them all at once and counts them |
| Realtime.RealtimeSendQueue.PopNext | crates/mutsuki-link-core/src/realtime.rs:279-283 | In place, the pop operation on values |
| Realtime.RealtimeSendQueue.PopNextFitting | crates/mutsuki-link-core/src/realtime.rs:285-306 | In place, the budgeted pop operation on values |
| Realtime.RealtimeSendQueue.PeekNextWireLen | crates/mutsuki-link-core/src/realtime.rs:270-277 | The wire length of what the next pop would take |
| Realtime.RealtimeSendQueue.PendingDatagrams | crates/mutsuki-link-core/src/realtime.rs:189-194 | The sum over the groups |
| Realtime.RealtimeSendQueue.SetMaxPayload | crates/mutsuki-link-core/src/realtime.rs:356-385 | In place, the limit change on values |
| Realtime.RealtimeSendQueue.DropDisposableForCongestion | crates/mutsuki-link-core/src/realtime.rs:342-354 | In place, drops exactly the disposable groups and counts their datagrams |
| Realtime.RealtimeSendQueue.NoteSent | crates/mutsuki-link-core/src/realtime.rs:325-336 | In place, counts a sent datagram for the queue and its flow |
| Realtime.RealtimeSendQueue.ClearPending | crates/mutsuki-link-core/src/realtime.rs:412-414 | In place, drops everything and counts nothing |
| Realtime.LeastOf | crates/mutsuki-link-core/src/realtime.rs:441-446 | Scanning ranked flows in any order finds the least |
| RealtimeWire.DecodeInvertsEncode | crates/mutsuki-link-core/src/realtime.rs:560-602 | Every datagram survives the wire, and its flow can be read on its own |
| RealtimeWire.EncodeInvertsDecode | crates/mutsuki-link-core/src/realtime.rs:560-602 | Every accepted datagram is the encoding of what it decodes to |
| DataLayout.RealtimeLayout | crates/mutsuki-link-core/src/realtime.rs:560-576 | A realtime datagram byte by byte: magic and version, priority at 5, flow at 6, generation at 8, sequence at 12, payload from 20 |
| LimiterClock.TableRefinesHistory | crates/mutsuki-link-pairing/src/rate_limit.rs:63-91 | With a clock that never goes back, or never goes forward, the bounded table decides every attempt of every run exactly as a rule over everything ever admitted, and so admits the same attempts |
| LimiterWindow.NeverMoreThanMaximum | crates/mutsuki-link-pairing/src/rate_limit.rs:63-91 | With a steady clock, in no stretch of time as long as the window does the table admit more than the maximum number of attempts of any peer; steady means that no reading is further ahead of an earlier one than a later reading is away from that one, nor further ahead of an earlier one than a reading before that and two readings from then on lie apart |
| LimiterWindow.BoundExactly | crates/mutsuki-link-pairing/src/rate_limit.rs:63-91 | For given clock readings that bound holds, whatever the limits, whoever makes the attempts and wherever the stretch begins, if and only if the readings are steady |
| LimiterWindow.ComingBackExceeds | crates/mutsuki-link-pairing/src/rate_limit.rs:63-91 | When the clock comes back near a reading after having been a window ahead of it, the table can admit two attempts inside a window where one is allowed |
| LimiterWindow.FallingBehindExceeds | crates/mutsuki-link-pairing/src/rate_limit.rs:63-91 | When a lower reading hides an earlier entry from the retention check, the table can admit three attempts inside a window where two are allowed |
| LimiterWindow.MonotoneIsSteady | crates/mutsuki-link-pairing/src/rate_limit.rs:63-91 | A clock that never goes back, or never goes forward, is steady |
| LimiterWindow.SteadyMayTurn | crates/mutsuki-link-pairing/src/rate_limit.rs:63-91 | Steadiness asks for less than that: the readings 10, 11, 0 turn and are steady |
| LimiterClock.TableBounded | crates/mutsuki-link-pairing/src/rate_limit.rs:63-91 | Whatever the clock does, the table tracks no more peers than allowed and keeps between one and the maximum of entries for each |
| LimiterWindow.ClockBackExceeds | crates/mutsuki-link-pairing/src/rate_limit.rs:63-91 | The smallest such clock: the readings 5, 20, 5 let the table admit two attempts of a peer at one moment where one is allowed |
| LimiterClock.DecidesExactly | crates/mutsuki-link-pairing/src/rate_limit.rs:63-91 | For given clock readings the table decides as the full history would, whatever the limits and whoever makes the attempts, if and only if the readings never go back or never go forward |
| LimiterSpec.RetainedIsLive | crates/mutsuki-link-pairing/src/rate_limit.rs:71-75 | Dropping idle queues keeps exactly the peers admitted inside the window |
| LimiterSpec.TrimIsRecent | crates/mutsuki-link-pairing/src/rate_limit.rs:80-85 | Popping old entries off the front leaves exactly the admissions inside the window |
| Limiter.AdmitPeer | crates/mutsuki-link-pairing/src/rate_limit.rs:63-91 | The routine with its retain, pop and push computes the table operation |
| Limiter.PairingAttemptLimiter.New | crates/mutsuki-link-pairing/src/rate_limit.rs:21-34 | Refuses any zero limit |
| Limiter.PairingAttemptLimiter.Begin | crates/mutsuki-link-pairing/src/rate_limit.rs:36-45 | In place, one attempt against the attempts table, the failures table untouched |
| Limiter.PairingAttemptLimiter.RecordFailure | crates/mutsuki-link-pairing/src/rate_limit.rs:47-61 | In place, one failure against the failures table, the attempts table untouched |
| Limiter.AttemptRateLimiter.Allow | crates/mutsuki-link-discovery/src/lib.rs:115-136 | The discovery crate's own loop computes the same table operation |
| ReconnectSpec.AttemptsNumbered | crates/mutsuki-link-core/src/reconnect.rs:132-183 | Between resets attempts are numbered 1, 2, 3, ... and never more than the limit |
| ReconnectSpec.AttemptsWithinDeadline | crates/mutsuki-link-core/src/reconnect.rs:161-183 | Between resets no attempt is scheduled later than the start of the series plus the allowed time, whatever the clock does |
| ReconnectRun.AnswersFollowHistory | crates/mutsuki-link-core/src/reconnect.rs:132-206 | Over every run each answer is the one the calls so far ask for: stops by cause, waiting while paused, and otherwise attempt number k at now plus the policy's k-th delay with its jitter (no delay under the immediate policy), within the attempt and time limits of the series |
| ReconnectRun.GeometricAttempts | crates/mutsuki-link-core/src/reconnect.rs:132-206 | Under a whole multiplier m the k-th attempt since a reset is scheduled at now plus d, up to the 64-bit maximum, with d within the jitter share of min(maximum, initial * m^(k-1)), and exactly that without jitter |
| ReconnectRun.ResetStartsAnew | crates/mutsuki-link-core/src/reconnect.rs:126-130 | A reset begins a new series under the same policy, no attempt counted and no start recorded, paused or not as before |
| ReconnectSpec.DelayMonotoneExactly | crates/mutsuki-link-core/src/reconnect.rs:185-194 | The base delay never falls from one attempt to the next if and only if the initial delay is at most a thousandth of the 64-bit maximum |
| ReconnectSpec.DelayIsGeometricExactly | crates/mutsuki-link-core/src/reconnect.rs:185-194 | For a multiplier of k times one, the base delay is min(maximum, initial * k^n) for every attempt number n if and only if the maximum (for k = 1 the initial delay) is at most a thousandth of the 64-bit maximum |
| ReconnectSpec.FallsShort | crates/mutsuki-link-core/src/reconnect.rs:185-194 | Above that boundary an attempt number of at most 64 shows the difference |
| ReconnectSpec.DelayBounded | crates/mutsuki-link-core/src/reconnect.rs:185-194 | The base delay never exceeds the maximum, for any multiplier |
| ReconnectSpec.JitterBounded | crates/mutsuki-link-core/src/reconnect.rs:196-206 | Jitter moves the delay by at most its span either way, for every sample |
| Reconnect.ReconnectController.AfterFailure | crates/mutsuki-link-core/src/reconnect.rs:132-159 | In place, the decision on values: cancellation, permanence, pause, policy, limits |
| Reconnect.ReconnectController.Schedule | crates/mutsuki-link-core/src/reconnect.rs:161-183 | In place, stops at the attempt limit or the deadline, otherwise counts and schedules |
| Reconnect.BaseDelay | crates/mutsuki-link-core/src/reconnect.rs:185-194 | The growth loop computes the recursive delay |

## Left out

- Sockets, QUIC, TCP, local IPC, mDNS, key rings and file stores: input and output around the core.
- Digests, signatures and proofs as cryptography: identifiers come from an arbitrary function and a proof is opaque bytes judged by the caller.
- Error texts, `Display` and `Debug` forms; errors are modelled as kinds.
- `Vec` capacity, allocation and `storage_snapshot`; buffers are sequences except in the reassembler, which keeps arrays.
- Ordered maps are modelled as maps visited in any order where the order cannot matter, and as an id-ordered sequence in the registry, where it decides the order of offers.
- Realtime telemetry beyond the balanced counters: network metrics, migration, MTU and reconnect counts, receive-side statistics.
- `ActiveProtocolSet::contains` by debug name, `ValidatedChannel::validate_payload`, wire namespaces: lookups and bounds that read off their bodies.
- The debug name a validated channel carries along: nothing in the session depends on it.
- Quality and continuity reports of a session are one operation that publishes one event: their content is opaque here.
- Manual and mDNS discovery around the limiter, pairing ceremonies, trust records, liveness averages, transport selection, maintenance budget.
- The latest-only receiver of `reliable.rs`: it compares sequences without generations, so it promises less than the send queue.
- The NTP message types and `CompactFrameCodec`: `nana_tracking_protocol` is not part of this model.
- MuxFairness.WeightedFairness: bounds the cost served only up to what met the 128-bit ceiling, because tags stop moving there.
- EventBusSpec.BusRefinesLog: a publisher handing over its own gap marker is not modelled.
- LimiterClock.TableRefinesHistory: requires a clock that does not turn, because for every clock that turns some run is decided otherwise (`LimiterClock.DecidesExactly`).
- LimiterWindow.NeverMoreThanMaximum: requires a steady clock, because for every other clock some run exceeds the bound (`LimiterWindow.BoundExactly`).
- Realtime.RealtimeSendQueue.SetMaxPayload: the limit field is written after the oversized groups are dropped instead of before; the dropping does not read it.
- ControlCodec.Reader.Take: the position is unbounded, so the overflow check on the end position is not modelled; a slice cannot be that long.
- Fragments.Reassembly.Insert: the received counter is an unbounded number; `FragmentRun.ReceivedCountsSlots` shows it stays within the slot count.
