/**
  The multiplexer as a value and its operations as functions on values. Class `Mux.Multiplexer`
  implements these functions in place; the run theorems are about them.
 */
module MuxSpec {
  import opened Base
  import opened Sums
  import opened Identity

  const CONTROL_CHANNEL_ID: u32 := 0
  const PRIORITY_BANDS: nat := 8
  /** 255 divided by eight bands, rounded up. */
  const BAND_WIDTH: nat := 32

  datatype ChannelKey = ChannelKey(protocolId: Id16, version: ProtocolVersion, protocolChannelId: u16)

  datatype ChannelMode = RequestResponse | Event | Stream

  datatype ChannelConfig = ChannelConfig(
    key: ChannelKey, id: u32, generation: u32, mode: ChannelMode, priorityHint: byte,
    capacity: u64, maxFrameBytes: u64, maxStreamBytes: Option<u64>, discardable: bool)

  datatype EnvelopeFlags = EnvelopeFlags(endOfStream: bool, cancelled: bool)

  datatype Envelope = Envelope(
    sessionId: Id16, channelId: u32, generation: u32, sequence: u64, nestingDepth: u16,
    flags: EnvelopeFlags, payload: Bytes)

  datatype OutboundFrame = Control(payload: Bytes) | Data(envelope: Envelope)

  datatype QueueAdmission = Enqueued | DroppedDiscardable

  datatype LimitKind = FrameBytes | StreamBytes | NestingDepth | Channels | PendingFrames

  datatype LinkError =
    | InvalidInput
    | LimitExceeded(kind: LimitKind, limit: u64)
    | Backpressure(channel: u32, capacity: u64)
    | UnknownChannel(id: u32)
    | ClosedChannel(id: u32)
    | SessionMismatch
    | ChannelGenerationMismatch(channel: u32)
    | ChannelCancelled(id: u32)
    | NamespaceConflict

  datatype MultiplexerLimits = MultiplexerLimits(
    maxFrameBytes: u64, maxNestingDepth: u16, maxChannels: u64, controlQueueCapacity: u64,
    maxTotalPendingFrames: u64)

  datatype ChannelState = ChannelState(
    config: ChannelConfig, queue: seq<Envelope>, cancelled: bool, streamBytes: u64,
    virtualFinish: u128)

  datatype State = State(
    sessionId: Id16, limits: MultiplexerLimits, channels: map<u32, ChannelState>,
    keys: map<ChannelKey, seq<u32>>, retired: set<u32>, control: seq<Bytes>, ready: seq<u32>,
    virtualTime: u128, totalPending: nat,
    allowedProtocols: Option<set<(Id16, ProtocolVersion)>>)

  /* ------------------------------ Scheduling cost ------------------------------ */

  function CeilDiv(a: nat, b: nat): nat
    requires b > 0
  {
    (a + b - 1) / b
  }

  function Weight(priorityHint: byte): (w: nat)
    ensures 1 <= w <= PRIORITY_BANDS
  {
    priorityHint / BAND_WIDTH + 1
  }

  function SchedulingCost(payloadLen: nat, priorityHint: byte): (cost: nat)
    ensures 1 <= cost
  {
    var bytes := Max(payloadLen, 1);
    CeilDiv(Min(bytes * PRIORITY_BANDS, U128_MAX), Weight(priorityHint))
  }

  lemma CeilDivMonotone(a: nat, b: nat, w: nat)
    requires a <= b && 1 <= w <= PRIORITY_BANDS
    ensures CeilDiv(a, w) <= CeilDiv(b, w)
  {
    assert w == 1 || w == 2 || w == 3 || w == 4 || w == 5 || w == 6 || w == 7 || w == 8;
  }

  lemma CostMonotone(a: nat, b: nat, priorityHint: byte)
    requires a <= b
    ensures SchedulingCost(a, priorityHint) <= SchedulingCost(b, priorityHint)
  {
    CeilDivMonotone(Min(Max(a, 1) * PRIORITY_BANDS, U128_MAX), Min(Max(b, 1) * PRIORITY_BANDS, U128_MAX),
                    Weight(priorityHint));
  }

  /** The weight of a priority hint: one for the lowest thirty-two hints, eight for the highest. */
  predicate Weighs(priorityHint: byte, w: nat) {
    1 <= w && 32 * (w - 1) <= priorityHint < 32 * w
  }

  /**
    The cost of a frame is its size over its weight: charging `cost` to a channel of weight `w`
    pays for eight times the bytes, rounded up by less than one unit. An empty frame counts as one
    byte.
   */
  lemma CostIsWeightedBytes(payloadLen: u64, priorityHint: byte, w: nat)
    requires Weighs(priorityHint, w)
    ensures var bytes, cost := if payloadLen == 0 then 1 else payloadLen, SchedulingCost(payloadLen, priorityHint);
            8 * bytes <= cost * w < 8 * bytes + w
  {
    assert Weight(priorityHint) == w;
    var total := Max(payloadLen, 1) * PRIORITY_BANDS;
    assert total <= U128_MAX;
    assert (total + w - 1) / w * w <= total + w - 1 < (total + w - 1) / w * w + w;
  }

  /** The cost of the largest frame the channel may carry. */
  function MaxCost(config: ChannelConfig): nat {
    SchedulingCost(config.maxFrameBytes, config.priorityHint)
  }

  /* --------------------------------- Invariant --------------------------------- */

  function QueueLens(channels: map<u32, ChannelState>): map<u32, nat> {
    map id | id in channels :: |channels[id].queue|
  }

  predicate ConfigOk(c: ChannelConfig) {
    && c.id != CONTROL_CHANNEL_ID
    && c.generation != 0 && c.capacity != 0 && c.maxFrameBytes != 0
    && (c.discardable ==> c.mode == Event)
    && (c.mode == Stream <==> c.maxStreamBytes.Some?)
  }

  predicate ProtocolAllowed(s: State, key: ChannelKey) {
    s.allowedProtocols.Some? ==> (key.protocolId, key.version) in s.allowedProtocols.value
  }

  /** What every frame sitting in a channel's queue satisfies. */
  predicate Carried(s: State, c: ChannelConfig, e: Envelope) {
    && e.sessionId == s.sessionId && e.channelId == c.id && e.generation == c.generation
    && |e.payload| <= c.maxFrameBytes && |e.payload| <= s.limits.maxFrameBytes
    && e.nestingDepth <= s.limits.maxNestingDepth
  }

  predicate ChannelOk(s: State, id: u32, c: ChannelState) {
    && c.config.id == id && ConfigOk(c.config) && ProtocolAllowed(s, c.config.key)
    && |c.queue| <= c.config.capacity
    && (c.cancelled ==> c.queue == [])
    && (forall e :: e in c.queue ==> Carried(s, c.config, e))
    && (c.config.maxStreamBytes.Some? ==> c.streamBytes <= c.config.maxStreamBytes.value)
  }

  predicate TableOk(s: State) {
    && (forall id :: id in s.channels ==> ChannelOk(s, id, s.channels[id]))
    && s.channels.Keys !! s.retired && CONTROL_CHANNEL_ID !in s.retired
    && |s.channels| + |s.retired| <= s.limits.maxChannels
    && |s.control| <= s.limits.controlQueueCapacity
    && (forall p :: p in s.control ==> |p| <= s.limits.maxFrameBytes)
  }

  /** The ready list is exactly the set of channels with something to send, each once. */
  predicate ReadyOk(s: State) {
    && Distinct(s.ready)
    && (forall id :: id in s.ready ==> id in s.channels && s.channels[id].queue != [])
    && (forall id :: id in s.channels && s.channels[id].queue != [] ==> id in s.ready)
  }

  /** The pending counter is the control queue plus every data queue; data alone respects its bound. */
  ghost predicate CountOk(s: State) {
    && s.totalPending == |s.control| + Sum(QueueLens(s.channels))
    && Sum(QueueLens(s.channels)) <= s.limits.maxTotalPendingFrames
  }

  /** The key index is what a scan of the channel table would find. */
  predicate KeysOk(s: State) {
    && (forall k :: k in s.keys ==> s.keys[k] != [] && Distinct(s.keys[k]))
    && (forall k, id :: k in s.keys && id in s.keys[k] ==> id in s.channels && s.channels[id].config.key == k)
    && (forall id :: id in s.channels ==>
                       s.channels[id].config.key in s.keys && id in s.keys[s.channels[id].config.key])
  }

  /**
    Start-time fair queueing: no tag is further ahead of virtual time than one maximal frame, and
    no waiting channel's tag is behind it.
   */
  predicate TagsOk(s: State) {
    forall id :: id in s.channels ==>
                   && s.channels[id].virtualFinish <= s.virtualTime + MaxCost(s.channels[id].config)
                   && (s.channels[id].queue != [] ==> s.virtualTime <= s.channels[id].virtualFinish)
  }

  predicate LimitsOk(l: MultiplexerLimits) {
    l.maxFrameBytes != 0 && l.maxChannels != 0 && l.controlQueueCapacity != 0 && l.maxTotalPendingFrames != 0
  }

  ghost predicate Valid(s: State) {
    LimitsOk(s.limits) && TableOk(s) && ReadyOk(s) && CountOk(s) && KeysOk(s) && TagsOk(s)
  }

  /* -------------------------------- Operations --------------------------------- */

  function Initial(sessionId: Id16, limits: MultiplexerLimits,
                   allowed: Option<set<(Id16, ProtocolVersion)>>): State {
    State(sessionId, limits, map[], map[], {}, [], [], 0, 0, allowed)
  }

  function OpenError(s: State, c: ChannelConfig): Option<LinkError> {
    if c.id == CONTROL_CHANNEL_ID then Some(InvalidInput)
    else if c.generation == 0 || c.capacity == 0 || c.maxFrameBytes == 0 then Some(InvalidInput)
    else if c.discardable && c.mode != Event then Some(InvalidInput)
    else if (c.mode == Stream) != c.maxStreamBytes.Some? then Some(InvalidInput)
    else if !ProtocolAllowed(s, c.key) then Some(NamespaceConflict)
    else if |s.channels| + |s.retired| >= s.limits.maxChannels then
      Some(LimitExceeded(Channels, s.limits.maxChannels))
    else if c.id in s.retired then Some(ClosedChannel(c.id))
    else if c.id in s.channels then Some(NamespaceConflict)
    else None
  }

  function IdsFor(s: State, key: ChannelKey): seq<u32> {
    if key in s.keys then s.keys[key] else []
  }

  function Opened(s: State, c: ChannelConfig): State {
    s.(keys := s.keys[c.key := IdsFor(s, c.key) + [c.id]],
       channels := s.channels[c.id := ChannelState(c, [], false, 0, s.virtualTime)])
  }

  function PayloadError(s: State, payload: Bytes, nestingDepth: u16): Option<LinkError> {
    if |payload| > s.limits.maxFrameBytes then Some(LimitExceeded(FrameBytes, s.limits.maxFrameBytes))
    else if nestingDepth > s.limits.maxNestingDepth then
      Some(LimitExceeded(NestingDepth, s.limits.maxNestingDepth))
    else None
  }

  function IdentityError(s: State, e: Envelope): Option<LinkError> {
    if e.sessionId != s.sessionId then Some(SessionMismatch)
    else if e.channelId == CONTROL_CHANNEL_ID then Some(InvalidInput)
    else if e.channelId in s.retired then Some(ClosedChannel(e.channelId))
    else PayloadError(s, e.payload, e.nestingDepth)
  }

  function ControlError(s: State, payload: Bytes): Option<LinkError> {
    if PayloadError(s, payload, 0).Some? then PayloadError(s, payload, 0)
    else if |s.control| >= s.limits.controlQueueCapacity then
      Some(Backpressure(CONTROL_CHANNEL_ID, s.limits.controlQueueCapacity))
    else None
  }

  function ControlQueued(s: State, payload: Bytes): State {
    s.(control := s.control + [payload], totalPending := s.totalPending + 1)
  }

  /** Checks shared by both ways of enqueueing data, in the order the code makes them. */
  function ChannelError(s: State, e: Envelope): Option<LinkError> {
    if e.channelId !in s.channels then Some(UnknownChannel(e.channelId))
    else
      var c := s.channels[e.channelId];
      if c.config.generation != e.generation then Some(ChannelGenerationMismatch(e.channelId))
      else if |e.payload| > c.config.maxFrameBytes then Some(LimitExceeded(FrameBytes, c.config.maxFrameBytes))
      else None
  }

  function StreamError(c: ChannelState, e: Envelope): Option<LinkError> {
    if c.config.maxStreamBytes.None? then None
    else if |e.payload| > U64_MAX then Some(LimitExceeded(StreamBytes, USIZE_MAX))
    else if SaturatingAdd64(c.streamBytes, |e.payload|) > c.config.maxStreamBytes.value then
      Some(LimitExceeded(StreamBytes, c.config.maxStreamBytes.value))
    else None
  }

  function EnqueueError(s: State, e: Envelope): Option<LinkError> {
    if IdentityError(s, e).Some? then IdentityError(s, e)
    else if s.totalPending >= s.limits.maxTotalPendingFrames then
      Some(LimitExceeded(PendingFrames, s.limits.maxTotalPendingFrames))
    else if ChannelError(s, e).Some? then ChannelError(s, e)
    else
      var c := s.channels[e.channelId];
      if c.cancelled then Some(ChannelCancelled(e.channelId))
      else if |c.queue| >= c.config.capacity then Some(Backpressure(e.channelId, c.config.capacity))
      else StreamError(c, e)
  }

  /** The state after a data frame has been accepted. */
  function Queued(s: State, e: Envelope): State
    requires e.channelId in s.channels
  {
    var c := s.channels[e.channelId];
    var wasIdle := c.queue == [];
    var c' := c.(queue := c.queue + [e],
                 streamBytes := if c.config.maxStreamBytes.Some? then SaturatingAdd64(c.streamBytes, |e.payload|)
                                else c.streamBytes,
                 virtualFinish := if wasIdle then Max(c.virtualFinish, s.virtualTime) else c.virtualFinish);
    s.(channels := s.channels[e.channelId := c'],
       ready := if wasIdle then s.ready + [e.channelId] else s.ready,
       totalPending := s.totalPending + 1)
  }

  function DiscardableError(s: State, e: Envelope): Option<LinkError> {
    if IdentityError(s, e).Some? then IdentityError(s, e)
    else if ChannelError(s, e).Some? then ChannelError(s, e)
    else
      var c := s.channels[e.channelId];
      if c.config.mode != Event || !c.config.discardable then Some(InvalidInput)
      else if c.cancelled then Some(ChannelCancelled(e.channelId))
      else None
  }

  /** Whether queue pressure makes a discardable frame disappear. */
  predicate UnderPressure(s: State, e: Envelope)
    requires e.channelId in s.channels
  {
    || s.totalPending >= s.limits.maxTotalPendingFrames
    || |s.channels[e.channelId].queue| >= s.channels[e.channelId].config.capacity
  }

  function Tag(s: State, id: u32): u128
    requires id in s.channels
  {
    s.channels[id].virtualFinish
  }

  /** The ready index served next: the leftmost among the smallest tags. */
  ghost predicate IsNext(s: State, k: nat)
    requires forall id :: id in s.ready ==> id in s.channels
  {
    && k < |s.ready|
    && (forall j :: 0 <= j < |s.ready| ==> Tag(s, s.ready[k]) <= Tag(s, s.ready[j]))
    && (forall j :: 0 <= j < k ==> Tag(s, s.ready[k]) < Tag(s, s.ready[j]))
  }

  function NextIndex(s: State, n: nat): (k: nat)
    requires forall id :: id in s.ready ==> id in s.channels
    requires 0 < n <= |s.ready|
    ensures k < n
    ensures forall j :: 0 <= j < n ==> Tag(s, s.ready[k]) <= Tag(s, s.ready[j])
    ensures forall j :: 0 <= j < k ==> Tag(s, s.ready[k]) < Tag(s, s.ready[j])
  {
    if n == 1 then 0
    else
      var best := NextIndex(s, n - 1);
      if Tag(s, s.ready[n - 1]) < Tag(s, s.ready[best]) then n - 1 else best
  }

  lemma NextIsUnique(s: State, j: nat, k: nat)
    requires forall id :: id in s.ready ==> id in s.channels
    requires IsNext(s, j) && IsNext(s, k)
    ensures j == k
  {
    assert Tag(s, s.ready[j]) == Tag(s, s.ready[k]);
  }

  function ControlSent(s: State): State
    requires s.control != [] && s.totalPending > 0
  {
    s.(control := s.control[1..], totalPending := s.totalPending - 1)
  }

  /** The state after the head frame of the `k`-th ready channel has left. */
  function Served(s: State, k: nat): State
    requires k < |s.ready| && s.ready[k] in s.channels && s.channels[s.ready[k]].queue != []
    requires s.totalPending > 0
  {
    var id := s.ready[k];
    var c := s.channels[id];
    var start := Max(c.virtualFinish, s.virtualTime);
    var rest := c.queue[1..];
    var c' := c.(queue := rest,
                 virtualFinish := SaturatingAdd128(
                   start, SchedulingCost(|c.queue[0].payload|, c.config.priorityHint)));
    s.(channels := s.channels[id := c'],
       ready := RemoveAt(s.ready, k) + (if rest == [] then [] else [id]),
       virtualTime := start,
       totalPending := s.totalPending - 1)
  }

  function Cancelled(s: State, id: u32): State
    requires id in s.channels && s.totalPending >= |s.channels[id].queue|
  {
    var c := s.channels[id];
    s.(channels := s.channels[id := c.(cancelled := true, queue := [])],
       ready := Without(s.ready, id),
       totalPending := s.totalPending - |c.queue|)
  }

  function KeysWithout(keys: map<ChannelKey, seq<u32>>, key: ChannelKey, id: u32): map<ChannelKey, seq<u32>> {
    if key !in keys then keys
    else if Without(keys[key], id) == [] then keys - {key}
    else keys[key := Without(keys[key], id)]
  }

  function CloseError(s: State, id: u32): Option<LinkError> {
    if id in s.channels then None
    else if id in s.retired then Some(ClosedChannel(id))
    else Some(UnknownChannel(id))
  }

  function Closed(s: State, id: u32): State
    requires id in s.channels
  {
    var c := s.channels[id];
    s.(channels := s.channels - {id},
       ready := Without(s.ready, id),
       totalPending := Max(s.totalPending - |c.queue|, 0),
       keys := KeysWithout(s.keys, c.config.key, id),
       retired := s.retired + {id})
  }

  function Emptied(s: State): State {
    s.(control := [], ready := [], totalPending := 0,
       channels := map id | id in s.channels :: s.channels[id].(queue := []))
  }
}
