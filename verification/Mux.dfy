/** The multiplexer itself (`mux.rs`): one object whose tables every call updates in place. */
module Mux {
  import opened Base
  import opened MuxSpec
  import opened MuxInvariant
  import opened MuxRun
  import Identity

  class Multiplexer {
    const sessionId: Id16
    const limits: MultiplexerLimits
    var channels: map<u32, ChannelState>
    var keys: map<ChannelKey, seq<u32>>
    var retiredChannels: set<u32>
    var control: seq<Bytes>
    var ready: seq<u32>
    var virtualTime: u128
    var totalPending: nat
    const allowedProtocols: Option<set<(Id16, Identity.ProtocolVersion)>>

    ghost function Model(): State
      reads this
    {
      State(sessionId, limits, channels, keys, retiredChannels, control, ready, virtualTime, totalPending,
            allowedProtocols)
    }

    ghost predicate Valid()
      reads this
    {
      MuxSpec.Valid(Model())
    }

    /** `new` and `restricted`: limits of zero are refused. */
    static method New(sessionId: Id16, limits: MultiplexerLimits,
                      allowedProtocols: Option<set<(Id16, Identity.ProtocolVersion)>>)
      returns (r: Result<Multiplexer, LinkError>)
      ensures r.Ok? <==> LimitsOk(limits)
      ensures r.Ok? <==> && limits.maxFrameBytes > 0 && limits.maxChannels > 0 && limits.controlQueueCapacity > 0
                         && limits.maxTotalPendingFrames > 0
      ensures r.Err? ==> r.error == InvalidInput
      ensures r.Ok? ==> fresh(r.value) && r.value.Valid()
                        && r.value.Model() == Initial(sessionId, limits, allowedProtocols)
    {
      if limits.maxFrameBytes == 0 || limits.maxChannels == 0 || limits.controlQueueCapacity == 0
         || limits.maxTotalPendingFrames == 0 {
        return Err(InvalidInput);
      }
      var mux := new Multiplexer(sessionId, limits, allowedProtocols);
      return Ok(mux);
    }

    constructor (sessionId: Id16, limits: MultiplexerLimits,
                 allowedProtocols: Option<set<(Id16, Identity.ProtocolVersion)>>)
      requires LimitsOk(limits)
      ensures Valid()
      ensures Model() == Initial(sessionId, limits, allowedProtocols)
    {
      this.sessionId := sessionId;
      this.limits := limits;
      this.allowedProtocols := allowedProtocols;
      channels, keys, retiredChannels := map[], map[], {};
      control, ready := [], [];
      virtualTime, totalPending := 0, 0;
      InitialValid(sessionId, limits, allowedProtocols);
    }

    method OpenChannel(config: ChannelConfig) returns (error: Option<LinkError>)
      requires Valid()
      modifies this
      ensures Valid()
      ensures (Model(), Returned(error)) == Open(old(Model()), config)
    {
      hide MuxSpec.Valid;
      OpenedWhenAllowed(Model(), config);
      if config.id == CONTROL_CHANNEL_ID {
        return Some(InvalidInput);
      }
      if config.generation == 0 || config.capacity == 0 || config.maxFrameBytes == 0 {
        return Some(InvalidInput);
      }
      if config.discardable && config.mode != Event {
        return Some(InvalidInput);
      }
      if (config.mode == Stream) != config.maxStreamBytes.Some? {
        return Some(InvalidInput);
      }
      if allowedProtocols.Some? && (config.key.protocolId, config.key.version) !in allowedProtocols.value {
        return Some(NamespaceConflict);
      }
      if |channels| + |retiredChannels| >= limits.maxChannels {
        return Some(LimitExceeded(Channels, limits.maxChannels));
      }
      if config.id in retiredChannels {
        return Some(ClosedChannel(config.id));
      }
      if config.id in channels {
        return Some(NamespaceConflict);
      }
      var ids := if config.key in keys then keys[config.key] else [];
      keys := keys[config.key := ids + [config.id]];
      channels := channels[config.id := ChannelState(config, [], false, 0, virtualTime)];
      assert Model() == Opened(old(Model()), config);
      return None;
    }

    method EnqueueControl(payload: Bytes) returns (error: Option<LinkError>)
      requires Valid()
      modifies this
      ensures Valid()
      ensures (Model(), Returned(error)) == SendControl(old(Model()), payload)
    {
      hide MuxSpec.Valid;
      error := ValidatePayload(payload, 0);
      if error.Some? {
        return;
      }
      if |control| >= limits.controlQueueCapacity {
        return Some(Backpressure(CONTROL_CHANNEL_ID, limits.controlQueueCapacity));
      }
      control := control + [payload];
      totalPending := totalPending + 1;
      ControlQueuedValid(old(Model()), payload);
      return None;
    }

    method Enqueue(envelope: Envelope) returns (error: Option<LinkError>)
      requires Valid()
      modifies this
      ensures Valid()
      ensures (Model(), Returned(error)) == Send(old(Model()), envelope)
    {
      hide MuxSpec.Valid;
      error := ValidateEnvelopeIdentity(envelope);
      if error.Some? {
        return;
      }
      if totalPending >= limits.maxTotalPendingFrames {
        return Some(LimitExceeded(PendingFrames, limits.maxTotalPendingFrames));
      }
      var id := envelope.channelId;
      if id !in channels {
        return Some(UnknownChannel(id));
      }
      var state := channels[id];
      if state.config.generation != envelope.generation {
        return Some(ChannelGenerationMismatch(id));
      }
      if |envelope.payload| > state.config.maxFrameBytes {
        return Some(LimitExceeded(FrameBytes, state.config.maxFrameBytes));
      }
      if state.cancelled {
        return Some(ChannelCancelled(id));
      }
      if |state.queue| >= state.config.capacity {
        return Some(Backpressure(id, state.config.capacity));
      }
      if state.config.maxStreamBytes.Some? {
        var maxStreamBytes := state.config.maxStreamBytes.value;
        if |envelope.payload| > U64_MAX {
          return Some(LimitExceeded(StreamBytes, USIZE_MAX));
        }
        var nextStreamBytes := SaturatingAdd64(state.streamBytes, |envelope.payload|);
        if nextStreamBytes > maxStreamBytes {
          return Some(LimitExceeded(StreamBytes, maxStreamBytes));
        }
        state := state.(streamBytes := nextStreamBytes);
      }
      if state.queue == [] {
        state := state.(virtualFinish := Max(state.virtualFinish, virtualTime));
        ready := ready + [id];
      }
      channels := channels[id := state.(queue := state.queue + [envelope])];
      totalPending := totalPending + 1;
      assert Model() == Queued(old(Model()), envelope);
      QueuedValid(old(Model()), envelope);
      return None;
    }

    method EnqueueDiscardable(envelope: Envelope) returns (r: Result<QueueAdmission, LinkError>)
      requires Valid()
      modifies this
      ensures Valid()
      ensures (Model(), if r.Ok? then Admission(r.value) else Failed(r.error))
           == SendDiscardable(old(Model()), envelope)
    {
      hide MuxSpec.Valid;
      var error := ValidateEnvelopeIdentity(envelope);
      if error.Some? {
        return Err(error.value);
      }
      var id := envelope.channelId;
      if id !in channels {
        return Err(UnknownChannel(id));
      }
      var state := channels[id];
      if state.config.generation != envelope.generation {
        return Err(ChannelGenerationMismatch(id));
      }
      if |envelope.payload| > state.config.maxFrameBytes {
        return Err(LimitExceeded(FrameBytes, state.config.maxFrameBytes));
      }
      if state.config.mode != Event || !state.config.discardable {
        return Err(InvalidInput);
      }
      if state.cancelled {
        return Err(ChannelCancelled(id));
      }
      if totalPending >= limits.maxTotalPendingFrames || |state.queue| >= state.config.capacity {
        return Ok(DroppedDiscardable);
      }
      if state.queue == [] {
        state := state.(virtualFinish := Max(state.virtualFinish, virtualTime));
        ready := ready + [id];
      }
      channels := channels[id := state.(queue := state.queue + [envelope])];
      totalPending := totalPending + 1;
      EventHasNoStreamLimit(old(Model()), id);
      assert Model() == Queued(old(Model()), envelope);
      QueuedValid(old(Model()), envelope);
      return Ok(Enqueued);
    }

    method NextOutbound() returns (frame: Option<OutboundFrame>)
      requires Valid()
      modifies this
      ensures Valid()
      ensures (Model(), if frame.Some? then Outbound(frame.value) else Nothing) == Next(old(Model()))
    {
      hide MuxSpec.Valid;
      if control != [] {
        ControlSentValid(Model());
        var payload := control[0];
        control := control[1..];
        totalPending := totalPending - 1;
        return Some(Control(payload));
      }
      var index := SelectReady();
      if index.None? {
        ready := [];
        return None;
      }
      var envelope := Serve(index.value);
      return Some(Data(envelope));
    }

    /** Takes the head frame of the ready channel at `index` and charges the channel for it. */
    method Serve(index: nat) returns (envelope: Envelope)
      requires Valid() && control == [] && ready != [] && index == NextIndex(Model(), |ready|)
      modifies this
      ensures Valid()
      ensures (Model(), Outbound(Data(envelope))) == Next(old(Model()))
    {
      hide MuxSpec.Valid, SchedulingCost, IsNext, NextIndex, RemoveAt;
      NextDelivers(Model());
      ServedValid(Model(), index);
      var id := ready[index];
      ready := RemoveAt(ready, index);
      var state := channels[id];
      envelope := state.queue[0];
      state := state.(queue := state.queue[1..]);
      var start := Max(state.virtualFinish, virtualTime);
      virtualTime := start;
      state := state.(virtualFinish := SaturatingAdd128(
                        start, SchedulingCost(|envelope.payload|, state.config.priorityHint)));
      channels := channels[id := state];
      if state.queue != [] {
        ready := ready + [id];
      }
      totalPending := totalPending - 1;
      assert Model() == Served(old(Model()), index);
    }

    /** One pass over the ready list keeping the first entry with the smallest tag. */
    method SelectReady() returns (index: Option<nat>)
      requires Valid()
      ensures forall id :: id in ready ==> id in channels && channels[id].queue != []
      ensures index.None? <==> ready == []
      ensures index.Some? ==> IsNext(Model(), index.value) && index.value == NextIndex(Model(), |ready|)
    {
      hide MuxSpec.Valid;
      ReadyInTable(Model());
      index := None;
      var k := 0;
      while k < |ready|
        invariant k <= |ready|
        invariant index.None? <==> k == 0
        invariant index.Some? ==>
                    && index.value < k
                    && (forall j :: 0 <= j < k ==> Tag(Model(), ready[index.value]) <= Tag(Model(), ready[j]))
                    && (forall j :: 0 <= j < index.value ==> Tag(Model(), ready[index.value]) < Tag(Model(), ready[j]))
      {
        var id := ready[k];
        if index.None? || channels[id].virtualFinish < channels[ready[index.value]].virtualFinish {
          index := Some(k);
        }
        k := k + 1;
      }
      if index.Some? {
        NextIsUnique(Model(), index.value, NextIndex(Model(), |ready|));
      }
    }

    method CancelChannel(id: u32) returns (r: Result<nat, LinkError>)
      requires Valid()
      modifies this
      ensures Valid()
      ensures (Model(), if r.Ok? then Discarded(r.value) else Failed(r.error)) == Cancel(old(Model()), id)
    {
      hide MuxSpec.Valid;
      if id !in channels {
        return Err(UnknownChannel(id));
      }
      CancelledValid(Model(), id);
      var state := channels[id];
      var discarded := |state.queue|;
      channels := channels[id := state.(cancelled := true, queue := [])];
      ready := Retain(ready, id);
      totalPending := totalPending - discarded;
      assert Model() == Cancelled(old(Model()), id);
      return Ok(discarded);
    }

    method CloseChannel(id: u32) returns (r: Result<nat, LinkError>)
      requires Valid()
      modifies this
      ensures Valid()
      ensures (Model(), if r.Ok? then Discarded(r.value) else Failed(r.error)) == Close(old(Model()), id)
    {
      hide MuxSpec.Valid;
      if id !in channels {
        return Err(if id in retiredChannels then ClosedChannel(id) else UnknownChannel(id));
      }
      ClosedValid(Model(), id);
      var state := channels[id];
      channels := channels - {id};
      var discarded := |state.queue|;
      ready := Retain(ready, id);
      totalPending := Max(totalPending - discarded, 0);
      if state.config.key in keys {
        var ids := Retain(keys[state.config.key], id);
        keys := if ids == [] then keys - {state.config.key} else keys[state.config.key := ids];
      }
      retiredChannels := retiredChannels + {id};
      assert Model() == Closed(old(Model()), id);
      return Ok(discarded);
    }

    method DiscardAll() returns (discarded: nat)
      requires Valid()
      modifies this
      ensures Valid()
      ensures (Model(), Discarded(discarded)) == Discard(old(Model()))
    {
      hide MuxSpec.Valid;
      discarded := totalPending;
      control := [];
      ready := [];
      channels := map id | id in channels :: channels[id].(queue := []);
      totalPending := 0;
      EmptiedValid(old(Model()));
      assert Model() == Emptied(old(Model()));
    }

    /** The open channels of one protocol channel, as a scan of the whole table would list them. */
    method ChannelsFor(key: ChannelKey) returns (ids: seq<u32>)
      requires Valid()
      ensures Distinct(ids)
      ensures forall id :: id in ids <==> id in channels && channels[id].config.key == key
    {
      ids := if key in keys then keys[key] else [];
    }

    method ValidatePayload(payload: Bytes, nestingDepth: u16) returns (error: Option<LinkError>)
      ensures error == PayloadError(Model(), payload, nestingDepth)
    {
      if |payload| > limits.maxFrameBytes {
        return Some(LimitExceeded(FrameBytes, limits.maxFrameBytes));
      }
      if nestingDepth > limits.maxNestingDepth {
        return Some(LimitExceeded(NestingDepth, limits.maxNestingDepth));
      }
      return None;
    }

    method ValidateEnvelopeIdentity(envelope: Envelope) returns (error: Option<LinkError>)
      ensures error == IdentityError(Model(), envelope)
    {
      if envelope.sessionId != sessionId {
        return Some(SessionMismatch);
      }
      if envelope.channelId == CONTROL_CHANNEL_ID {
        return Some(InvalidInput);
      }
      if envelope.channelId in retiredChannels {
        return Some(ClosedChannel(envelope.channelId));
      }
      error := ValidatePayload(envelope.payload, envelope.nestingDepth);
    }
  }

  ghost function Returned(error: Option<LinkError>): Reply {
    if error.Some? then Failed(error.value) else Done
  }

  lemma ReadyInTable(s: State)
    requires MuxSpec.Valid(s)
    ensures forall id :: id in s.ready ==> id in s.channels && s.channels[id].queue != []
  {
  }

  lemma OpenedWhenAllowed(s: State, c: ChannelConfig)
    requires MuxSpec.Valid(s)
    ensures OpenError(s, c).None? ==> MuxSpec.Valid(Opened(s, c))
  {
    if OpenError(s, c).None? {
      OpenedValid(s, c);
    }
  }

  lemma EventHasNoStreamLimit(s: State, id: u32)
    requires MuxSpec.Valid(s) && id in s.channels && s.channels[id].config.mode == Event
    ensures s.channels[id].config.maxStreamBytes.None?
  {
    assert ChannelOk(s, id, s.channels[id]);
  }

  /** `retain`: one pass keeping every entry other than `x`, in order. */
  method Retain(s: seq<u32>, x: u32) returns (kept: seq<u32>)
    ensures kept == Without(s, x)
  {
    kept := [];
    var k := 0;
    while k < |s|
      invariant k <= |s|
      invariant kept == Without(s[..k], x)
    {
      assert s[..k + 1] == s[..k] + [s[k]];
      WithoutAppend(s[..k], [s[k]], x);
      if s[k] != x {
        kept := kept + [s[k]];
      }
      k := k + 1;
    }
    assert s[..|s|] == s;
  }
}
