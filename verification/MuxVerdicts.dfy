/**
  What the multiplexer accepts, why it refuses, and what a cancelled or closed channel can still do,
  in terms of the tables and limits alone.
 */
module MuxVerdicts {
  import opened Base
  import opened Identity
  import opened MuxSpec
  import opened MuxInvariant
  import opened MuxRun

  /** A failed call leaves everything as it was. */
  ghost predicate Answers(s: State, op: Op, complaint: Option<LinkError>)
    requires Valid(s)
  {
    match complaint
    case None => !Step(s, op).1.Failed?
    case Some(error) => Step(s, op) == (s, Failed(error))
  }

  /* ------------------------------------ Opening ---------------------------------- */

  /** Why a channel may not be opened: malformed, not allowed, no id left, or its id used up or in use. */
  ghost function OpenComplaint(s: State, c: ChannelConfig): Option<LinkError> {
    if c.id == 0 || c.generation == 0 || c.capacity == 0 || c.maxFrameBytes == 0
       || (c.discardable && !c.mode.Event?) || (c.mode.Stream? && c.maxStreamBytes.None?)
       || (!c.mode.Stream? && c.maxStreamBytes.Some?)
    then Some(InvalidInput)
    else if s.allowedProtocols.Some? && (c.key.protocolId, c.key.version) !in s.allowedProtocols.value
    then Some(NamespaceConflict)
    else if |s.channels| + |s.retired| >= s.limits.maxChannels then Some(LimitExceeded(Channels, s.limits.maxChannels))
    else if c.id in s.retired then Some(ClosedChannel(c.id))
    else if c.id in s.channels then Some(NamespaceConflict)
    else None
  }

  /** The new channel starts empty and every other channel and queue is untouched. */
  lemma OpenVerdict(s: State, c: ChannelConfig)
    requires Valid(s)
    ensures Answers(s, OpenChannel(c), OpenComplaint(s, c))
    ensures var after := Step(s, OpenChannel(c)).0;
            Step(s, OpenChannel(c)).1 == Done ==>
              && after.channels.Keys == s.channels.Keys + {c.id}
              && after.channels[c.id].config == c && after.channels[c.id].queue == []
              && !after.channels[c.id].cancelled && after.channels[c.id].streamBytes == 0
              && (forall id :: id in s.channels ==> after.channels[id] == s.channels[id])
              && after.ready == s.ready && after.control == s.control && after.retired == s.retired
  {
    hide Valid;
  }

  /* ----------------------------------- Enqueueing -------------------------------- */

  lemma ControlVerdict(s: State, payload: Bytes)
    requires Valid(s)
    ensures Answers(s, EnqueueControl(payload),
                    if |payload| > s.limits.maxFrameBytes then Some(LimitExceeded(FrameBytes, s.limits.maxFrameBytes))
                    else if |s.control| >= s.limits.controlQueueCapacity then
                      Some(Backpressure(0, s.limits.controlQueueCapacity))
                    else None)
  {
    hide Valid;
  }

  /** What both ways of enqueueing data ask of the frame itself. */
  ghost function FrameComplaint(s: State, e: Envelope): Option<LinkError> {
    if e.sessionId != s.sessionId then Some(SessionMismatch)
    else if e.channelId == 0 then Some(InvalidInput)
    else if e.channelId in s.retired then Some(ClosedChannel(e.channelId))
    else if |e.payload| > s.limits.maxFrameBytes then Some(LimitExceeded(FrameBytes, s.limits.maxFrameBytes))
    else if e.nestingDepth > s.limits.maxNestingDepth then
      Some(LimitExceeded(NestingDepth, s.limits.maxNestingDepth))
    else None
  }

  /** What both ask of the channel it names. */
  ghost function ChannelComplaint(c: ChannelConfig, e: Envelope): Option<LinkError> {
    if e.generation != c.generation then Some(ChannelGenerationMismatch(e.channelId))
    else if |e.payload| > c.maxFrameBytes then Some(LimitExceeded(FrameBytes, c.maxFrameBytes))
    else None
  }

  /** Why a channel cannot take the frame now: cancelled, full, or past the stream's bytes. */
  ghost function RoomComplaint(c: ChannelState, e: Envelope): Option<LinkError> {
    if c.cancelled then Some(ChannelCancelled(e.channelId))
    else if |c.queue| >= c.config.capacity then Some(Backpressure(e.channelId, c.config.capacity))
    else
      match c.config.maxStreamBytes
      case None => None
      case Some(limit) =>
        if limit < 0xFFFF_FFFF_FFFF_FFFF && c.streamBytes + |e.payload| > limit
        then Some(LimitExceeded(StreamBytes, limit)) else None
  }

  lemma StreamVerdict(s: State, e: Envelope)
    requires Valid(s) && e.channelId in s.channels && |e.payload| <= s.limits.maxFrameBytes
    ensures var c := s.channels[e.channelId];
            RoomComplaint(c, e) ==
            if c.cancelled then Some(ChannelCancelled(e.channelId))
            else if |c.queue| >= c.config.capacity then Some(Backpressure(e.channelId, c.config.capacity))
            else StreamError(c, e)
  {
    hide Valid;
  }

  /** A data frame is accepted exactly when none of these applies; otherwise the first is reported. */
  lemma EnqueueVerdict(s: State, e: Envelope)
    requires Valid(s)
    ensures Answers(s, Enqueue(e),
                    if FrameComplaint(s, e).Some? then FrameComplaint(s, e)
                    else if s.totalPending >= s.limits.maxTotalPendingFrames then
                      Some(LimitExceeded(PendingFrames, s.limits.maxTotalPendingFrames))
                    else if e.channelId !in s.channels then Some(UnknownChannel(e.channelId))
                    else if ChannelComplaint(s.channels[e.channelId].config, e).Some? then
                      ChannelComplaint(s.channels[e.channelId].config, e)
                    else RoomComplaint(s.channels[e.channelId], e))
  {
    hide Valid, RoomComplaint, StreamError;
    if FrameComplaint(s, e).None? && e.channelId in s.channels {
      StreamVerdict(s, e);
    }
  }

  /**
    A discardable frame must suit its channel. It is then dropped without an error exactly when
    the channel or the multiplexer is full, whatever the stream limits say.
   */
  lemma DiscardableVerdict(s: State, e: Envelope)
    requires Valid(s)
    ensures var complaint :=
              if FrameComplaint(s, e).Some? then FrameComplaint(s, e)
              else if e.channelId !in s.channels then Some(UnknownChannel(e.channelId))
              else if ChannelComplaint(s.channels[e.channelId].config, e).Some? then
                ChannelComplaint(s.channels[e.channelId].config, e)
              else if !s.channels[e.channelId].config.discardable then Some(InvalidInput)
              else if s.channels[e.channelId].cancelled then Some(ChannelCancelled(e.channelId))
              else None;
            var full := && e.channelId in s.channels
                        && (|| s.totalPending >= s.limits.maxTotalPendingFrames
                            || |s.channels[e.channelId].queue| >= s.channels[e.channelId].config.capacity);
            && Answers(s, EnqueueDiscardable(e), complaint)
            && (complaint.None? ==>
                  Step(s, EnqueueDiscardable(e)).1 == Admission(if full then DroppedDiscardable else Enqueued))
            && (full ==> Step(s, EnqueueDiscardable(e)).0 == s)
  {
    hide Valid;
    if e.channelId in s.channels {
      DiscardableIsEvent(s, e.channelId);
    }
  }

  /** Only event channels are ever opened as discardable. */
  lemma DiscardableIsEvent(s: State, id: u32)
    requires Valid(s) && id in s.channels
    ensures s.channels[id].config.discardable ==> s.channels[id].config.mode == Event
  {
    assert ChannelOk(s, id, s.channels[id]);
  }

  /* ----------------------------- Cancelling and closing -------------------------- */

  /** Cancelling reports what it threw away and stops the channel. */
  lemma CancelVerdict(s: State, id: u32)
    requires Valid(s)
    ensures Answers(s, CancelChannel(id), if id in s.channels then None else Some(UnknownChannel(id)))
    ensures id in s.channels ==>
              var (after, reply) := Step(s, CancelChannel(id));
              && reply == Discarded(|s.channels[id].queue|)
              && after.channels.Keys == s.channels.Keys
              && after.channels[id].cancelled && after.channels[id].queue == []
              && forall other :: other in s.channels && other != id ==> after.channels[other] == s.channels[other]
  {
    hide Valid;
  }

  /** Closing removes the channel and uses up its id. */
  lemma CloseVerdict(s: State, id: u32)
    requires Valid(s)
    ensures Answers(s, CloseChannel(id),
                    if id in s.retired then Some(ClosedChannel(id))
                    else if id !in s.channels then Some(UnknownChannel(id)) else None)
    ensures id in s.channels ==>
              var (after, reply) := Step(s, CloseChannel(id));
              && reply == Discarded(|s.channels[id].queue|)
              && after.channels == s.channels - {id} && after.retired == s.retired + {id}
  {
    hide Valid;
    RetiredApart(s, id);
  }

  lemma RetiredApart(s: State, id: u32)
    requires Valid(s)
    ensures !(id in s.channels && id in s.retired)
  {
  }

  /** Discarding reports every pending frame, closes nothing and leaves nothing to send. */
  lemma DiscardVerdict(s: State)
    requires Valid(s)
    ensures var (after, reply) := Step(s, DiscardAll);
            && reply == Discarded(s.totalPending)
            && after.control == [] && after.totalPending == 0 && after.retired == s.retired
            && after.channels.Keys == s.channels.Keys
            && (forall id :: id in s.channels ==> after.channels[id] == s.channels[id].(queue := []))
            && Step(after, NextOutbound).1 == Nothing
  {
    hide Valid;
  }

  lemma CancelledIsEmpty(s: State, id: u32)
    requires Valid(s) && id in s.channels && s.channels[id].cancelled
    ensures s.channels[id].queue == [] && id !in s.ready && id !in s.retired
  {
    assert ChannelOk(s, id, s.channels[id]);
  }

  lemma CancelledStep(s: State, op: Op, id: u32)
    requires Valid(s) && id in s.channels && s.channels[id].cancelled
    ensures StepAccepted(s, op, id) == [] && StepDelivered(s, op, id) == []
    ensures var after := Step(s, op).0;
            id in after.retired || (id in after.channels && after.channels[id].cancelled)
  {
    hide Valid, FrameComplaint, ChannelComplaint, RoomComplaint;
    CancelledIsEmpty(s, id);
    match op
    case OpenChannel(c) => OpenVerdict(s, c);
    case EnqueueDiscardable(e) => DiscardableVerdict(s, e);
    case NextOutbound =>
      if s.control == [] && s.ready != [] {
        NextDelivers(s);
      }
    case CancelChannel(other) => CancelVerdict(s, other);
    case CloseChannel(other) => CloseVerdict(s, other);
    case _ =>
  }

  /** Over every run from a cancelled channel: it accepts nothing and delivers nothing, ever. */
  lemma {:induction false} CancelledForever(s: State, ops: seq<Op>, id: u32)
    requires Valid(s) && id in s.channels && s.channels[id].cancelled
    ensures Accepted(s, ops, id) == [] && Delivered(s, ops, id) == []
    decreases |ops|
  {
    hide Valid, Step, StepAccepted, StepDelivered;
    if ops != [] {
      CancelledStep(s, ops[0], id);
      var s1 := Step(s, ops[0]).0;
      if id in s1.retired {
        RetiredForever(s1, ops[1..], id);
      } else {
        CancelledForever(s1, ops[1..], id);
      }
    }
  }
}
