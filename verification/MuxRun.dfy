/**
  Runs of the multiplexer: any sequence of calls from any valid state, with the accounting every
  run keeps.
 */
module MuxRun {
  import opened Base
  import opened MuxSpec
  import opened MuxInvariant

  datatype Op =
    | OpenChannel(config: ChannelConfig)
    | EnqueueControl(payload: Bytes)
    | Enqueue(envelope: Envelope)
    | EnqueueDiscardable(envelope: Envelope)
    | NextOutbound
    | CancelChannel(id: u32)
    | CloseChannel(id: u32)
    | DiscardAll

  datatype Reply =
    | Done
    | Failed(error: LinkError)
    | Admission(admission: QueueAdmission)
    | Outbound(frame: OutboundFrame)
    | Nothing
    | Discarded(count: nat)

  ghost function Attempt(s: State, error: Option<LinkError>, s': State): (State, Reply) {
    if error.Some? then (s, Failed(error.value)) else (s', Done)
  }

  ghost function Open(s: State, c: ChannelConfig): (r: (State, Reply))
    requires Valid(s)
    ensures Valid(r.0)
  {
    if OpenError(s, c).Some? then (s, Failed(OpenError(s, c).value))
    else
      OpenedValid(s, c);
      (Opened(s, c), Done)
  }

  ghost function SendControl(s: State, payload: Bytes): (r: (State, Reply))
    requires Valid(s)
    ensures Valid(r.0)
  {
    if ControlError(s, payload).Some? then (s, Failed(ControlError(s, payload).value))
    else
      ControlQueuedValid(s, payload);
      (ControlQueued(s, payload), Done)
  }

  ghost function Send(s: State, e: Envelope): (r: (State, Reply))
    requires Valid(s)
    ensures Valid(r.0)
  {
    if EnqueueError(s, e).Some? then (s, Failed(EnqueueError(s, e).value))
    else
      QueuedValid(s, e);
      (Queued(s, e), Done)
  }

  ghost function SendDiscardable(s: State, e: Envelope): (r: (State, Reply))
    requires Valid(s)
    ensures Valid(r.0)
  {
    if DiscardableError(s, e).Some? then (s, Failed(DiscardableError(s, e).value))
    else if UnderPressure(s, e) then (s, Admission(DroppedDiscardable))
    else
      assert ChannelOk(s, e.channelId, s.channels[e.channelId]);
      QueuedValid(s, e);
      (Queued(s, e), Admission(Enqueued))
  }

  ghost function Next(s: State): (r: (State, Reply))
    requires Valid(s)
    ensures Valid(r.0)
  {
    if s.control != [] then
      ControlSentValid(s);
      (ControlSent(s), Outbound(Control(s.control[0])))
    else if s.ready == [] then (s, Nothing)
    else
      var k := NextIndex(s, |s.ready|);
      ServedValid(s, k);
      (Served(s, k), Outbound(Data(s.channels[s.ready[k]].queue[0])))
  }

  ghost function Cancel(s: State, id: u32): (r: (State, Reply))
    requires Valid(s)
    ensures Valid(r.0)
  {
    if id !in s.channels then (s, Failed(UnknownChannel(id)))
    else
      CancelledValid(s, id);
      (Cancelled(s, id), Discarded(|s.channels[id].queue|))
  }

  ghost function Close(s: State, id: u32): (r: (State, Reply))
    requires Valid(s)
    ensures Valid(r.0)
  {
    if CloseError(s, id).Some? then (s, Failed(CloseError(s, id).value))
    else
      ClosedValid(s, id);
      (Closed(s, id), Discarded(|s.channels[id].queue|))
  }

  ghost function Discard(s: State): (r: (State, Reply))
    requires Valid(s)
    ensures Valid(r.0)
  {
    EmptiedValid(s);
    (Emptied(s), Discarded(s.totalPending))
  }

  ghost function Step(s: State, op: Op): (r: (State, Reply))
    requires Valid(s)
    ensures Valid(r.0)
  {
    match op
    case OpenChannel(c) => Open(s, c)
    case EnqueueControl(p) => SendControl(s, p)
    case Enqueue(e) => Send(s, e)
    case EnqueueDiscardable(e) => SendDiscardable(s, e)
    case NextOutbound => Next(s)
    case CancelChannel(id) => Cancel(s, id)
    case CloseChannel(id) => Close(s, id)
    case DiscardAll => Discard(s)
  }

  /** The state after a whole run. That it is valid is the invariant of every reachable state. */
  ghost function Final(s: State, ops: seq<Op>): (s': State)
    requires Valid(s)
    ensures Valid(s')
    decreases |ops|
  {
    if ops == [] then s else Final(Step(s, ops[0]).0, ops[1..])
  }

  /* -------------------------------- Accounting --------------------------------- */

  ghost predicate Accepts(s: State, op: Op)
    requires Valid(s)
  {
    || ((op.Enqueue? || op.EnqueueControl?) && Step(s, op).1 == Done)
    || (op.EnqueueDiscardable? && Step(s, op).1 == Admission(Enqueued))
  }

  ghost predicate Delivers(s: State, op: Op)
    requires Valid(s)
  {
    op.NextOutbound? && Step(s, op).1.Outbound?
  }

  ghost predicate DeliversData(s: State, op: Op)
    requires Valid(s)
  {
    Delivers(s, op) && Step(s, op).1.frame.Data?
  }

  ghost function StepAccepted(s: State, op: Op, id: u32): seq<Envelope>
    requires Valid(s)
  {
    if (op.Enqueue? || op.EnqueueDiscardable?) && Accepts(s, op) && op.envelope.channelId == id then [op.envelope]
    else []
  }

  ghost function StepDelivered(s: State, op: Op, id: u32): seq<Envelope>
    requires Valid(s)
  {
    if DeliversData(s, op) && Step(s, op).1.frame.envelope.channelId == id then [Step(s, op).1.frame.envelope]
    else []
  }

  ghost function QueueOf(s: State, id: u32): seq<Envelope> {
    if id in s.channels then s.channels[id].queue else []
  }

  /** Frames of a channel thrown away by cancel, close or discard, oldest first. */
  ghost function StepPurged(s: State, op: Op, id: u32): seq<Envelope> {
    if op == CancelChannel(id) || op == CloseChannel(id) || op == DiscardAll then QueueOf(s, id) else []
  }

  ghost function Accepted(s: State, ops: seq<Op>, id: u32): seq<Envelope>
    requires Valid(s)
    decreases |ops|
  {
    if ops == [] then [] else StepAccepted(s, ops[0], id) + Accepted(Step(s, ops[0]).0, ops[1..], id)
  }

  ghost function Delivered(s: State, ops: seq<Op>, id: u32): seq<Envelope>
    requires Valid(s)
    decreases |ops|
  {
    if ops == [] then [] else StepDelivered(s, ops[0], id) + Delivered(Step(s, ops[0]).0, ops[1..], id)
  }

  /** Frames leaving a channel's queue in the order they leave it, delivered or purged. */
  ghost function Departed(s: State, ops: seq<Op>, id: u32): seq<Envelope>
    requires Valid(s)
    decreases |ops|
  {
    if ops == [] then []
    else
      StepDelivered(s, ops[0], id) + StepPurged(s, ops[0], id) + Departed(Step(s, ops[0]).0, ops[1..], id)
  }

  lemma NextDelivers(s: State)
    requires Valid(s) && s.control == [] && s.ready != []
    ensures forall id :: id in s.ready ==> id in s.channels && s.channels[id].queue != []
    ensures var k := NextIndex(s, |s.ready|);
            var e := s.channels[s.ready[k]].queue[0];
            && IsNext(s, k) && e.channelId == s.ready[k]
            && Next(s) == (Served(s, k), Outbound(Data(e)))
  {
    var id := s.ready[NextIndex(s, |s.ready|)];
    assert ChannelOk(s, id, s.channels[id]);
    assert s.channels[id].queue[0] in s.channels[id].queue;
  }

  lemma QueueNextStep(s: State, id: u32)
    requires Valid(s)
    ensures QueueOf(s, id) == StepDelivered(s, NextOutbound, id) + QueueOf(Next(s).0, id)
  {
    hide Valid;
    if s.control == [] && s.ready != [] {
      NextDelivers(s);
      var q := s.channels[s.ready[NextIndex(s, |s.ready|)]].queue;
      assert q == [q[0]] + q[1..];
    }
  }

  lemma QueueEnqueueStep(s: State, op: Op, id: u32)
    requires Valid(s) && (op.Enqueue? || op.EnqueueDiscardable?)
    ensures QueueOf(s, id) + StepAccepted(s, op, id) == QueueOf(Step(s, op).0, id)
  {
    hide Valid;
  }

  lemma QueueOtherStep(s: State, op: Op, id: u32)
    requires Valid(s) && !op.Enqueue? && !op.EnqueueDiscardable? && !op.NextOutbound?
    ensures QueueOf(s, id) == StepPurged(s, op, id) + QueueOf(Step(s, op).0, id)
  {
    hide Valid;
  }

  lemma QueueStep(s: State, op: Op, id: u32)
    requires Valid(s)
    ensures QueueOf(s, id) + StepAccepted(s, op, id)
         == StepDelivered(s, op, id) + StepPurged(s, op, id) + QueueOf(Step(s, op).0, id)
  {
    hide Valid, QueueOf;
    match op
    case NextOutbound =>
      hide Next;
      QueueNextStep(s, id);
    case Enqueue(e) =>
      hide Send;
      QueueEnqueueStep(s, op, id);
    case EnqueueDiscardable(e) =>
      hide SendDiscardable;
      QueueEnqueueStep(s, op, id);
    case _ =>
      hide Step;
      QueueOtherStep(s, op, id);
  }

  /**
    Every channel is a FIFO queue over every run: what was queued followed by what was accepted is
    what left followed by what is still queued, frame for frame.
   */
  lemma {:induction false} ChannelIsFifo(s: State, ops: seq<Op>, id: u32)
    requires Valid(s)
    ensures QueueOf(s, id) + Accepted(s, ops, id) == Departed(s, ops, id) + QueueOf(Final(s, ops), id)
    decreases |ops|
  {
    hide Valid, Step, StepAccepted, StepDelivered, StepPurged, QueueOf;
    if ops == [] {
    } else {
      var s1 := Step(s, ops[0]).0;
      ChannelIsFifo(s1, ops[1..], id);
      QueueStep(s, ops[0], id);
      var (acc, rest) := (StepAccepted(s, ops[0], id), Accepted(s1, ops[1..], id));
      var out := StepDelivered(s, ops[0], id) + StepPurged(s, ops[0], id);
      calc {
        QueueOf(s, id) + Accepted(s, ops, id);
        QueueOf(s, id) + acc + rest;
        out + (QueueOf(s1, id) + rest);
        out + (Departed(s1, ops[1..], id) + QueueOf(Final(s, ops), id));
        Departed(s, ops, id) + QueueOf(Final(s, ops), id);
      }
    }
  }

  ghost predicate NeverPurges(ops: seq<Op>, id: u32) {
    forall k :: 0 <= k < |ops| ==> ops[k] != CancelChannel(id) && ops[k] != CloseChannel(id) && ops[k] != DiscardAll
  }

  /** Without a cancel, close or discard nothing accepted is ever lost, duplicated or reordered. */
  lemma {:induction false} NothingLost(s: State, ops: seq<Op>, id: u32)
    requires Valid(s) && NeverPurges(ops, id)
    ensures QueueOf(s, id) + Accepted(s, ops, id) == Delivered(s, ops, id) + QueueOf(Final(s, ops), id)
  {
    ChannelIsFifo(s, ops, id);
    DepartedIsDelivered(s, ops, id);
  }

  lemma {:induction false} DepartedIsDelivered(s: State, ops: seq<Op>, id: u32)
    requires Valid(s) && NeverPurges(ops, id)
    ensures Departed(s, ops, id) == Delivered(s, ops, id)
    decreases |ops|
  {
    if ops == [] {
    } else {
      assert ops[0] == ops[0 + 0];
      assert NeverPurges(ops[1..], id) by {
        assert forall k :: 0 <= k < |ops[1..]| ==> ops[1..][k] == ops[k + 1];
      }
      DepartedIsDelivered(Step(s, ops[0]).0, ops[1..], id);
    }
  }

  /* --------------------------------- Control ----------------------------------- */

  ghost function StepControl(s: State, op: Op): seq<Bytes>
    requires Valid(s)
  {
    if op.EnqueueControl? && Accepts(s, op) then [op.payload] else []
  }

  ghost function StepControlSent(s: State, op: Op): seq<Bytes>
    requires Valid(s)
  {
    if Delivers(s, op) && Step(s, op).1.frame.Control? then [Step(s, op).1.frame.payload] else []
  }

  /** The control frames accepted over the run. */
  ghost function ControlAccepted(s: State, ops: seq<Op>): seq<Bytes>
    requires Valid(s)
    decreases |ops|
  {
    if ops == [] then [] else StepControl(s, ops[0]) + ControlAccepted(Step(s, ops[0]).0, ops[1..])
  }

  /** The control frames that left the queue, sent or discarded, in the order they left. */
  ghost function ControlDeparted(s: State, ops: seq<Op>): seq<Bytes>
    requires Valid(s)
    decreases |ops|
  {
    if ops == [] then []
    else
      StepControlSent(s, ops[0]) + (if ops[0] == DiscardAll then s.control else [])
      + ControlDeparted(Step(s, ops[0]).0, ops[1..])
  }

  lemma ControlStep(s: State, op: Op)
    requires Valid(s)
    ensures s.control + StepControl(s, op)
         == StepControlSent(s, op) + (if op == DiscardAll then s.control else []) + Step(s, op).0.control
    ensures op == NextOutbound && s.control != [] ==> Step(s, op).1 == Outbound(Control(s.control[0]))
  {
    hide Valid;
  }

  /**
    Control frames form one FIFO queue over every run, and while one is pending no data frame is
    sent.
   */
  lemma {:induction false} ControlIsFifo(s: State, ops: seq<Op>)
    requires Valid(s)
    ensures s.control + ControlAccepted(s, ops) == ControlDeparted(s, ops) + Final(s, ops).control
    ensures ops != [] && DeliversData(s, ops[0]) ==> s.control == []
    decreases |ops|
  {
    hide Valid, Step, StepControl, StepControlSent;
    if ops == [] {
    } else {
      var s1 := Step(s, ops[0]).0;
      ControlStep(s, ops[0]);
      ControlIsFifo(s1, ops[1..]);
      var (acc, rest) := (StepControl(s, ops[0]), ControlAccepted(s1, ops[1..]));
      var out := StepControlSent(s, ops[0]) + (if ops[0] == DiscardAll then s.control else []);
      calc {
        s.control + (acc + rest);
        s.control + acc + rest;
        out + (s1.control + rest);
        out + (ControlDeparted(s1, ops[1..]) + Final(s, ops).control);
        out + ControlDeparted(s1, ops[1..]) + Final(s, ops).control;
      }
    }
  }

  /* ------------------------------- Conservation -------------------------------- */

  ghost function In(s: State, ops: seq<Op>): nat
    requires Valid(s)
    decreases |ops|
  {
    if ops == [] then 0 else (if Accepts(s, ops[0]) then 1 else 0) + In(Step(s, ops[0]).0, ops[1..])
  }

  ghost function Out(s: State, ops: seq<Op>): nat
    requires Valid(s)
    decreases |ops|
  {
    if ops == [] then 0 else (if Delivers(s, ops[0]) then 1 else 0) + Out(Step(s, ops[0]).0, ops[1..])
  }

  /** The sum of the counts that cancel, close and discard reported to their callers. */
  ghost function ReportedDiscards(s: State, ops: seq<Op>): nat
    requires Valid(s)
    decreases |ops|
  {
    if ops == [] then 0
    else
      (if Step(s, ops[0]).1.Discarded? then Step(s, ops[0]).1.count else 0)
      + ReportedDiscards(Step(s, ops[0]).0, ops[1..])
  }

  lemma PendingStep(s: State, op: Op)
    requires Valid(s)
    ensures s.totalPending + (if Accepts(s, op) then 1 else 0)
         == Step(s, op).0.totalPending + (if Delivers(s, op) then 1 else 0)
            + (if Step(s, op).1.Discarded? then Step(s, op).1.count else 0)
  {
    hide Valid;
    if op.CloseChannel? && op.id in s.channels {
      ClosedValid(s, op.id);
    }
  }

  /** Every frame accepted is sent, still pending, or in a discard count reported to a caller. */
  lemma {:induction false} FramesConserved(s: State, ops: seq<Op>)
    requires Valid(s)
    ensures s.totalPending + In(s, ops) == Final(s, ops).totalPending + Out(s, ops) + ReportedDiscards(s, ops)
    decreases |ops|
  {
    if ops == [] {
    } else {
      PendingStep(s, ops[0]);
      FramesConserved(Step(s, ops[0]).0, ops[1..]);
    }
  }

  /* -------------------------- Identities and byte budgets ----------------------- */

  lemma ConstantStep(s: State, op: Op)
    requires Valid(s)
    ensures Step(s, op).0.limits == s.limits && Step(s, op).0.sessionId == s.sessionId
    ensures Step(s, op).0.allowedProtocols == s.allowedProtocols
    ensures s.retired <= Step(s, op).0.retired
  {
    hide LimitsOk, TableOk, ReadyOk, CountOk, KeysOk, TagsOk;
  }

  lemma OpenStep(s: State, op: Op, id: u32)
    requires Valid(s) && id in s.channels
    ensures id in Step(s, op).0.channels || id in Step(s, op).0.retired
    ensures id in Step(s, op).0.channels ==> Step(s, op).0.channels[id].config == s.channels[id].config
  {
    hide Valid;
  }

  /** A retired id stays retired, and a channel that stays open keeps its configuration. */
  lemma TableStep(s: State, op: Op, id: u32)
    requires Valid(s)
    ensures Step(s, op).0.limits == s.limits && Step(s, op).0.sessionId == s.sessionId
    ensures Step(s, op).0.allowedProtocols == s.allowedProtocols
    ensures s.retired <= Step(s, op).0.retired
    ensures id in s.channels ==> id in Step(s, op).0.channels || id in Step(s, op).0.retired
    ensures id in s.channels && id in Step(s, op).0.channels ==>
              Step(s, op).0.channels[id].config == s.channels[id].config
    ensures id in s.retired ==> id !in Step(s, op).0.channels
  {
    hide Valid, Step;
    ConstantStep(s, op);
    if id in s.channels {
      OpenStep(s, op, id);
    }
    if id in s.retired {
      RetiredIsGone(Step(s, op).0, id);
    }
  }

  lemma RetiredIsGone(s: State, id: u32)
    requires Valid(s) && id in s.retired
    ensures id !in s.channels
  {
  }

  lemma RetiredStep(s: State, op: Op, id: u32)
    requires Valid(s) && id in s.retired
    ensures id in Step(s, op).0.retired
    ensures StepAccepted(s, op, id) == [] && StepDelivered(s, op, id) == []
  {
    RetiredIsGone(s, id);
    TableStep(s, op, id);
    if op.NextOutbound? && s.control == [] && s.ready != [] {
      NextDelivers(s);
    }
    hide Valid;
  }

  lemma {:induction false} RetiredForever(s: State, ops: seq<Op>, id: u32)
    requires Valid(s) && id in s.retired
    ensures id in Final(s, ops).retired && id !in Final(s, ops).channels
    ensures Accepted(s, ops, id) == [] && Delivered(s, ops, id) == []
    decreases |ops|
  {
    hide Valid, Step, StepAccepted, StepDelivered, StepPurged;
    RetiredIsGone(s, id);
    if ops == [] {
    } else {
      RetiredStep(s, ops[0], id);
      RetiredForever(Step(s, ops[0]).0, ops[1..], id);
    }
  }

  ghost function TotalBytes(frames: seq<Envelope>): nat {
    if frames == [] then 0 else |frames[0].payload| + TotalBytes(frames[1..])
  }

  /** A stream limit the saturating byte counter can actually exceed. */
  predicate StreamLimited(c: ChannelConfig) {
    c.maxStreamBytes.Some? && c.maxStreamBytes.value < U64_MAX
  }

  lemma StreamWithinLimit(s: State, id: u32)
    requires Valid(s) && id in s.channels && s.channels[id].config.maxStreamBytes.Some?
    ensures s.channels[id].streamBytes <= s.channels[id].config.maxStreamBytes.value
    ensures s.channels[id].config.mode == Stream
  {
    assert ChannelOk(s, id, s.channels[id]);
  }

  lemma StreamStep(s: State, op: Op, id: u32)
    requires Valid(s) && id in s.channels && StreamLimited(s.channels[id].config)
    requires id in Step(s, op).0.channels
    ensures Step(s, op).0.channels[id].streamBytes
         == s.channels[id].streamBytes + TotalBytes(StepAccepted(s, op, id))
  {
    hide Valid, StepDelivered;
    StreamWithinLimit(s, id);
    if (op.Enqueue? || op.EnqueueDiscardable?) && op.envelope.channelId == id {
      assert TotalBytes([op.envelope]) == |op.envelope.payload|;
    }
  }

  lemma {:induction false} TotalBytesAppend(a: seq<Envelope>, b: seq<Envelope>)
    ensures TotalBytes(a + b) == TotalBytes(a) + TotalBytes(b)
  {
    if a == [] {
      assert a + b == b;
    } else {
      assert (a + b)[1..] == a[1..] + b;
      TotalBytesAppend(a[1..], b);
    }
  }

  lemma LeavingAcceptsNothing(s: State, op: Op, id: u32)
    requires Valid(s) && id in s.channels && id !in Step(s, op).0.channels
    ensures StepAccepted(s, op, id) == []
  {
    hide Valid;
  }

  /**
    A stream channel never accepts more bytes over its life than its configuration allows. The
    one limit that does not bind is `u64::MAX`, see `MuxCeiling.StreamBudgetExactly`.
   */
  lemma {:induction false} StreamBudget(s: State, ops: seq<Op>, id: u32)
    requires Valid(s) && id in s.channels && StreamLimited(s.channels[id].config)
    ensures s.channels[id].streamBytes + TotalBytes(Accepted(s, ops, id)) <= s.channels[id].config.maxStreamBytes.value
    decreases |ops|
  {
    hide Valid, Step, StepAccepted;
    StreamWithinLimit(s, id);
    if ops == [] {
    } else {
      var s1 := Step(s, ops[0]).0;
      TotalBytesAppend(StepAccepted(s, ops[0], id), Accepted(s1, ops[1..], id));
      TableStep(s, ops[0], id);
      if id in s1.channels {
        StreamStep(s, ops[0], id);
        StreamBudget(s1, ops[1..], id);
      } else {
        LeavingAcceptsNothing(s, ops[0], id);
        RetiredForever(s1, ops[1..], id);
      }
    }
  }
}
