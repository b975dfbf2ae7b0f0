/**
  The multiplexer where its numbers run out: a stream limit the byte counter cannot exceed, and
  virtual time at its 128-bit ceiling.
 */
module MuxCeiling {
  import opened Base
  import opened MuxSpec
  import opened MuxInvariant
  import opened MuxRun
  import opened MuxFairness

  /* ----------------------------- One frame at a time ---------------------------- */

  /** Nothing is queued anywhere, and `e` would be accepted however often it is sent and dequeued. */
  ghost predicate Idle(s: State, e: Envelope) {
    && s.control == [] && s.ready == [] && s.totalPending == 0
    && IdentityError(s, e).None? && ChannelError(s, e).None?
    && !s.channels[e.channelId].cancelled && |e.payload| <= U64_MAX
    && s.channels[e.channelId].config.maxStreamBytes in {None, Some(U64_MAX)}
  }

  lemma IdleAdmits(s: State, e: Envelope)
    requires Valid(s) && Idle(s, e)
    ensures EnqueueError(s, e).None? && s.channels[e.channelId].queue == []
  {
    assert ChannelOk(s, e.channelId, s.channels[e.channelId]);
  }

  /** What a round of enqueueing a frame and dequeueing it does. */
  ghost predicate RoundMade(s: State, s2: State, e: Envelope)
    requires e.channelId in s.channels
  {
    && s2.control == [] && s2.ready == [] && s2.totalPending == 0
    && s2.sessionId == s.sessionId && s2.limits == s.limits && s2.retired == s.retired
    && s2.virtualTime == StartTag(s, e.channelId)
    && s2.channels.Keys == s.channels.Keys
    && (forall id :: id in s.channels && id != e.channelId ==> s2.channels[id] == s.channels[id])
    && s2.channels[e.channelId].config == s.channels[e.channelId].config
    && s2.channels[e.channelId].cancelled == s.channels[e.channelId].cancelled
    && Tag(s2, e.channelId)
       == SaturatingAdd128(s2.virtualTime, SchedulingCost(|e.payload|, s.channels[e.channelId].config.priorityHint))
  }

  lemma ServeQueued(s: State, e: Envelope)
    requires Idle(s, e) && s.channels[e.channelId].queue == []
    ensures var s1 := Queued(s, e);
            && s1.control == [] && s1.ready == [e.channelId] && s1.totalPending == 1
            && s1.channels[e.channelId].queue == [e]
            && RoundMade(s, Served(s1, 0), e)
  {
    hide SchedulingCost;
    assert RemoveAt([e.channelId], 0) == [];
    assert [e][1..] == [];
  }

  lemma RoundIdles(s: State, s2: State, e: Envelope)
    requires Idle(s, e) && RoundMade(s, s2, e)
    ensures Idle(s2, e)
  {
    hide SchedulingCost;
  }

  lemma OneRound(s: State, e: Envelope)
    requires Valid(s) && Idle(s, e)
    ensures var s1 := Step(s, Enqueue(e)).0;
            var s2 := Step(s1, NextOutbound).0;
            && StepAccepted(s, Enqueue(e), e.channelId) == [e]
            && StepAccepted(s1, NextOutbound, e.channelId) == []
            && e.channelId in s.channels && RoundMade(s, s2, e) && Idle(s2, e)
  {
    hide Valid, SchedulingCost, Queued, Served, EnqueueError, RoundMade, Idle;
    IdleAdmits(s, e);
    IdleChannel(s, e);
    ServeQueued(s, e);
    var s1 := Step(s, Enqueue(e)).0;
    assert s1 == Queued(s, e);
    NextDelivers(s1);
    assert NextIndex(s1, |s1.ready|) == 0;
    RoundIdles(s, Step(s1, NextOutbound).0, e);
  }

  lemma IdleChannel(s: State, e: Envelope)
    requires Idle(s, e)
    ensures e.channelId in s.channels
  {
  }

  function Rounds(e: Envelope, n: nat): seq<Op> {
    if n == 0 then [] else [Enqueue(e)] + ([NextOutbound] + Rounds(e, n - 1))
  }

  lemma {:induction false} RoundsAccept(s: State, e: Envelope, n: nat)
    requires Valid(s) && Idle(s, e)
    ensures TotalBytes(Accepted(s, Rounds(e, n), e.channelId)) == n * |e.payload|
    decreases n
  {
    hide Valid, Idle, Step, StepAccepted, RoundMade, TotalBytes;
    OneFrame(e);
    if n > 0 {
      OneRound(s, e);
      var s1 := Step(s, Enqueue(e)).0;
      var s2 := Step(s1, NextOutbound).0;
      var rest := [NextOutbound] + Rounds(e, n - 1);
      assert Rounds(e, n)[1..] == rest && rest[1..] == Rounds(e, n - 1);
      RoundsAccept(s2, e, n - 1);
      assert Accepted(s1, rest, e.channelId) == Accepted(s2, Rounds(e, n - 1), e.channelId);
      TotalBytesAppend([e], Accepted(s2, Rounds(e, n - 1), e.channelId));
      TimesStep(n - 1, |e.payload|);
    }
  }

  lemma OneFrame(e: Envelope)
    ensures TotalBytes([]) == 0 && TotalBytes([e]) == |e.payload|
  {
  }

  /** The smallest frame of a channel. */
  function OneByte(s: State, id: u32): Envelope
    requires id in s.channels
  {
    Envelope(s.sessionId, id, s.channels[id].config.generation, 0, 0, EnvelopeFlags(false, false), [0])
  }

  lemma EmptiedIdles(s: State, id: u32)
    requires LimitsOk(s.limits) && TableOk(s) && id in s.channels && !s.channels[id].cancelled
    requires s.channels[id].config.maxStreamBytes == Some(U64_MAX)
    ensures Idle(Emptied(s), OneByte(s, id))
  {
    assert ChannelOk(s, id, s.channels[id]);
  }

  lemma DiscardIdles(s: State, id: u32)
    requires Valid(s) && id in s.channels && !s.channels[id].cancelled
    requires s.channels[id].config.maxStreamBytes == Some(U64_MAX)
    ensures Idle(Step(s, DiscardAll).0, OneByte(s, id)) && StepAccepted(s, DiscardAll, id) == []
  {
    hide LimitsOk, TableOk, ReadyOk, CountOk, KeysOk, TagsOk, Emptied, OneByte, Idle;
    EmptiedIdles(s, id);
  }

  /**
    The budget holds in every run of a channel exactly when its limit is below `u64::MAX`. At that
    limit the byte counter saturates and no frame is ever over it, so sending one byte at a time
    accepts more than the limit.
   */
  lemma StreamBudgetExactly(s: State, id: u32)
    requires Valid(s) && id in s.channels && !s.channels[id].cancelled && s.channels[id].config.maxStreamBytes.Some?
    ensures var limit := s.channels[id].config.maxStreamBytes.value;
            (forall ops: seq<Op> :: s.channels[id].streamBytes + TotalBytes(Accepted(s, ops, id)) <= limit)
            <==> limit < U64_MAX
  {
    hide Valid, Step, StepAccepted, Idle, TotalBytes;
    var limit := s.channels[id].config.maxStreamBytes.value;
    if limit < U64_MAX {
      forall ops: seq<Op>
        ensures s.channels[id].streamBytes + TotalBytes(Accepted(s, ops, id)) <= limit
      {
        StreamBudget(s, ops, id);
      }
    } else {
      DiscardIdles(s, id);
      var rounds := Rounds(OneByte(s, id), limit + 1);
      RoundsAccept(Step(s, DiscardAll).0, OneByte(s, id), limit + 1);
      var ops := [DiscardAll] + rounds;
      assert ops[1..] == rounds;
      assert Accepted(s, ops, id) == Accepted(Step(s, DiscardAll).0, rounds, id);
      assert s.channels[id].streamBytes + TotalBytes(Accepted(s, ops, id)) > limit;
    }
  }

  /* ------------------------- Turns at the ceiling of virtual time ----------------------- */

  function Dequeues(n: nat): seq<Op> {
    if n == 0 then [] else [NextOutbound] + Dequeues(n - 1)
  }

  function FramesCost(frames: seq<Envelope>, priorityHint: byte): nat {
    if frames == [] then 0
    else SchedulingCost(|frames[0].payload|, priorityHint) + FramesCost(frames[1..], priorityHint)
  }

  /** Virtual time is at its ceiling and exactly `i` and `j` have something to send, in this order. */
  ghost predicate TwoWait(s: State, i: u32, j: u32) {
    s.virtualTime == U128_MAX && s.control == [] && s.ready == [i, j]
  }

  lemma WaitingAtCeiling(s: State, i: u32, j: u32)
    requires Valid(s) && TwoWait(s, i, j)
    ensures i in s.channels && j in s.channels && i != j
    ensures s.channels[i].queue != [] && s.channels[j].queue != []
    ensures Tag(s, i) == U128_MAX && Tag(s, j) == U128_MAX
  {
    assert s.ready[0] == i && s.ready[1] == j;
  }

  lemma Turn(s: State, i: u32, j: u32)
    requires Valid(s) && TwoWait(s, i, j) && |QueueOf(s, i)| >= 2
    ensures i in s.channels && j in s.channels
    ensures var s1 := Step(s, NextOutbound).0;
            && TwoWait(s1, j, i) && i in s1.channels && j in s1.channels
            && QueueOf(s1, i) == QueueOf(s, i)[1..] && QueueOf(s1, j) == QueueOf(s, j)
            && s1.channels[i].config == s.channels[i].config && s1.channels[j].config == s.channels[j].config
    ensures StepCost(s, NextOutbound, j) == 0
    ensures AnyCost(s, NextOutbound) == StepCost(s, NextOutbound, i)
         == SchedulingCost(|QueueOf(s, i)[0].payload|, s.channels[i].config.priorityHint)
  {
    hide Valid, SchedulingCost;
    WaitingAtCeiling(s, i, j);
    NextDelivers(s);
    StepIsNext(s);
    assert NextIndex(s, |s.ready|) == 0;
    assert RemoveAt([i, j], 0) == [j];
  }

  /**
    At the ceiling two backlogged channels take turns frame by frame, whatever their frames cost
    and whatever their weights.
   */
  lemma {:induction false} RoundRobinAtCeiling(s: State, i: u32, j: u32, n: nat)
    requires Valid(s) && TwoWait(s, i, j) && |QueueOf(s, i)| > (n + 1) / 2 && |QueueOf(s, j)| > n / 2
    ensures i in s.channels && j in s.channels
    ensures Backlogged(s, Dequeues(n), i) && Backlogged(s, Dequeues(n), j)
    ensures ServedCost(s, Dequeues(n), i)
         == FramesCost(QueueOf(s, i)[..(n + 1) / 2], s.channels[i].config.priorityHint)
    ensures ServedCost(s, Dequeues(n), j)
         == FramesCost(QueueOf(s, j)[..n / 2], s.channels[j].config.priorityHint)
    ensures TotalCost(s, Dequeues(n)) == ServedCost(s, Dequeues(n), i) + ServedCost(s, Dequeues(n), j)
    decreases n
  {
    hide Valid, Step, StepCost, AnyCost, SchedulingCost, TwoWait;
    WaitingAtCeiling(s, i, j);
    if n > 0 {
      Turn(s, i, j);
      var s1 := Step(s, NextOutbound).0;
      assert Dequeues(n)[1..] == Dequeues(n - 1);
      RoundRobinAtCeiling(s1, j, i, n - 1);
      var sent := QueueOf(s, i)[..(n + 1) / 2];
      assert sent[1..] == QueueOf(s1, i)[..(n - 1) / 2];
    }
  }

  /* ----------------------------- A run that reaches it ---------------------------------- */

  /** What filling and draining leaves alone. */
  ghost predicate SameShape(s: State, s2: State, id: u32)
    requires id in s.channels
  {
    && s2.control == s.control && s2.sessionId == s.sessionId && s2.limits == s.limits && s2.retired == s.retired
    && s2.channels.Keys == s.channels.Keys
    && s2.channels[id].config == s.channels[id].config && s2.channels[id].cancelled == s.channels[id].cancelled
    && forall x :: x in s.channels && x != id ==> s2.channels[x] == s.channels[x]
  }

  lemma RoundKeepsShape(s: State, s2: State, e: Envelope)
    requires s.control == [] && e.channelId in s.channels && RoundMade(s, s2, e)
    ensures SameShape(s, s2, e.channelId)
    ensures var cost := SchedulingCost(|e.payload|, s.channels[e.channelId].config.priorityHint);
            && s2.virtualTime == StartTag(s, e.channelId)
            && StartTag(s2, e.channelId) == SaturatingAdd128(StartTag(s, e.channelId), cost)
  {
    hide SchedulingCost;
  }

  /** Virtual time after `n` rounds of one frame on an idle multiplexer. */
  function TimeAfter(time: u128, tag: u128, cost: nat, n: nat): u128 {
    if n == 0 then time else SaturatingAdd128(tag, (n - 1) * cost)
  }

  lemma TimeStarts(time: u128, tag: u128, cost: nat)
    ensures TimeAfter(time, tag, cost, 0) == time
  {
  }

  lemma TimeChains(time: u128, tag: u128, cost: nat, n: nat)
    requires n > 0
    ensures TimeAfter(tag, SaturatingAdd128(tag, cost), cost, n - 1) == TimeAfter(time, tag, cost, n)
  {
    if n > 1 {
      TimesStep(n - 2, cost);
    }
  }

  lemma {:induction false} RoundsMoveTime(s: State, e: Envelope, n: nat)
    requires Valid(s) && Idle(s, e)
    ensures var s2 := Final(s, Rounds(e, n));
            && e.channelId in s.channels && SameShape(s, s2, e.channelId) && Idle(s2, e)
            && s2.virtualTime
               == TimeAfter(s.virtualTime, StartTag(s, e.channelId),
                            SchedulingCost(|e.payload|, s.channels[e.channelId].config.priorityHint), n)
    decreases n
  {
    hide Valid, Idle, Step, RoundMade, SchedulingCost, StartTag, TimeAfter, SaturatingAdd128;
    IdleChannel(s, e);
    if n == 0 {
      TimeStarts(s.virtualTime, StartTag(s, e.channelId),
                 SchedulingCost(|e.payload|, s.channels[e.channelId].config.priorityHint));
    } else {
      OneRound(s, e);
      var s1 := Step(s, Enqueue(e)).0;
      var s2 := Step(s1, NextOutbound).0;
      var rest := [NextOutbound] + Rounds(e, n - 1);
      assert Rounds(e, n)[1..] == rest && rest[1..] == Rounds(e, n - 1);
      IdleControl(s, e);
      RoundKeepsShape(s, s2, e);
      RoundsMoveTime(s2, e, n - 1);
      TimeChains(s.virtualTime, StartTag(s, e.channelId),
                 SchedulingCost(|e.payload|, s.channels[e.channelId].config.priorityHint), n);
    }
  }

  lemma IdleControl(s: State, e: Envelope)
    requires Idle(s, e)
    ensures s.control == [] && s.ready == [] && s.totalPending == 0
  {
  }

  function Fill(e: Envelope, n: nat): seq<Op> {
    if n == 0 then [] else [Enqueue(e)] + Fill(e, n - 1)
  }

  function Copies(e: Envelope, n: nat): (r: seq<Envelope>)
    ensures |r| == n
  {
    if n == 0 then [] else [e] + Copies(e, n - 1)
  }

  ghost predicate Room(s: State, e: Envelope, n: nat) {
    && IdentityError(s, e).None? && ChannelError(s, e).None?
    && var c := s.channels[e.channelId];
       && !c.cancelled && c.config.maxStreamBytes.None?
       && |c.queue| + n <= c.config.capacity && s.totalPending + n <= s.limits.maxTotalPendingFrames
  }

  ghost predicate FilledBy(s: State, s2: State, e: Envelope, n: nat)
    requires e.channelId in s.channels
  {
    && SameShape(s, s2, e.channelId) && s2.virtualTime == s.virtualTime
    && s2.totalPending == s.totalPending + n
    && s2.channels[e.channelId].queue == s.channels[e.channelId].queue + Copies(e, n)
    && s2.ready == if n > 0 && s.channels[e.channelId].queue == [] then s.ready + [e.channelId] else s.ready
  }

  lemma FillOne(s: State, e: Envelope, n: nat)
    requires Valid(s) && Room(s, e, n) && n > 0
    ensures var s1 := Step(s, Enqueue(e)).0;
            && e.channelId in s.channels && FilledBy(s, s1, e, 1) && Room(s1, e, n - 1)
  {
    hide Valid;
    assert Copies(e, 1) == [e];
    assert EnqueueError(s, e).None?;
  }

  lemma {:induction false} Filled(s: State, e: Envelope, n: nat)
    requires Valid(s) && Room(s, e, n)
    ensures e.channelId in s.channels && FilledBy(s, Final(s, Fill(e, n)), e, n)
    decreases n
  {
    hide Valid, Step;
    if n == 0 {
      assert s.channels[e.channelId].queue + [] == s.channels[e.channelId].queue;
    } else {
      hide Room, FilledBy;
      FillOne(s, e, n);
      var s1 := Step(s, Enqueue(e)).0;
      assert Fill(e, n)[1..] == Fill(e, n - 1);
      FilledChannel(s, s1, e, 1);
      Filled(s1, e, n - 1);
      FilledChain(s, s1, Final(s1, Fill(e, n - 1)), e, n);
    }
  }

  lemma FilledChannel(s: State, s1: State, e: Envelope, n: nat)
    requires e.channelId in s.channels && FilledBy(s, s1, e, n)
    ensures e.channelId in s1.channels
  {
  }

  lemma FilledChain(s: State, s1: State, s2: State, e: Envelope, n: nat)
    requires e.channelId in s.channels && e.channelId in s1.channels && n > 0
    requires FilledBy(s, s1, e, 1) && FilledBy(s1, s2, e, n - 1)
    ensures FilledBy(s, s2, e, n)
  {
    assert Copies(e, 1) == [e];
    assert s.channels[e.channelId].queue + [e] + Copies(e, n - 1)
        == s.channels[e.channelId].queue + ([e] + Copies(e, n - 1));
  }

  /* ------------------------------- Unequal shares --------------------------------------- */

  function PlainChannel(key: ChannelKey, id: u32): ChannelConfig {
    ChannelConfig(key, id, 1, RequestResponse, 0, U64_MAX, 3, None, false)
  }

  function PlainFrame(sessionId: Id16, id: u32, payload: Bytes): Envelope {
    Envelope(sessionId, id, 1, 0, 0, EnvelopeFlags(false, false), payload)
  }

  ghost function TwoChannels(sessionId: Id16, key: ChannelKey): (s: State)
    ensures Valid(s)
  {
    var s0 := Initial(sessionId, MultiplexerLimits(3, 0, 2, 1, U64_MAX), None);
    InitialValid(sessionId, s0.limits, None);
    OpenedValid(s0, PlainChannel(key, 1));
    OpenedValid(Opened(s0, PlainChannel(key, 1)), PlainChannel(key, 2));
    Opened(Opened(s0, PlainChannel(key, 1)), PlainChannel(key, 2))
  }

  const ROUNDS_TO_CEILING: nat := U128_MAX / 8 + 2

  /** Two channels of one weight at the ceiling, with `n` frames of one byte and of three bytes queued. */
  ghost function AtCeiling(sessionId: Id16, key: ChannelKey, n: nat): (s: State)
    ensures Valid(s)
  {
    var small, large := PlainFrame(sessionId, 1, [0]), PlainFrame(sessionId, 2, [0, 0, 0]);
    var s0 := Final(TwoChannels(sessionId, key), Rounds(small, ROUNDS_TO_CEILING));
    Final(Final(s0, Fill(small, n)), Fill(large, n))
  }

  lemma {:induction false} CopiesCost(e: Envelope, n: nat, k: nat, priorityHint: byte)
    requires k <= n
    ensures FramesCost(Copies(e, n)[..k], priorityHint) == k * SchedulingCost(|e.payload|, priorityHint)
  {
    hide SchedulingCost;
    if k > 0 {
      assert Copies(e, n)[..k][1..] == Copies(e, n - 1)[..k - 1];
      CopiesCost(e, n - 1, k - 1, priorityHint);
      TimesStep(k - 1, SchedulingCost(|e.payload|, priorityHint));
    }
  }

  lemma PlainCosts()
    ensures SchedulingCost(1, 0) == 8 && SchedulingCost(3, 0) == 24
  {
  }

  lemma TimeIsUp()
    ensures TimeAfter(0, 0, 8, ROUNDS_TO_CEILING) == U128_MAX
  {
  }

  lemma TwoChannelsIdle(sessionId: Id16, key: ChannelKey)
    ensures var s, small := TwoChannels(sessionId, key), PlainFrame(sessionId, 1, [0]);
            && Idle(s, small) && s.virtualTime == 0 && s.channels.Keys == {1, 2}
            && s.channels[1] == ChannelState(PlainChannel(key, 1), [], false, 0, 0)
            && s.channels[2] == ChannelState(PlainChannel(key, 2), [], false, 0, 0)
            && s.limits == MultiplexerLimits(3, 0, 2, 1, U64_MAX)
            && s.sessionId == sessionId && s.retired == {}
  {
    hide Valid;
  }

  lemma ReachesCeiling(sessionId: Id16, key: ChannelKey, n: nat)
    requires 0 < n < 0x8000_0000_0000_0000
    ensures var s := AtCeiling(sessionId, key, n);
            && TwoWait(s, 1, 2) && s.channels.Keys == {1, 2}
            && s.channels[1].config == PlainChannel(key, 1) && s.channels[2].config == PlainChannel(key, 2)
            && QueueOf(s, 1) == Copies(PlainFrame(sessionId, 1, [0]), n)
            && QueueOf(s, 2) == Copies(PlainFrame(sessionId, 2, [0, 0, 0]), n)
  {
    hide Valid, Final, Step, SchedulingCost, TwoChannels, TimeAfter, Rounds, Fill, Copies;
    var small, large := PlainFrame(sessionId, 1, [0]), PlainFrame(sessionId, 2, [0, 0, 0]);
    var start := TwoChannels(sessionId, key);
    TwoChannelsIdle(sessionId, key);
    PlainCosts();
    TimeIsUp();
    RoundsMoveTime(start, small, ROUNDS_TO_CEILING);
    var s0 := Final(start, Rounds(small, ROUNDS_TO_CEILING));
    IdleQueueEmpty(s0, small);
    Filled(s0, small, n);
    var s1 := Final(s0, Fill(small, n));
    Filled(s1, large, n);
  }

  lemma IdleQueueEmpty(s: State, e: Envelope)
    requires Valid(s) && Idle(s, e)
    ensures s.channels[e.channelId].queue == []
  {
    IdleAdmits(s, e);
  }

  /**
    The ceiling is where weighted shares end. In a state some run reaches, two channels of one
    weight stay backlogged while the one with the longer frames is served three times as much, so
    the difference passes two maximal frames and keeps growing. With four frames of each the total
    service is 128 units past what `FairWithinService` allows.
   */
  lemma UnequalAtCeiling(sessionId: Id16, key: ChannelKey, m: nat)
    requires m < 0x4000_0000_0000_0000
    ensures var s, ops := AtCeiling(sessionId, key, m + 1), Dequeues(2 * m);
            && 1 in s.channels && 2 in s.channels
            && Backlogged(s, ops, 1) && Backlogged(s, ops, 2)
            && MaxCost(s.channels[1].config) == MaxCost(s.channels[2].config) == 24
            && ServedCost(s, ops, 1) == 8 * m && ServedCost(s, ops, 2) == 24 * m
            && (m > 3 ==> ServedCost(s, ops, 2) > ServedCost(s, ops, 1) + 24 + 24)
            && TagsWithin(s, U128_MAX) && TotalCost(s, ops) == 32 * m
  {
    hide Valid, Step, Final, ServedCost, TotalCost, Backlogged, AtCeiling, SchedulingCost, Copies, FramesCost, TwoWait,
      Dequeues;
    var s := AtCeiling(sessionId, key, m + 1);
    ReachesCeiling(sessionId, key, m + 1);
    PlainCosts();
    RoundRobinAtCeiling(s, 1, 2, 2 * m);
    CopiesCost(PlainFrame(sessionId, 1, [0]), m + 1, m, 0);
    CopiesCost(PlainFrame(sessionId, 2, [0, 0, 0]), m + 1, m, 0);
  }
}
