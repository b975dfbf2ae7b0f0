/**
  Weighted fairness over unbounded runs. Service is measured in `SchedulingCost`, payload bytes
  over weight; a segment is any run, with opens, closes, enqueues, cancels and control traffic
  interleaved at will.
 */
module MuxFairness {
  import opened Base
  import opened MuxSpec
  import opened MuxRun

  ghost function StepCost(s: State, op: Op, id: u32): nat
    requires Valid(s)
  {
    if DeliversData(s, op) && Step(s, op).1.frame.envelope.channelId == id && id in s.channels then
      SchedulingCost(|Step(s, op).1.frame.envelope.payload|, s.channels[id].config.priorityHint)
    else 0
  }

  /** What channel `id` was charged for the frames it sent during the run. */
  ghost function ServedCost(s: State, ops: seq<Op>, id: u32): nat
    requires Valid(s)
    decreases |ops|
  {
    if ops == [] then 0 else StepCost(s, ops[0], id) + ServedCost(Step(s, ops[0]).0, ops[1..], id)
  }

  /** What that charge moved the channel's tag: all of it unless the tag met its 128-bit ceiling. */
  ghost function StepCharge(s: State, op: Op, id: u32): nat
    requires Valid(s)
  {
    if id in s.channels then Min(StepCost(s, op, id), U128_MAX - StartTag(s, id)) else 0
  }

  /** What channel `id`'s tag moved for the frames it sent during the run. */
  ghost function Charged(s: State, ops: seq<Op>, id: u32): nat
    requires Valid(s)
    decreases |ops|
  {
    if ops == [] then 0 else StepCharge(s, ops[0], id) + Charged(Step(s, ops[0]).0, ops[1..], id)
  }

  /** The cost that met the ceiling instead. */
  ghost function Uncharged(s: State, ops: seq<Op>, id: u32): nat
    requires Valid(s)
    decreases |ops|
  {
    if ops == [] then 0
    else
      Max(StepCost(s, ops[0], id) - StepCharge(s, ops[0], id), 0) + Uncharged(Step(s, ops[0]).0, ops[1..], id)
  }

  /** The channel is open with a frame queued in every state of the run. */
  ghost predicate Backlogged(s: State, ops: seq<Op>, id: u32)
    requires Valid(s)
    decreases |ops|
  {
    && id in s.channels && s.channels[id].queue != []
    && (ops != [] ==> Backlogged(Step(s, ops[0]).0, ops[1..], id))
  }

  /** The tag an open channel would be served with if it had a frame now. */
  ghost function StartTag(s: State, id: u32): u128
    requires id in s.channels
  {
    Max(Tag(s, id), s.virtualTime)
  }

  lemma TagBounds(s: State, id: u32)
    requires Valid(s) && id in s.channels
    ensures s.virtualTime <= StartTag(s, id) <= s.virtualTime + MaxCost(s.channels[id].config)
    ensures s.channels[id].queue != [] ==> StartTag(s, id) == Tag(s, id)
  {
  }

  /* ------------------------------- Virtual time -------------------------------- */

  lemma VirtualTimeStep(s: State, op: Op)
    requires Valid(s)
    ensures s.virtualTime <= Step(s, op).0.virtualTime
  {
    hide Valid;
  }

  lemma {:induction false} VirtualTimeMonotone(s: State, ops: seq<Op>)
    requires Valid(s)
    ensures s.virtualTime <= Final(s, ops).virtualTime
    decreases |ops|
  {
    hide Valid, Step;
    if ops == [] {
    } else {
      VirtualTimeStep(s, ops[0]);
      VirtualTimeMonotone(Step(s, ops[0]).0, ops[1..]);
    }
  }

  /* --------------------------------- One step ---------------------------------- */

  /** The channel a data dequeue serves pays for its head frame; no other channel moves. */
  lemma NextTags(s: State, id: u32)
    requires Valid(s) && s.control == [] && s.ready != [] && id in s.channels
    ensures var k := NextIndex(s, |s.ready|);
            var s' := Next(s).0;
            && IsNext(s, k) && s.ready[k] in s.channels
            && s'.virtualTime == Tag(s, s.ready[k]) && s'.channels.Keys == s.channels.Keys
            && (id != s.ready[k] ==> s'.channels[id] == s.channels[id] && StepCost(s, NextOutbound, id) == 0)
            && (id == s.ready[k] ==>
                  && s.channels[id].queue != []
                  && s'.channels[id].config == s.channels[id].config
                  && Tag(s', id) == SaturatingAdd128(Tag(s, id), StepCost(s, NextOutbound, id))
                  && 1 <= StepCost(s, NextOutbound, id) <= MaxCost(s.channels[id].config))
  {
    hide Valid, IsNext, MaxCost, SchedulingCost;
    NextDelivers(s);
    StepIsNext(s);
    var k := NextIndex(s, |s.ready|);
    var served := s.ready[k];
    TagBounds(s, served);
    HeadCost(s, served);
  }

  lemma StepIsNext(s: State)
    requires Valid(s)
    ensures Step(s, NextOutbound) == Next(s)
  {
    hide Valid;
  }

  lemma HeadCost(s: State, id: u32)
    requires Valid(s) && id in s.channels && s.channels[id].queue != []
    ensures var c := s.channels[id];
            SchedulingCost(|c.queue[0].payload|, c.config.priorityHint) <= MaxCost(c.config)
  {
    var c := s.channels[id];
    assert ChannelOk(s, id, c);
    assert c.queue[0] in c.queue;
    CostMonotone(|c.queue[0].payload|, c.config.maxFrameBytes, c.config.priorityHint);
  }

  /** Every other operation serves nothing and moves no start tag. */
  lemma OtherTags(s: State, op: Op, id: u32)
    requires Valid(s) && id in s.channels && id in Step(s, op).0.channels
    requires !DeliversData(s, op)
    ensures StepCost(s, op, id) == 0
    ensures Step(s, op).0.channels[id].config == s.channels[id].config
    ensures Step(s, op).0.virtualTime == s.virtualTime
    ensures StartTag(Step(s, op).0, id) == StartTag(s, id)
    ensures s.channels[id].queue != [] ==> Tag(Step(s, op).0, id) == Tag(s, id)
  {
    hide Valid;
  }

  lemma DataOnlyFromNext(s: State, op: Op)
    requires Valid(s)
    ensures DeliversData(s, op) <==> op == NextOutbound && s.control == [] && s.ready != []
  {
    hide Valid;
  }

  /** A start tag advances by at least the charge. */
  lemma StartTagStep(s: State, op: Op, id: u32)
    requires Valid(s) && id in s.channels && id in Step(s, op).0.channels
    ensures Step(s, op).0.channels[id].config == s.channels[id].config
    ensures StartTag(s, id) + StepCharge(s, op, id) <= StartTag(Step(s, op).0, id)
  {
    hide Valid, DeliversData, Step, Next, StepCost, MaxCost, IsNext;
    DataOnlyFromNext(s, op);
    if DeliversData(s, op) {
      NextTags(s, id);
      TagBounds(s, id);
      VirtualTimeStep(s, op);
      StepIsNext(s);
    } else {
      OtherTags(s, op, id);
    }
  }

  /** While a channel stays backlogged its tag advances by the cost, up to the ceiling. */
  lemma BackloggedTagStep(s: State, op: Op, id: u32)
    requires Valid(s) && id in s.channels && s.channels[id].queue != []
    requires id in Step(s, op).0.channels
    ensures Step(s, op).0.channels[id].config == s.channels[id].config
    ensures Tag(Step(s, op).0, id) == SaturatingAdd128(Tag(s, id), StepCost(s, op, id))
    ensures Tag(Step(s, op).0, id) == Tag(s, id) + StepCharge(s, op, id)
  {
    hide Valid, DeliversData, Step, Next, StepCost, MaxCost, IsNext;
    DataOnlyFromNext(s, op);
    TagBounds(s, id);
    if DeliversData(s, op) {
      NextTags(s, id);
      StepIsNext(s);
    } else {
      OtherTags(s, op, id);
    }
  }

  /* ------------------------------- Whole segments ------------------------------ */

  lemma LeavingCostsNothing(s: State, op: Op, id: u32)
    requires Valid(s) && id in s.channels && id !in Step(s, op).0.channels
    ensures StepCost(s, op, id) == 0 && StepCharge(s, op, id) == 0 && id in Step(s, op).0.retired
  {
    hide Valid, Step, Next, IsNext, MaxCost;
    DataOnlyFromNext(s, op);
    if DeliversData(s, op) {
      NextTags(s, id);
      StepIsNext(s);
    }
    TableStep(s, op, id);
  }

  lemma {:induction false} RetiredCostsNothing(s: State, ops: seq<Op>, id: u32)
    requires Valid(s) && id in s.retired
    ensures ServedCost(s, ops, id) == 0 && Charged(s, ops, id) == 0
    decreases |ops|
  {
    hide Valid, Step;
    RetiredIsGone(s, id);
    if ops == [] {
    } else {
      RetiredStep(s, ops[0], id);
      RetiredCostsNothing(Step(s, ops[0]).0, ops[1..], id);
    }
  }

  lemma {:induction false} ServedIsCharged(s: State, ops: seq<Op>, id: u32)
    requires Valid(s)
    ensures ServedCost(s, ops, id) == Charged(s, ops, id) + Uncharged(s, ops, id)
    decreases |ops|
  {
    hide Valid, Step, StartTag;
    if ops == [] {
    } else {
      ServedIsCharged(Step(s, ops[0]).0, ops[1..], id);
      if id !in s.channels {
        AbsentCostsNothing(s, ops[0], id);
      }
    }
  }

  lemma AbsentCostsNothing(s: State, op: Op, id: u32)
    requires Valid(s) && id !in s.channels
    ensures StepCost(s, op, id) == 0
  {
    hide Valid;
  }

  /**
    No channel gets ahead: however its traffic comes and goes, and even if it closes, a channel is
    charged no more than virtual time advanced plus one maximal frame.
   */
  lemma {:induction false} ServiceAtMostVirtualTime(s: State, ops: seq<Op>, id: u32)
    requires Valid(s) && id in s.channels
    ensures StartTag(s, id) + Charged(s, ops, id) <= Final(s, ops).virtualTime + MaxCost(s.channels[id].config)
    decreases |ops|
  {
    hide Valid, Step, StepCharge, StartTag, MaxCost;
    TagBounds(s, id);
    if ops == [] {
    } else {
      var s1 := Step(s, ops[0]).0;
      VirtualTimeMonotone(s1, ops[1..]);
      VirtualTimeStep(s, ops[0]);
      if id in s1.channels {
        StartTagStep(s, ops[0], id);
        ServiceAtMostVirtualTime(s1, ops[1..], id);
      } else {
        LeavingCostsNothing(s, ops[0], id);
        RetiredCostsNothing(s1, ops[1..], id);
      }
    }
  }

  /**
    The tags of a backlogged channel telescope: the final one is the first plus the cost served, up
    to the ceiling, so what went uncharged is exactly what that sum has above the ceiling.
   */
  lemma {:induction false} TagsTelescope(s: State, ops: seq<Op>, id: u32)
    requires Valid(s) && Backlogged(s, ops, id)
    ensures var s' := Final(s, ops);
            && id in s'.channels && s'.channels[id].queue != [] && s'.channels[id].config == s.channels[id].config
            && Tag(s', id) == Tag(s, id) + Charged(s, ops, id)
            && Tag(s', id) == SaturatingAdd128(Tag(s, id), ServedCost(s, ops, id))
            && Uncharged(s, ops, id) == Max(Tag(s, id) + ServedCost(s, ops, id) - U128_MAX, 0)
    decreases |ops|
  {
    hide Valid, Step, StepCost, StepCharge, MaxCost;
    ServedIsCharged(s, ops, id);
    if ops == [] {
    } else {
      BackloggedTagStep(s, ops[0], id);
      TagsTelescope(Step(s, ops[0]).0, ops[1..], id);
    }
  }

  /**
    Weighted fairness. While `i` has something to send throughout, no channel `j` open at the start
    is charged more than `i` by more than one maximal frame of each, whatever `j` does meanwhile:
    going idle earns it nothing. The cost it was served exceeds that only by what met the ceiling.
   */
  lemma WeightedFairness(s: State, ops: seq<Op>, i: u32, j: u32)
    requires Valid(s) && Backlogged(s, ops, i) && j in s.channels
    ensures var slack := MaxCost(s.channels[i].config) + MaxCost(s.channels[j].config);
            && Charged(s, ops, j) <= Charged(s, ops, i) + slack
            && ServedCost(s, ops, j) <= ServedCost(s, ops, i) + slack + Uncharged(s, ops, j)
  {
    hide Valid, Final, ServedCost, Charged, Uncharged, MaxCost;
    TagsTelescope(s, ops, i);
    TagBounds(s, i);
    TagBounds(s, j);
    TagBounds(Final(s, ops), i);
    ServiceAtMostVirtualTime(s, ops, j);
    ServedIsCharged(s, ops, i);
    ServedIsCharged(s, ops, j);
  }

  /**
    Two channels backlogged throughout are served the same up to one maximal frame of each, as long
    as neither tag plus its own service is above the ceiling.
   */
  lemma BackloggedShareEqually(s: State, ops: seq<Op>, i: u32, j: u32)
    requires Valid(s) && Backlogged(s, ops, i) && Backlogged(s, ops, j)
    ensures var slack := MaxCost(s.channels[i].config) + MaxCost(s.channels[j].config);
            && -slack <= Charged(s, ops, i) - Charged(s, ops, j) <= slack
            && (Tag(s, j) + ServedCost(s, ops, j) <= U128_MAX ==>
                  ServedCost(s, ops, j) <= ServedCost(s, ops, i) + slack)
            && (Tag(s, i) + ServedCost(s, ops, i) <= U128_MAX ==>
                  ServedCost(s, ops, i) <= ServedCost(s, ops, j) + slack)
  {
    hide Valid, Step, Final, ServedCost, Charged, Uncharged, MaxCost;
    WeightedFairness(s, ops, i, j);
    WeightedFairness(s, ops, j, i);
    TagsTelescope(s, ops, i);
    TagsTelescope(s, ops, j);
  }

  /* -------------------- Virtual time never outruns the service given ----------------- */

  /** The charge of one step, to whichever channel it served. */
  ghost function AnyCost(s: State, op: Op): nat
    requires Valid(s)
  {
    if DeliversData(s, op) then StepCost(s, op, Step(s, op).1.frame.envelope.channelId) else 0
  }

  ghost function TotalCost(s: State, ops: seq<Op>): nat
    requires Valid(s)
    decreases |ops|
  {
    if ops == [] then 0 else AnyCost(s, ops[0]) + TotalCost(Step(s, ops[0]).0, ops[1..])
  }

  ghost predicate TagsWithin(s: State, bound: nat) {
    s.virtualTime <= bound && forall id :: id in s.channels ==> Tag(s, id) <= bound
  }

  lemma TagsWithinNext(s: State, bound: nat)
    requires Valid(s) && TagsWithin(s, bound) && s.control == [] && s.ready != []
    ensures TagsWithin(Next(s).0, bound + AnyCost(s, NextOutbound))
  {
    hide Valid, Next, StepCost, MaxCost, IsNext;
    NextDelivers(s);
    StepIsNext(s);
    var served := s.ready[NextIndex(s, |s.ready|)];
    NextTags(s, served);
    forall id | id in Next(s).0.channels
      ensures Tag(Next(s).0, id) <= bound + AnyCost(s, NextOutbound)
    {
      NextTags(s, id);
    }
  }

  lemma TagsWithinStep(s: State, op: Op, bound: nat)
    requires Valid(s) && TagsWithin(s, bound)
    ensures TagsWithin(Step(s, op).0, bound + AnyCost(s, op))
  {
    hide Valid, AnyCost;
    if op == NextOutbound {
      hide Step;
      StepIsNext(s);
      if s.control == [] && s.ready != [] {
        TagsWithinNext(s, bound);
      }
    } else {
      OtherTagsWithin(s, op, bound);
      hide Step, TagsWithin;
      TagsWithinMore(Step(s, op).0, bound, AnyCost(s, op));
    }
  }

  lemma OtherTagsWithin(s: State, op: Op, bound: nat)
    requires Valid(s) && TagsWithin(s, bound) && op != NextOutbound
    ensures TagsWithin(Step(s, op).0, bound)
  {
    hide Valid;
  }

  lemma TagsWithinMore(s: State, bound: nat, more: nat)
    requires TagsWithin(s, bound)
    ensures TagsWithin(s, bound + more)
  {
  }

  /** Virtual time and every tag grow no faster than the cost served. */
  lemma {:induction false} VirtualTimeWithinService(s: State, ops: seq<Op>, bound: nat)
    requires Valid(s) && TagsWithin(s, bound)
    ensures TagsWithin(Final(s, ops), bound + TotalCost(s, ops))
    decreases |ops|
  {
    hide Valid, Step, AnyCost, TagsWithin;
    if ops == [] {
    } else {
      TagsWithinStep(s, ops[0], bound);
      VirtualTimeWithinService(Step(s, ops[0]).0, ops[1..], bound + AnyCost(s, ops[0]));
    }
  }

  lemma ChargeWithin(s: State, op: Op, id: u32, bound: nat)
    requires Valid(s) && TagsWithin(s, bound) && bound + AnyCost(s, op) <= U128_MAX
    ensures StepCost(s, op, id) == StepCharge(s, op, id)
  {
    hide Valid, Step, DeliversData;
    if id !in s.channels {
      AbsentCostsNothing(s, op, id);
    }
  }

  lemma {:induction false} NothingUncharged(s: State, ops: seq<Op>, id: u32, bound: nat)
    requires Valid(s) && TagsWithin(s, bound) && bound + TotalCost(s, ops) <= U128_MAX
    ensures Uncharged(s, ops, id) == 0
    decreases |ops|
  {
    hide Valid, Step, AnyCost, TagsWithin, StepCost, StepCharge;
    if ops == [] {
    } else {
      ChargeWithin(s, ops[0], id, bound);
      TagsWithinStep(s, ops[0], bound);
      NothingUncharged(Step(s, ops[0]).0, ops[1..], id, bound + AnyCost(s, ops[0]));
    }
  }

  /**
    Fairness with a condition on service alone: as long as all the cost ever served fits in 128
    bits, nothing goes uncharged and no channel is served more than a backlogged one by more than
    one maximal frame of each.
   */
  lemma FairWithinService(s: State, ops: seq<Op>, i: u32, j: u32, bound: nat)
    requires Valid(s) && TagsWithin(s, bound) && bound + TotalCost(s, ops) <= U128_MAX
    requires Backlogged(s, ops, i) && j in s.channels
    ensures ServedCost(s, ops, j)
         <= ServedCost(s, ops, i) + MaxCost(s.channels[i].config) + MaxCost(s.channels[j].config)
  {
    hide Valid, ServedCost, TotalCost, Uncharged, Backlogged, MaxCost, TagsWithin;
    NothingUncharged(s, ops, j, bound);
    BackloggedIsOpen(s, ops, i);
    WeightedFairness(s, ops, i, j);
  }

  lemma BackloggedIsOpen(s: State, ops: seq<Op>, i: u32)
    requires Valid(s) && Backlogged(s, ops, i)
    ensures i in s.channels
  {
    hide Valid;
  }
}
