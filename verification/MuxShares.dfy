/**
  What weighted fairness means in bytes: channels that stay backlogged send in proportion to the
  weights of their priority hints, up to one frame of each and the rounding of each frame's cost.
 */
module MuxShares {
  import opened Base
  import opened MuxSpec
  import opened MuxRun
  import opened MuxFairness

  /** The bytes scheduled, an empty frame counting as one. */
  ghost function Scheduled(frames: seq<Envelope>): nat {
    if frames == [] then 0
    else (if frames[0].payload == [] then 1 else |frames[0].payload|) + Scheduled(frames[1..])
  }

  lemma {:induction false} ScheduledAppend(a: seq<Envelope>, b: seq<Envelope>)
    ensures Scheduled(a + b) == Scheduled(a) + Scheduled(b)
  {
    if a == [] {
      assert a + b == b;
    } else {
      assert (a + b)[1..] == a[1..] + b;
      ScheduledAppend(a[1..], b);
    }
  }

  /** What serving `frames` costs at weight `w`: eight times the bytes, and less than one unit a frame more. */
  ghost predicate Pays(cost: nat, frames: seq<Envelope>, w: nat) {
    8 * Scheduled(frames) <= cost * w && cost * w + |frames| <= 8 * Scheduled(frames) + |frames| * w
  }

  lemma PaysAppend(a: nat, x: seq<Envelope>, b: nat, y: seq<Envelope>, w: nat)
    requires Pays(a, x, w) && Pays(b, y, w)
    ensures Pays(a + b, x + y, w)
  {
    ScheduledAppend(x, y);
    assert (a + b) * w == a * w + b * w;
    assert |x + y| * w == |x| * w + |y| * w;
  }

  lemma OneFramePays(e: Envelope, priorityHint: byte, w: nat)
    requires Weighs(priorityHint, w) && |e.payload| <= U64_MAX
    ensures Pays(SchedulingCost(|e.payload|, priorityHint), [e], w)
  {
    CostIsWeightedBytes(|e.payload|, priorityHint, w);
    assert Scheduled([e]) == if e.payload == [] then 1 else |e.payload|;
    assert 1 * w == w;
  }

  lemma NothingPays(w: nat)
    ensures Pays(0, [], w)
  {
  }

  lemma DeliveredFits(s: State, op: Op, id: u32)
    requires Valid(s) && DeliversData(s, op) && Step(s, op).1.frame.envelope.channelId == id
    ensures id in s.channels && |Step(s, op).1.frame.envelope.payload| <= U64_MAX
  {
    DataOnlyFromNext(s, op);
    NextDelivers(s);
    StepIsNext(s);
    var served := s.ready[NextIndex(s, |s.ready|)];
    assert ChannelOk(s, served, s.channels[served]);
    assert s.channels[served].queue[0] in s.channels[served].queue;
  }

  lemma StepPays(s: State, op: Op, id: u32, w: nat)
    requires Valid(s) && id in s.channels && Weighs(s.channels[id].config.priorityHint, w)
    ensures Pays(StepCost(s, op, id), StepDelivered(s, op, id), w)
  {
    hide Valid, Step, SchedulingCost, Weighs, Pays;
    if DeliversData(s, op) && Step(s, op).1.frame.envelope.channelId == id {
      DeliveredFits(s, op, id);
      OneFramePays(Step(s, op).1.frame.envelope, s.channels[id].config.priorityHint, w);
    } else {
      NothingPays(w);
    }
  }

  /** Over a run a channel's service pays for the frames it sent, even if it closes on the way. */
  lemma {:induction false} RunPays(s: State, ops: seq<Op>, id: u32, w: nat)
    requires Valid(s) && id in s.channels && Weighs(s.channels[id].config.priorityHint, w)
    ensures Pays(ServedCost(s, ops, id), Delivered(s, ops, id), w)
    decreases |ops|
  {
    hide Valid, Step, StepCost, StepDelivered, Pays, Weighs;
    if ops == [] {
      NothingPays(w);
    } else {
      var s1 := Step(s, ops[0]).0;
      StepPays(s, ops[0], id, w);
      TableStep(s, ops[0], id);
      if id in s1.channels {
        RunPays(s1, ops[1..], id, w);
      } else {
        RetiredForever(s1, ops[1..], id);
        RetiredCostsNothing(s1, ops[1..], id);
        NothingPays(w);
      }
      PaysAppend(StepCost(s, ops[0], id), StepDelivered(s, ops[0], id),
                 ServedCost(s1, ops[1..], id), Delivered(s1, ops[1..], id), w);
    }
  }

  /** One maximal frame of a channel, in eighths of bytes over its weight. */
  lemma MaximalFrame(c: ChannelConfig, w: nat)
    requires Weighs(c.priorityHint, w) && c.maxFrameBytes > 0
    ensures MaxCost(c) * w < 8 * c.maxFrameBytes + w
  {
    CostIsWeightedBytes(c.maxFrameBytes, c.priorityHint, w);
  }

  lemma TimesSum(a: nat, b: nat, c: nat, d: nat, w: nat)
    ensures (a + b + c + d) * w == a * w + b * w + c * w + d * w
  {
  }

  lemma Swap(a: nat, b: nat, c: nat)
    ensures a * b * c == a * c * b
  {
  }

  /** From costs that differ by two maximal frames to bytes times weights. */
  lemma CostsToBytes(costI: nat, costJ: nat, maxI: nat, maxJ: nat, lost: nat, bytesI: nat, bytesJ: nat, frames: nat,
                     largestI: nat, largestJ: nat, wi: nat, wj: nat)
    requires costJ <= costI + maxI + maxJ + lost && wi > 0 && wj > 0
    requires 8 * bytesJ <= costJ * wj && costI * wi + frames <= 8 * bytesI + frames * wi
    requires maxI * wi < 8 * largestI + wi && maxJ * wj < 8 * largestJ + wj
    ensures 8 * bytesJ * wi
         <= (8 * (bytesI + largestI) + (frames + 1) * wi) * wj + (8 * largestJ + wj) * wi + lost * wi * wj
  {
    TimesMonotone(costJ, costI + maxI + maxJ + lost, wj);
    TimesSum(costI, maxI, maxJ, lost, wj);
    TimesMonotone(8 * bytesJ, costI * wj + maxI * wj + maxJ * wj + lost * wj, wi);
    TimesSum(costI * wj, maxI * wj, maxJ * wj, lost * wj, wi);
    Swap(costI, wj, wi);
    Swap(maxI, wj, wi);
    Swap(lost, wj, wi);
    TimesStep(frames, wi);
    TimesMonotone(costI * wi + maxI * wi, 8 * (bytesI + largestI) + (frames + 1) * wi, wj);
    TimesSum(costI * wi, maxI * wi, 0, 0, wj);
    TimesMonotone(maxJ * wj, 8 * largestJ + wj, wi);
  }

  /**
    Weighted shares in bytes. While `i` has something to send throughout, a channel `j` open at the
    start sends, per unit of its weight, no more than `i` does per unit of its own, up to one maximal
    frame of each, less than one unit of cost for every frame of `i`, and what met the ceiling.
   */
  lemma WeightedBytes(s: State, ops: seq<Op>, i: u32, j: u32, wi: nat, wj: nat)
    requires Valid(s) && Backlogged(s, ops, i) && j in s.channels
    requires Weighs(s.channels[i].config.priorityHint, wi) && Weighs(s.channels[j].config.priorityHint, wj)
    ensures var sentI, sentJ := Delivered(s, ops, i), Delivered(s, ops, j);
            var largestI, largestJ := s.channels[i].config.maxFrameBytes, s.channels[j].config.maxFrameBytes;
            8 * Scheduled(sentJ) * wi
            <= (8 * (Scheduled(sentI) + largestI) + (|sentI| + 1) * wi) * wj + (8 * largestJ + wj) * wi
               + Uncharged(s, ops, j) * wi * wj
  {
    hide Valid, Backlogged, Weighs, MaxCost, Scheduled, Delivered, ServedCost, Charged, Uncharged, Final;
    BackloggedIsOpen(s, ops, i);
    WeightedFairness(s, ops, i, j);
    RunPays(s, ops, i, wi);
    RunPays(s, ops, j, wj);
    LargestPositive(s, i);
    LargestPositive(s, j);
    MaximalFrame(s.channels[i].config, wi);
    MaximalFrame(s.channels[j].config, wj);
    WeightPositive(s.channels[i].config.priorityHint, wi);
    WeightPositive(s.channels[j].config.priorityHint, wj);
    CostsToBytes(ServedCost(s, ops, i), ServedCost(s, ops, j), MaxCost(s.channels[i].config),
                 MaxCost(s.channels[j].config), Uncharged(s, ops, j), Scheduled(Delivered(s, ops, i)),
                 Scheduled(Delivered(s, ops, j)), |Delivered(s, ops, i)|, s.channels[i].config.maxFrameBytes,
                 s.channels[j].config.maxFrameBytes, wi, wj);
  }

  lemma WeightPositive(priorityHint: byte, w: nat)
    requires Weighs(priorityHint, w)
    ensures w > 0
  {
  }

  lemma LargestPositive(s: State, id: u32)
    requires Valid(s) && id in s.channels
    ensures s.channels[id].config.maxFrameBytes > 0
  {
    assert ChannelOk(s, id, s.channels[id]);
  }

  /**
    Two channels backlogged throughout send bytes in proportion to their weights, up to one maximal
    frame of each and the rounding, as long as the total service fits in 128 bits.
   */
  lemma BytesFollowWeights(s: State, ops: seq<Op>, i: u32, j: u32, wi: nat, wj: nat, bound: nat)
    requires Valid(s) && Backlogged(s, ops, i) && Backlogged(s, ops, j)
    requires TagsWithin(s, bound) && bound + TotalCost(s, ops) <= U128_MAX
    requires Weighs(s.channels[i].config.priorityHint, wi) && Weighs(s.channels[j].config.priorityHint, wj)
    ensures var sentI, sentJ := Delivered(s, ops, i), Delivered(s, ops, j);
            var frames := 8 * (s.channels[i].config.maxFrameBytes * wj + s.channels[j].config.maxFrameBytes * wi);
            && 8 * (Scheduled(sentJ) * wi - Scheduled(sentI) * wj) <= frames + (|sentI| + 2) * wi * wj
            && 8 * (Scheduled(sentI) * wj - Scheduled(sentJ) * wi) <= frames + (|sentJ| + 2) * wi * wj
  {
    hide Valid, Backlogged, Weighs, Scheduled, Delivered, Uncharged, TotalCost, TagsWithin;
    BackloggedIsOpen(s, ops, i);
    BackloggedIsOpen(s, ops, j);
    NothingUncharged(s, ops, i, bound);
    NothingUncharged(s, ops, j, bound);
    WeightedBytes(s, ops, i, j, wi, wj);
    WeightedBytes(s, ops, j, i, wj, wi);
    var sentI, sentJ := Delivered(s, ops, i), Delivered(s, ops, j);
    var largestI, largestJ := s.channels[i].config.maxFrameBytes, s.channels[j].config.maxFrameBytes;
    Gather(Scheduled(sentI), Scheduled(sentJ), largestI, largestJ, |sentI|, wi, wj);
    Gather(Scheduled(sentJ), Scheduled(sentI), largestJ, largestI, |sentJ|, wj, wi);
    Swap(|sentJ| + 2, wj, wi);
  }

  lemma Gather(bytesI: nat, bytesJ: nat, largestI: nat, largestJ: nat, frames: nat, wi: nat, wj: nat)
    requires 8 * bytesJ * wi
          <= (8 * (bytesI + largestI) + (frames + 1) * wi) * wj + (8 * largestJ + wj) * wi + 0 * wi * wj
    ensures 8 * (bytesJ * wi - bytesI * wj) <= 8 * (largestI * wj + largestJ * wi) + (frames + 2) * wi * wj
  {
    Expand(bytesI, largestI, frames, largestJ, wi, wj);
    assert 8 * bytesJ * wi == 8 * (bytesJ * wi);
    assert 0 * wi * wj == 0;
  }

  lemma Expand(bytes: nat, largest: nat, frames: nat, other: nat, wi: nat, wj: nat)
    ensures (8 * (bytes + largest) + (frames + 1) * wi) * wj + (8 * other + wj) * wi
         == 8 * (bytes * wj) + 8 * (largest * wj + other * wi) + (frames + 2) * wi * wj
  {
    assert (8 * (bytes + largest) + (frames + 1) * wi) * wj
        == 8 * (bytes * wj) + 8 * (largest * wj) + (frames + 1) * wi * wj;
    assert (8 * other + wj) * wi == 8 * (other * wi) + wi * wj;
    assert (frames + 2) * wi == (frames + 1) * wi + wi;
    assert (frames + 2) * wi * wj == (frames + 1) * wi * wj + wi * wj;
  }
}
