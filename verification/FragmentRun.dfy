/** Whole runs of the reassembler over arbitrary traffic: what is delivered was received. */
module FragmentRun {
  import opened Base
  import opened FragmentSpec
  import opened FragmentCover

  datatype Event =
    | Datagram(generation: u32, sequence: u64, bytes: Bytes)
    | Clear

  predicate Good(s: State) {
    s.partial.Some? ==> Shaped(s.partial.value)
  }

  ghost function Step(s: State, e: Event, config: BindingConfig): (r: (State, Option<Reply>))
    requires Good(s)
  {
    match e
    case Clear => (CLEARED, None)
    case Datagram(generation, sequence, bytes) =>
      var (after, reply) := Push(s, generation, sequence, bytes, config);
      (after, Some(reply))
  }

  lemma StepKeepsGood(s: State, e: Event, config: BindingConfig)
    requires Good(s)
    ensures Good(Step(s, e, config).0)
  {
  }

  /** The state after the whole run, from a fresh reassembler. */
  ghost function Final(events: seq<Event>, config: BindingConfig): (s: State)
    ensures Good(s)
  {
    if events == [] then CLEARED
    else
      var before := Final(events[..|events| - 1], config);
      StepKeepsGood(before, events[|events| - 1], config);
      Step(before, events[|events| - 1], config).0
  }

  ghost function ReplyAt(events: seq<Event>, n: nat, config: BindingConfig): Option<Reply>
    requires n < |events|
  {
    Step(Final(events[..n], config), events[n], config).1
  }

  lemma FinalStep(events: seq<Event>, n: nat, config: BindingConfig)
    requires n < |events|
    ensures Final(events[..n + 1], config) == Step(Final(events[..n], config), events[n], config).0
  {
    assert events[..n + 1][..n] == events[..n];
  }

  /* ---------------------------- The received counter ----------------------------- */

  /** The counter is the number of filled slots, so `received == count` is fullness. */
  ghost predicate Counted(p: Partial) {
    Shaped(p) && p.received == |Filled(p.slots)|
  }

  lemma {:induction false} FilledBound(slots: seq<Option<Range>>)
    ensures |Filled(slots)| <= |slots|
    ensures |Filled(slots)| == |slots| <==> forall k :: 0 <= k < |slots| ==> slots[k].Some?
  {
    if slots != [] {
      FilledBound(slots[1..]);
      if slots[0].Some? && |Filled(slots[1..])| == |slots[1..]| {
        forall k | 0 <= k < |slots|
          ensures slots[k].Some?
        {
          if k > 0 {
            assert slots[1..][k - 1] == slots[k];
          }
        }
      }
    }
  }

  lemma {:induction false} FillOne(slots: seq<Option<Range>>, i: nat, r: Range)
    requires i < |slots| && slots[i].None?
    ensures |Filled(slots[i := Some(r)])| == |Filled(slots)| + 1
  {
    if i == 0 {
      assert slots[0 := Some(r)][1..] == slots[1..];
    } else {
      assert slots[i := Some(r)][1..] == slots[1..][i - 1 := Some(r)];
      FillOne(slots[1..], i - 1, r);
    }
  }

  lemma {:induction false} FilledNone(n: nat)
    ensures Filled(seq(n, _ => None)) == []
  {
    if n > 0 {
      assert seq<Option<Range>>(n, _ => None)[1..] == seq<Option<Range>>(n - 1, _ => None);
      FilledNone(n - 1);
    }
  }

  lemma InsertCounted(p: Partial, f: Fragment)
    requires Counted(p) && f.offset + |f.payload| <= p.totalLen && Insert(p, f).Some?
    ensures Counted(Insert(p, f).value)
  {
    if p.slots[f.index].None? {
      FillOne(p.slots, f.index, RangeOf(f));
    }
  }

  lemma StepCounted(s: State, e: Event, config: BindingConfig)
    requires Good(s) && (s.partial.Some? ==> Counted(s.partial.value))
    ensures Step(s, e, config).0.partial.Some? ==> Counted(Step(s, e, config).0.partial.value)
  {
    hide Insert, Finishes, Filled;
    if e.Datagram? && Decode(e.bytes, config).Some? {
      var f := Decode(e.bytes, config).value;
      FilledNone(f.count);
      var empty := Empty(e.generation, e.sequence, f);
      if Insert(empty, f).Some? {
        InsertCounted(empty, f);
      }
      if s.partial.Some? && s.partial.value.totalLen == f.totalLen && Insert(s.partial.value, f).Some? {
        InsertCounted(s.partial.value, f);
      }
    }
  }

  /** Reachable groups are never full before they are settled, and their counter cannot saturate. */
  lemma {:induction false} ReceivedCountsSlots(events: seq<Event>, config: BindingConfig)
    ensures var s := Final(events, config);
            s.partial.Some? ==> Counted(s.partial.value) && s.partial.value.received <= s.partial.value.count
  {
    hide Step, Filled;
    if events != [] {
      var n := |events| - 1;
      ReceivedCountsSlots(events[..n], config);
      StepCounted(Final(events[..n], config), events[n], config);
      var s := Final(events, config);
      if s.partial.Some? {
        FilledBound(s.partial.value.slots);
      }
    }
  }

  /* ------------------------------ Soundness of delivery ------------------------------ */

  /** Some received datagram of this pair decoded to exactly `f`. */
  ghost predicate Received(events: seq<Event>, generation: u32, sequence: u64, f: Fragment, config: BindingConfig) {
    exists i :: 0 <= i < |events| && Carries(events[i], generation, sequence, f, config)
  }

  ghost predicate Carries(e: Event, generation: u32, sequence: u64, f: Fragment, config: BindingConfig) {
    e.Datagram? && e.generation == generation && e.sequence == sequence && Decode(e.bytes, config) == Some(f)
  }

  /** Slot `k` holds the range of a received fragment numbered `k` of the same group. */
  ghost predicate Sourced(p: Partial, stored: seq<Option<Fragment>>, k: nat, events: seq<Event>, config: BindingConfig)
    requires k < |p.slots| == |stored|
  {
    match stored[k]
    case None => p.slots[k] == None
    case Some(f) =>
      && p.slots[k] == Some(RangeOf(f)) && f.payload != [] && End(f) <= p.totalLen
      && f.index == k && f.count == p.count && f.totalLen == p.totalLen
      && Received(events, p.generation, p.sequence, f, config)
  }

  /** The only slot covering position `x` is `k`. */
  ghost predicate OnlyCover(slots: seq<Option<Range>>, k: nat, x: nat)
    requires k < |slots|
  {
    && slots[k].Some? && Covers(slots[k].value, x)
    && forall j :: 0 <= j < |slots| && j != k && slots[j].Some? ==> !Covers(slots[j].value, x)
  }

  ghost predicate SlotBytes(p: Partial, stored: seq<Option<Fragment>>, k: nat)
    requires Shaped(p) && k < |p.slots| == |stored|
  {
    stored[k].Some? ==>
      forall x :: 0 <= x < |p.bytes| && stored[k].value.offset <= x < End(stored[k].value) && OnlyCover(p.slots, k, x)
        ==> p.bytes[x] == stored[k].value.payload[x - stored[k].value.offset]
  }

  ghost predicate Justified(p: Partial, stored: seq<Option<Fragment>>, events: seq<Event>, config: BindingConfig) {
    && Shaped(p) && |stored| == p.count
    && (forall k :: 0 <= k < p.count ==> Sourced(p, stored, k, events, config))
    && (forall k :: 0 <= k < p.count ==> SlotBytes(p, stored, k))
  }

  lemma ReceivedGrows(events: seq<Event>, e: Event, p: Partial, stored: seq<Option<Fragment>>, config: BindingConfig)
    requires Justified(p, stored, events, config)
    ensures Justified(p, stored, events + [e], config)
  {
    forall k | 0 <= k < p.count
      ensures Sourced(p, stored, k, events + [e], config)
    {
      assert Sourced(p, stored, k, events, config);
      if stored[k].Some? {
        var i :| 0 <= i < |events| && Carries(events[i], p.generation, p.sequence, stored[k].value, config);
        assert (events + [e])[i] == events[i];
      }
    }
  }

  /** The bytes of a delivered payload all come from received fragments that tile it. */
  ghost predicate Assembled(
    payload: Bytes, frags: seq<Fragment>, generation: u32, sequence: u64, events: seq<Event>, config: BindingConfig)
  {
    && Tiles(seq(|frags|, k requires 0 <= k < |frags| => RangeOf(frags[k])), |payload|)
    && forall k :: 0 <= k < |frags| ==>
         var f := frags[k];
         && f.index == k && f.count == |frags| && f.totalLen == |payload| && End(f) <= |payload|
         && payload[f.offset..End(f)] == f.payload
         && Received(events, generation, sequence, f, config)
  }

  lemma InsertBytes(p: Partial, stored: seq<Option<Fragment>>, f: Fragment, k: nat)
    requires Shaped(p) && End(f) <= p.totalLen && f.index < |p.slots| == |stored| && k < |stored|
    requires p.slots[f.index].None? && SlotBytes(p, stored, k)
    requires stored[k].Some? ==> p.slots[k] == Some(RangeOf(stored[k].value)) && End(stored[k].value) <= p.totalLen
    ensures SlotBytes(Insert(p, f).value, stored[f.index := Some(f)], k)
  {
    var q := Insert(p, f).value;
    var after := stored[f.index := Some(f)];
    if k != f.index && stored[k].Some? {
      var g := stored[k].value;
      forall x | 0 <= x < |q.bytes| && g.offset <= x < End(g) && OnlyCover(q.slots, k, x)
        ensures q.bytes[x] == g.payload[x - g.offset]
      {
        assert !Covers(q.slots[f.index].value, x);
        assert q.bytes[x] == p.bytes[x];
        assert OnlyCover(p.slots, k, x) by {
          forall j | 0 <= j < |p.slots| && j != k && p.slots[j].Some?
            ensures !Covers(p.slots[j].value, x)
          {
            assert q.slots[j] == p.slots[j];
          }
        }
      }
    }
  }

  lemma InsertJustified(p: Partial, stored: seq<Option<Fragment>>, f: Fragment, events: seq<Event>, config: BindingConfig)
    returns (after: seq<Option<Fragment>>)
    requires Justified(p, stored, events, config)
    requires f.payload != [] && End(f) <= p.totalLen && f.count == p.count && f.totalLen == p.totalLen
    requires Received(events, p.generation, p.sequence, f, config)
    requires Insert(p, f).Some?
    ensures Justified(Insert(p, f).value, after, events, config)
  {
    hide Received;
    if p.slots[f.index].Some? {
      after := stored;
    } else {
      after := stored[f.index := Some(f)];
      var q := Insert(p, f).value;
      forall k | 0 <= k < p.count
        ensures Sourced(q, after, k, events, config)
      {
        assert Sourced(p, stored, k, events, config);
      }
      forall k | 0 <= k < p.count
        ensures SlotBytes(q, after, k)
      {
        assert Sourced(p, stored, k, events, config);
        InsertBytes(p, stored, f, k);
      }
    }
  }

  lemma EmptyJustified(generation: u32, sequence: u64, f: Fragment, events: seq<Event>, config: BindingConfig)
    ensures Justified(Empty(generation, sequence, f), seq(f.count, _ => None), events, config)
  {
  }

  lemma FinishedAssembled(p: Partial, stored: seq<Option<Fragment>>, events: seq<Event>, config: BindingConfig)
    returns (frags: seq<Fragment>)
    requires Justified(p, stored, events, config) && Finishes(p)
    ensures |frags| == p.count && Assembled(p.bytes, frags, p.generation, p.sequence, events, config)
  {
    hide Received;
    forall k | 0 <= k < p.count
      ensures stored[k].Some?
    {
      assert Sourced(p, stored, k, events, config);
    }
    frags := seq(p.count, k requires 0 <= k < p.count => stored[k].value);
    var ranges := Filled(p.slots);
    FilledAll(p.slots);
    forall k | 0 <= k < p.count
      ensures frags[k].index == k && frags[k].count == p.count && frags[k].totalLen == p.totalLen
      ensures End(frags[k]) <= p.totalLen && ranges[k] == RangeOf(frags[k])
      ensures Received(events, p.generation, p.sequence, frags[k], config)
    {
      assert Sourced(p, stored, k, events, config);
    }
    assert ranges == seq(|frags|, k requires 0 <= k < |frags| => RangeOf(frags[k]));
    forall k | 0 <= k < p.count
      ensures p.bytes[frags[k].offset..End(frags[k])] == frags[k].payload
    {
      FinishedBytes(p, stored, ranges, k, events, config);
    }
  }

  lemma FinishedBytes(p: Partial, stored: seq<Option<Fragment>>, ranges: seq<Range>, k: nat, events: seq<Event>,
                      config: BindingConfig)
    requires Justified(p, stored, events, config) && k < p.count && stored[k].Some?
    requires |ranges| == |p.slots| && Tiles(ranges, p.totalLen)
    requires forall j :: 0 <= j < |ranges| ==> p.slots[j] == Some(ranges[j])
    ensures End(stored[k].value) <= |p.bytes|
    ensures p.bytes[stored[k].value.offset..End(stored[k].value)] == stored[k].value.payload
  {
    hide Received, Tiles;
    assert Sourced(p, stored, k, events, config);
    assert SlotBytes(p, stored, k);
    var f := stored[k].value;
    forall x | f.offset <= x < End(f)
      ensures p.bytes[x] == f.payload[x - f.offset]
    {
      forall j | 0 <= j < |ranges| && j != k
        ensures !Covers(ranges[j], x)
      {
        if Covers(ranges[j], x) {
          OnlyOneCovers(ranges, p.totalLen, j, k, x);
        }
      }
      assert OnlyCover(p.slots, k, x);
    }
  }

  ghost predicate StateJustified(s: State, events: seq<Event>, config: BindingConfig) {
    s.partial.Some? ==> exists stored :: Justified(s.partial.value, stored, events, config)
  }

  ghost predicate Delivery(reply: Option<Reply>) {
    reply.Some? && reply.value.Done? && reply.value.outcome.Complete?
  }

  lemma DecodedFits(bytes: Bytes, config: BindingConfig)
    requires Decode(bytes, config).Some?
    ensures var f := Decode(bytes, config).value;
            f.payload != [] && End(f) <= f.totalLen <= config.maxReassemblyBytes && f.index < f.count <= config.maxFragments
  {
  }

  lemma LastReceived(events: seq<Event>, e: Event, f: Fragment, config: BindingConfig)
    requires e.Datagram? && Decode(e.bytes, config) == Some(f)
    ensures Received(events + [e], e.generation, e.sequence, f, config)
  {
    assert Carries((events + [e])[|events|], e.generation, e.sequence, f, config);
  }

  ghost predicate Explained(s: State, reply: Reply, events: seq<Event>, config: BindingConfig) {
    && StateJustified(s, events, config)
    && (Delivery(Some(reply)) ==>
          var o := reply.outcome;
          exists frags :: Assembled(o.payload, frags, o.generation, o.sequence, events, config))
  }

  lemma SettleJustified(s: State, p: Partial, replaced: bool, stored: seq<Option<Fragment>>, events: seq<Event>,
                        config: BindingConfig)
    requires Justified(p, stored, events, config)
    ensures var r := Settle(s, p, replaced); Explained(r.0, r.1, events, config)
  {
    hide Received, Justified, Assembled, Finishes;
    if Finishes(p) {
      var frags := FinishedAssembled(p, stored, events, config);
    }
  }

  lemma StoreJustified(s: State, generation: u32, sequence: u64, f: Fragment, events: seq<Event>, config: BindingConfig)
    requires Good(s) && StateJustified(s, events, config)
    requires f.payload != [] && End(f) <= f.totalLen && f.index < f.count
    requires Received(events, generation, sequence, f, config)
    ensures var r := PushFragment(s, generation, sequence, f); Explained(r.0, r.1, events, config)
  {
    hide Received, Justified, Assembled, Finishes, Insert, Settle;
    var same := s.partial.Some? && (s.partial.value.generation, s.partial.value.sequence) == (generation, sequence);
    var p, stored;
    if same {
      p := s.partial.value;
      stored :| Justified(p, stored, events, config);
    } else {
      p, stored := Empty(generation, sequence, f), seq(f.count, _ => None);
      EmptyJustified(generation, sequence, f, events, config);
    }
    if p.count == f.count && p.totalLen == f.totalLen && Insert(p, f).Some? {
      var after := InsertJustified(p, stored, f, events, config);
      SettleJustified(s, Insert(p, f).value, !same && s.partial.Some?, after, events, config);
    }
  }

  lemma StepJustified(s: State, e: Event, events: seq<Event>, config: BindingConfig)
    requires Good(s) && StateJustified(s, events, config) && e.Datagram?
    ensures var r := Step(s, e, config); Explained(r.0, r.1.value, events + [e], config)
  {
    hide Received, Justified, Assembled, PushFragment, Decode, Stale;
    if s.partial.Some? {
      var stored :| Justified(s.partial.value, stored, events, config);
      ReceivedGrows(events, e, s.partial.value, stored, config);
    }
    assert StateJustified(s, events + [e], config);
    if Decode(e.bytes, config).Some? {
      var f := Decode(e.bytes, config).value;
      DecodedFits(e.bytes, config);
      LastReceived(events, e, f, config);
      StoreJustified(s, e.generation, e.sequence, f, events + [e], config);
    }
  }

  lemma {:induction false} RunJustified(events: seq<Event>, config: BindingConfig)
    ensures StateJustified(Final(events, config), events, config)
  {
    hide Received, Justified, Assembled, Step;
    if events != [] {
      var n := |events| - 1;
      RunJustified(events[..n], config);
      assert events == events[..n] + [events[n]];
      if events[n].Datagram? {
        StepJustified(Final(events[..n], config), events[n], events[..n], config);
      } else {
        assert Step(Final(events[..n], config), events[n], config).0.partial.None? by {
          ClearEmpties(Final(events[..n], config), config);
        }
      }
    }
  }

  lemma ClearEmpties(s: State, config: BindingConfig)
    requires Good(s)
    ensures Step(s, Clear, config) == (CLEARED, None)
  {
  }

  /**
    Soundness for arbitrary traffic. Whatever was pushed, in whatever order, a delivered payload
    is made of received fragments of its own pair, one per number, whose ranges tile it with no
    gap and no overlap, and each fragment's bytes are delivered unchanged at its offset.
   */
  lemma DeliveredWasReceived(events: seq<Event>, n: nat, config: BindingConfig)
    requires n < |events| && Delivery(ReplyAt(events, n, config))
    ensures var o := ReplyAt(events, n, config).value.outcome;
            var seen := events[..n + 1];
            exists frags :: Assembled(o.payload, frags, o.generation, o.sequence, seen, config)
  {
    hide Received, Justified, Assembled, Push;
    RunJustified(events[..n], config);
    StepJustified(Final(events[..n], config), events[n], events[..n], config);
    assert events[..n + 1] == events[..n] + [events[n]];
  }

  /* --------------------------- Completed pairs only advance --------------------------- */

  predicate AtLeast(last: Option<(u32, u64)>, pair: (u32, u64)) {
    last.Some? && !Before(last.value, pair)
  }

  /** A datagram never forgets a completed pair, and a delivery records one that is new. */
  lemma PushAdvances(s: State, e: Event, config: BindingConfig)
    requires Good(s) && e.Datagram?
    ensures var (after, reply) := Step(s, e, config);
            && (s.lastCompleted.Some? ==> AtLeast(after.lastCompleted, s.lastCompleted.value))
            && (Delivery(reply) ==>
                  && (reply.value.outcome.generation, reply.value.outcome.sequence) == (e.generation, e.sequence)
                  && after.lastCompleted == Some((e.generation, e.sequence))
                  && !AtLeast(s.lastCompleted, (e.generation, e.sequence)))
  {
    hide Decode, Finishes;
    if Decode(e.bytes, config).Some? {
      DecodedFits(e.bytes, config);
    }
  }

  lemma {:induction false} LastNeverRetreats(events: seq<Event>, i: nat, j: nat, config: BindingConfig)
    requires i <= j <= |events|
    requires forall k :: i <= k < j ==> events[k].Datagram?
    requires Final(events[..i], config).lastCompleted.Some?
    ensures AtLeast(Final(events[..j], config).lastCompleted, Final(events[..i], config).lastCompleted.value)
    decreases j
  {
    hide Step, Final;
    if i < j {
      LastNeverRetreats(events, i, j - 1, config);
      FinalStep(events, j - 1, config);
      PushAdvances(Final(events[..j - 1], config), events[j - 1], config);
    }
  }

  /** Between clears, completed pairs strictly increase: nothing is delivered twice. */
  lemma CompletedPairsIncrease(events: seq<Event>, i: nat, j: nat, config: BindingConfig)
    requires i < j < |events|
    requires forall k :: i <= k <= j ==> events[k].Datagram?
    requires Delivery(ReplyAt(events, i, config)) && Delivery(ReplyAt(events, j, config))
    ensures var a := ReplyAt(events, i, config).value.outcome;
            var b := ReplyAt(events, j, config).value.outcome;
            Before((a.generation, a.sequence), (b.generation, b.sequence))
  {
    hide Step, Final;
    PushAdvances(Final(events[..i], config), events[i], config);
    FinalStep(events, i, config);
    LastNeverRetreats(events, i + 1, j, config);
    PushAdvances(Final(events[..j], config), events[j], config);
  }
}
