/**
  No data channel starves. The bound holds in every valid state, for every interleaving of other
  calls, and does not depend on virtual time staying away from saturation.
 */
module MuxStarvation {
  import opened Base
  import opened Sums
  import opened MuxSpec
  import opened MuxInvariant
  import opened MuxRun
  import opened MuxFairness

  ghost function IndexOf<T>(s: seq<T>, x: T): (k: nat)
    requires x in s
    ensures k < |s| && s[k] == x
  {
    if s[0] == x then 0 else 1 + IndexOf(s[1..], x)
  }

  lemma {:induction false} IndexOfAppend<T>(s: seq<T>, t: seq<T>, x: T)
    requires x in s
    ensures IndexOf(s + t, x) == IndexOf(s, x)
  {
    if s[0] != x {
      assert (s + t)[1..] == s[1..] + t;
      IndexOfAppend(s[1..], t, x);
    }
  }

  lemma {:induction false} IndexOfWithout<T>(s: seq<T>, y: T, x: T)
    requires x in s && x != y
    ensures IndexOf(Without(s, y), x) <= IndexOf(s, x)
  {
    if s[0] != x {
      IndexOfWithout(s[1..], y, x);
      if s[0] != y {
        assert Without(s, y)[1..] == Without(s[1..], y);
      }
    }
  }

  lemma RemoveAtTail<T>(s: seq<T>, k: nat)
    requires 0 < k < |s|
    ensures RemoveAt(s, k) == [s[0]] + RemoveAt(s[1..], k - 1)
    ensures RemoveAt(s, k)[1..] == RemoveAt(s[1..], k - 1)
  {
  }

  lemma {:induction false} IndexOfRemoveAt<T>(s: seq<T>, k: nat, x: T)
    requires x in s && k < |s| && s[k] != x
    ensures x in RemoveAt(s, k)
    ensures IndexOf(RemoveAt(s, k), x) == IndexOf(s, x) - (if k < IndexOf(s, x) then 1 else 0)
  {
    if k == 0 {
      assert RemoveAt(s, k) == s[1..];
    } else if s[0] == x {
      assert RemoveAt(s, k)[0] == x;
    } else {
      IndexOfRemoveAt(s[1..], k - 1, x);
      RemoveAtTail(s, k);
      hide RemoveAt;
    }
  }

  /* --------------------------------- Potential --------------------------------- */

  ghost predicate Waiting(s: State, i: u32) {
    i in s.channels && s.channels[i].queue != [] && i in s.ready
  }

  /** How far channel `j`'s start tag is behind the tag `i` waits with. */
  ghost function Deficit(s: State, i: u32, j: u32): nat
    requires i in s.channels && j in s.channels
  {
    Max(0, Tag(s, i) - StartTag(s, j))
  }

  ghost function Deficits(s: State, i: u32): map<u32, nat>
    requires i in s.channels
  {
    map j | j in s.channels && j != i :: Deficit(s, i, j)
  }

  /** Channel ids that may still be opened. */
  ghost function FreeSlots(s: State): nat {
    Max(0, s.limits.maxChannels - |s.channels| - |s.retired|)
  }

  ghost function Headroom(s: State, i: u32): nat
    requires i in s.channels
  {
    Max(0, Tag(s, i) - s.virtualTime)
  }

  /** An upper bound on the data frames other channels may still send before `i` does. */
  ghost function Potential(s: State, i: u32): nat
    requires Waiting(s, i)
  {
    IndexOf(s.ready, i) + Sum(Deficits(s, i)) + Times(FreeSlots(s), Headroom(s, i))
  }

  /** `n * x` by repeated addition, so that no proof here needs nonlinear arithmetic. */
  ghost function Times(n: nat, x: nat): nat {
    if n == 0 then 0 else x + Times(n - 1, x)
  }

  lemma {:induction false} TimesIsProduct(n: nat, x: nat)
    ensures Times(n, x) == n * x
  {
    if n > 0 {
      TimesIsProduct(n - 1, x);
      assert n * x == (n - 1) * x + x;
    }
  }

  lemma {:induction false} TimesSplit(a: nat, b: nat, x: nat)
    ensures Times(a + b, x) == Times(a, x) + Times(b, x)
  {
    if a > 0 {
      TimesSplit(a - 1, b, x);
      assert a - 1 + b == (a + b) - 1;
    }
  }

  lemma {:induction false} ProductMonotone(a: nat, b: nat, x: nat, y: nat)
    requires a <= b && x <= y
    ensures Times(a, x) <= Times(b, y)
  {
    if a > 0 {
      ProductMonotone(a - 1, b - 1, x, y);
    }
  }

  lemma DeficitsBound(s: State, i: u32)
    requires i in s.channels
    ensures |Deficits(s, i)| == |s.channels| - 1
    ensures Sum(Deficits(s, i)) <= Times(|s.channels| - 1, Headroom(s, i))
  {
    var d := Deficits(s, i);
    assert d.Keys == s.channels.Keys - {i};
    assert |d.Keys| == |s.channels.Keys| - 1;
    SumBound(d, Headroom(s, i));
    TimesIsProduct(|d|, Headroom(s, i));
  }

  lemma PotentialBound(s: State, i: u32)
    requires Valid(s) && Waiting(s, i)
    ensures Potential(s, i) <= IndexOf(s.ready, i) + Times(s.limits.maxChannels - 1, MaxCost(s.channels[i].config))
  {
    hide Valid, Times, MaxCost, IndexOf, Deficits, Sum;
    TagBounds(s, i);
    ReadyWhenQueued(s, i);
    DeficitsBound(s, i);
    var h := Headroom(s, i);
    TimesSplit(|s.channels| - 1, FreeSlots(s), h);
    ProductMonotone(|s.channels| - 1 + FreeSlots(s), s.limits.maxChannels - 1, h, MaxCost(s.channels[i].config));
  }

  /* ---------------------------- One step, op by op ------------------------------ */

  lemma ReadyWhenQueued(s: State, i: u32)
    requires Valid(s) && i in s.channels && s.channels[i].queue != []
    ensures Waiting(s, i)
    ensures Headroom(s, i) == Tag(s, i) - s.virtualTime
    ensures |s.channels| + |s.retired| <= s.limits.maxChannels
  {
  }

  lemma OpenDeficits(s: State, c: ChannelConfig, i: u32)
    requires i in s.channels && c.id !in s.channels
    ensures Sum(Deficits(Opened(s, c), i)) == Sum(Deficits(s, i)) + Headroom(s, i)
    ensures |Opened(s, c).channels| == |s.channels| + 1
  {
    var s' := Opened(s, c);
    assert Deficit(s', i, c.id) == Headroom(s, i);
    assert Deficits(s', i) == Deficits(s, i)[c.id := Headroom(s, i)];
    SumAdd(Deficits(s, i), c.id, Headroom(s, i));
    assert s'.channels.Keys == s.channels.Keys + {c.id};
  }

  lemma OpenPotential(s: State, c: ChannelConfig, i: u32)
    requires Waiting(s, i) && OpenError(s, c).None?
    ensures Waiting(Opened(s, c), i)
    ensures Potential(Opened(s, c), i) <= Potential(s, i)
  {
    hide Sum, Deficits, Times;
    OpenDeficits(s, c, i);
    var s' := Opened(s, c);
    assert FreeSlots(s) == FreeSlots(s') + 1;
    TimesSplit(1, FreeSlots(s'), Headroom(s, i));
    TimesIsProduct(1, Headroom(s, i));
  }

  lemma QueuePotential(s: State, e: Envelope, i: u32)
    requires Waiting(s, i) && e.channelId in s.channels
    ensures Waiting(Queued(s, e), i)
    ensures Potential(Queued(s, e), i) == Potential(s, i)
  {
    var s' := Queued(s, e);
    assert s'.channels.Keys == s.channels.Keys;
    assert |s'.channels| == |s.channels|;
    assert Deficits(s', i) == Deficits(s, i);
    if s'.ready != s.ready {
      IndexOfAppend(s.ready, [e.channelId], i);
    }
  }

  lemma CancelPotential(s: State, id: u32, i: u32)
    requires Waiting(s, i) && id in s.channels && id != i && s.totalPending >= |s.channels[id].queue|
    ensures Waiting(Cancelled(s, id), i)
    ensures Potential(Cancelled(s, id), i) <= Potential(s, i)
  {
    var s' := Cancelled(s, id);
    assert s'.channels.Keys == s.channels.Keys;
    assert |s'.channels| == |s.channels|;
    assert Deficits(s', i) == Deficits(s, i);
    IndexOfWithout(s.ready, id, i);
  }

  lemma CloseDeficits(s: State, id: u32, i: u32)
    requires i in s.channels && id in s.channels && id != i && id !in s.retired
    ensures Sum(Deficits(Closed(s, id), i)) <= Sum(Deficits(s, i))
    ensures |Closed(s, id).channels| + |Closed(s, id).retired| == |s.channels| + |s.retired|
  {
    var s' := Closed(s, id);
    assert s'.channels.Keys == s.channels.Keys - {id};
    assert Deficits(s', i) == Deficits(s, i) - {id};
    SumRemove(Deficits(s, i), id);
  }

  lemma ClosePotential(s: State, id: u32, i: u32)
    requires Waiting(s, i) && id in s.channels && id != i && id !in s.retired
    ensures Waiting(Closed(s, id), i)
    ensures Potential(Closed(s, id), i) <= Potential(s, i)
  {
    hide Sum, Deficits, Times, IndexOf;
    CloseDeficits(s, id, i);
    IndexOfWithout(s.ready, id, i);
  }

  /** Serving `j` only ever brings start tags closer to the tag `i` waits with. */
  lemma ServedDeficit(s: State, i: u32, x: u32)
    requires Valid(s) && Waiting(s, i) && s.control == [] && x in s.channels && x != i
    requires s.ready[NextIndex(s, |s.ready|)] != i
    ensures var k := NextIndex(s, |s.ready|);
            var s' := Next(s).0;
            && i in s'.channels && s'.channels[i] == s.channels[i] && x in s'.channels
            && Headroom(s', i) <= Headroom(s, i)
            && Deficit(s', i, x) <= Deficit(s, i, x)
            && (x == s.ready[k] && k >= IndexOf(s.ready, i) ==> Deficit(s', i, x) < Deficit(s, i, x))
  {
    hide Valid, Next, StepCost, MaxCost;
    NextDelivers(s);
    var k := NextIndex(s, |s.ready|);
    NextTags(s, i);
    NextTags(s, x);
    NextTags(s, s.ready[k]);
    TagBounds(s, s.ready[k]);
    assert Tag(s, s.ready[k]) <= Tag(s, s.ready[IndexOf(s.ready, i)]);
  }

  lemma ServedDeficits(s: State, i: u32)
    requires Valid(s) && Waiting(s, i) && s.control == []
    requires s.ready[NextIndex(s, |s.ready|)] != i
    ensures var k := NextIndex(s, |s.ready|);
            var s' := Next(s).0;
            && i in s'.channels && s'.channels[i] == s.channels[i]
            && Headroom(s', i) <= Headroom(s, i)
            && Sum(Deficits(s', i)) + (if k < IndexOf(s.ready, i) then 0 else 1) <= Sum(Deficits(s, i))
  {
    hide Valid, Next, Sum, Deficit, IsNext, IndexOf, Headroom;
    NextDelivers(s);
    var j := s.ready[NextIndex(s, |s.ready|)];
    var s' := Next(s).0;
    NextTags(s, j);
    ServedDeficit(s, i, j);
    var before, after := Deficits(s, i), Deficits(s', i);
    forall x | x in after
      ensures after[x] <= before[x]
    {
      ServedDeficit(s, i, x);
    }
    SumRemove(before, j);
    SumRemove(after, j);
    SumMonotone(after - {j}, before - {j});
  }

  lemma ServePosition(s: State, i: u32)
    requires Valid(s) && Waiting(s, i) && s.control == []
    requires s.ready[NextIndex(s, |s.ready|)] != i
    ensures var k := NextIndex(s, |s.ready|);
            var s' := Next(s).0;
            && i in s'.ready
            && IndexOf(s'.ready, i) == IndexOf(s.ready, i) - (if k < IndexOf(s.ready, i) then 1 else 0)
    ensures Next(s).0.retired == s.retired && Next(s).0.limits == s.limits
    ensures Next(s).0.channels.Keys == s.channels.Keys
  {
    hide Valid;
    NextDelivers(s);
    var k := NextIndex(s, |s.ready|);
    IndexOfRemoveAt(s.ready, k, i);
    var rest := RemoveAt(s.ready, k);
    if Next(s).0.ready == rest + [s.ready[k]] {
      IndexOfAppend(rest, [s.ready[k]], i);
    } else {
      assert Next(s).0.ready == rest;
    }
  }

  lemma ServePotential(s: State, i: u32)
    requires Valid(s) && Waiting(s, i) && s.control == []
    requires s.ready[NextIndex(s, |s.ready|)] != i
    ensures Waiting(Next(s).0, i)
    ensures Potential(Next(s).0, i) + 1 <= Potential(s, i)
  {
    hide Valid, Next, Headroom, Deficits, IndexOf;
    ServedDeficits(s, i);
    ServePosition(s, i);
    var s' := Next(s).0;
    assert |s'.channels| == |s'.channels.Keys|;
    assert FreeSlots(s') == FreeSlots(s);
    ProductMonotone(FreeSlots(s), FreeSlots(s), Headroom(s', i), Headroom(s, i));
  }

  lemma ControlPotential(s: State, s': State, i: u32)
    requires SameData(s, s') && Waiting(s, i)
    ensures Waiting(s', i) && Potential(s', i) == Potential(s, i)
  {
    assert Deficits(s', i) == Deficits(s, i);
  }

  /* --------------------------------- Any step ----------------------------------- */

  /** `i` keeps waiting through this call: it is neither served nor purged. */
  ghost predicate Skips(s: State, op: Op, i: u32)
    requires Valid(s)
  {
    StepDelivered(s, op, i) == [] && op != CancelChannel(i) && op != CloseChannel(i) && op != DiscardAll
  }

  lemma PotentialStep(s: State, op: Op, i: u32)
    requires Valid(s) && Waiting(s, i) && Skips(s, op, i)
    ensures Waiting(Step(s, op).0, i)
    ensures Potential(Step(s, op).0, i) + (if DeliversData(s, op) then 1 else 0) <= Potential(s, i)
  {
    hide Valid, Potential, NextIndex;
    DataOnlyFromNext(s, op);
    match op
    case OpenChannel(c) =>
      if OpenError(s, c).None? {
        OpenPotential(s, c, i);
      }
    case EnqueueControl(p) =>
      ControlPotential(s, ControlQueued(s, p), i);
    case Enqueue(e) =>
      if EnqueueError(s, e).None? {
        QueuePotential(s, e, i);
      }
    case EnqueueDiscardable(e) =>
      if DiscardableError(s, e).None? {
        QueuePotential(s, e, i);
      }
    case NextOutbound =>
      StepIsNext(s);
      if s.control != [] {
        ControlSentValid(s);
        ControlPotential(s, ControlSent(s), i);
      } else {
        NextDelivers(s);
        ServePotential(s, i);
      }
    case CancelChannel(id) =>
      if id in s.channels {
        CancelledValid(s, id);
        CancelPotential(s, id, i);
      }
    case CloseChannel(id) =>
      if id in s.channels {
        NotRetired(s, id);
        ClosePotential(s, id, i);
      }
    case DiscardAll =>
      assert false;
  }

  lemma NotRetired(s: State, id: u32)
    requires Valid(s) && id in s.channels
    ensures id !in s.retired
  {
  }

  /** Every call of the run skips `i`. */
  ghost predicate SkipsThroughout(s: State, ops: seq<Op>, i: u32)
    requires Valid(s)
    decreases |ops|
  {
    ops != [] ==> Skips(s, ops[0], i) && SkipsThroughout(Step(s, ops[0]).0, ops[1..], i)
  }

  ghost function DataDequeues(s: State, ops: seq<Op>): nat
    requires Valid(s)
    decreases |ops|
  {
    if ops == [] then 0
    else (if DeliversData(s, ops[0]) then 1 else 0) + DataDequeues(Step(s, ops[0]).0, ops[1..])
  }

  lemma {:induction false} DequeuesWithinPotential(s: State, ops: seq<Op>, i: u32)
    requires Valid(s) && Waiting(s, i) && SkipsThroughout(s, ops, i)
    ensures DataDequeues(s, ops) <= Potential(s, i)
    decreases |ops|
  {
    hide Valid, Potential, Step, Skips, DeliversData, Waiting;
    if ops == [] {
    } else {
      PotentialStep(s, ops[0], i);
      DequeuesWithinPotential(Step(s, ops[0]).0, ops[1..], i);
    }
  }

  /**
    No starvation. A channel with a frame queued can be passed over by at most the channels ahead
    of it in the ready list plus, for every other channel the table can ever hold, the cost of one
    of its own maximal frames; the next data dequeue after that is its own.
   */
  lemma NoStarvation(s: State, ops: seq<Op>, i: u32)
    requires Valid(s) && i in s.channels && s.channels[i].queue != []
    requires SkipsThroughout(s, ops, i)
    ensures i in s.ready
    ensures DataDequeues(s, ops)
         <= IndexOf(s.ready, i) + (s.limits.maxChannels - 1) * MaxCost(s.channels[i].config)
    ensures DataDequeues(s, ops) <= (s.limits.maxChannels - 1) * (MaxCost(s.channels[i].config) + 1)
  {
    hide Valid, Potential, SkipsThroughout, DataDequeues, MaxCost, IndexOf;
    ReadyWhenQueued(s, i);
    DequeuesWithinPotential(s, ops, i);
    PotentialBound(s, i);
    ReadyFits(s);
    ReadyBeforeLast(s, i);
    TimesIsProduct(s.limits.maxChannels - 1, MaxCost(s.channels[i].config));
    Distribute(s.limits.maxChannels - 1, MaxCost(s.channels[i].config));
  }

  lemma ReadyBeforeLast(s: State, i: u32)
    requires i in s.ready
    ensures IndexOf(s.ready, i) <= |s.ready| - 1
  {
  }

  lemma Distribute(n: nat, c: nat)
    ensures n * (c + 1) == n * c + n
  {
  }

  lemma {:induction false} UndeliveredSkips(s: State, ops: seq<Op>, i: u32)
    requires Valid(s) && NeverPurges(ops, i) && Delivered(s, ops, i) == []
    ensures SkipsThroughout(s, ops, i)
    decreases |ops|
  {
    hide Valid, Step, StepDelivered;
    if ops == [] {
    } else {
      assert NeverPurges(ops[1..], i) by {
        assert forall k :: 0 <= k < |ops[1..]| ==> ops[1..][k] == ops[k + 1];
      }
      assert ops[0] == ops[0 + 0];
      UndeliveredSkips(Step(s, ops[0]).0, ops[1..], i);
    }
  }

  /**
    The same bound the other way round: once that many data frames have left and nobody has
    cancelled, closed or discarded, channel `i` has sent, and its head frame went first.
   */
  lemma EventuallyServed(s: State, ops: seq<Op>, i: u32)
    requires Valid(s) && i in s.channels && s.channels[i].queue != [] && NeverPurges(ops, i)
    requires DataDequeues(s, ops) > (s.limits.maxChannels - 1) * (MaxCost(s.channels[i].config) + 1)
    ensures Delivered(s, ops, i) != [] && Delivered(s, ops, i)[0] == s.channels[i].queue[0]
  {
    if Delivered(s, ops, i) == [] {
      UndeliveredSkips(s, ops, i);
      NoStarvation(s, ops, i);
    }
    NothingLost(s, ops, i);
    hide Valid, Delivered, Accepted, Final, DataDequeues, MaxCost;
    var q := s.channels[i].queue;
    assert (q + Accepted(s, ops, i))[0] == q[0];
  }

  lemma ReadyFits(s: State)
    requires Valid(s)
    ensures |s.ready| <= s.limits.maxChannels
  {
    DistinctElements(s.ready);
    SubsetSize(Elements(s.ready), s.channels.Keys);
  }
}
