/**
  From one end to the other: a payload cut into fragments, queued as one latest-only group, served
  datagram by datagram and put together again by the receiver.
 */
module RealtimeDelivery {
  import opened Base
  import opened RealtimeSpec
  import opened RealtimeInvariant
  import opened RealtimeRun
  import F = FragmentSpec
  import R = FragmentRun
  import T = FragmentRoundTrip

  /** The call makes a new group of the flow, with its datagram as the only member. */
  ghost predicate Starts(q: Queue, op: Op, f: u16) {
    Numbers(q, op) && op.Enqueue? && op.d.flow == f
  }

  /** The call serves the last datagram of the flow's group. */
  ghost predicate Finishes(q: Queue, op: Op, f: u16) {
    && Step(q, op).1.Popped? && Step(q, op).1.d.Some? && Step(q, op).1.d.value.flow == f
    && f !in Step(q, op).0.groups
  }

  /** What the receiver is handed when the call serves the flow. */
  ghost function StepArrival(q: Queue, op: Op, f: u16): seq<R.Event> {
    var reply := Step(q, op).1;
    if reply.Popped? && reply.d.Some? && reply.d.value.flow == f then
      [R.Datagram(reply.d.value.generation, reply.d.value.sequence, reply.d.value.payload)]
    else []
  }

  ghost function Arrivals(q: Queue, ops: seq<Op>, f: u16): seq<R.Event> {
    if ops == [] then []
    else Arrivals(q, ops[..|ops| - 1], f) + StepArrival(Final(q, ops[..|ops| - 1]), ops[|ops| - 1], f)
  }

  /** The datagrams of a group's fragments, in order. */
  function Encoded(frags: seq<F.Fragment>): (r: seq<Bytes>)
    ensures |r| == |frags| && forall k :: 0 <= k < |r| ==> r[k] == F.Encode(frags[k])
  {
    seq(|frags|, k requires 0 <= k < |frags| => F.Encode(frags[k]))
  }

  lemma AdmitStarts(q: Queue, d: Datagram, now: nat)
    requires Admit(q, d, now).0.nextOrder != q.nextOrder
    ensures d.flow in Admit(q, d, now).0.groups
    ensures var group := Admit(q, d, now).0.groups[d.flow];
            group.members == [d] && (group.generation, group.sequence) == (d.generation, d.sequence)
  {
    hide Least, CompareGroup, VictimRanks;
  }

  lemma StartsAlone(q: Queue, op: Op, f: u16)
    requires Starts(q, op, f)
    ensures f in Step(q, op).0.groups
    ensures var group := Step(q, op).0.groups[f];
            group.members == [op.d] && (group.generation, group.sequence) == (op.d.generation, op.d.sequence)
  {
    hide Admit, Expire;
    ExpireNumbersNothing(q, op.now);
    AdmitStarts(Expire(q, op.now), op.d, op.now);
  }

  lemma PopFinishes(q: Queue, chosen: Option<u16>, f: u16)
    requires PopChosen(q, chosen).1.Some? && PopChosen(q, chosen).1.value.flow == f
    ensures f in q.groups
    ensures var d := PopChosen(q, chosen).1.value;
            && (d.generation, d.sequence) == (q.groups[f].generation, q.groups[f].sequence)
            && (f !in PopChosen(q, chosen).0.groups ==> Payloads(q.groups[f].members) == [d.payload])
  {
  }

  /** A datagram is served with its group's pair, and the one that ends the group was its last. */
  lemma ServedFromGroup(q: Queue, op: Op, f: u16)
    requires Inv(q) && Step(q, op).1.Popped? && Step(q, op).1.d.Some? && Step(q, op).1.d.value.flow == f
    ensures f in q.groups
    ensures var d := Step(q, op).1.d.value;
            && (d.generation, d.sequence) == (q.groups[f].generation, q.groups[f].sequence)
            && (Finishes(q, op, f) ==> Payloads(q.groups[f].members) == [d.payload])
  {
    hide Inv, Balance, PopChosen, Expire, Least, Payloads;
    var live := Expire(q, TimeOf(op));
    ExpireKeeps(q, TimeOf(op));
    PopFinishes(live, Least(if op.PopNext? then ServiceRanks(live) else FittingRanks(live, op.maxWireLen)), f);
  }

  /** The arrivals are the served payloads under one pair. */
  ghost predicate Carry(arrivals: seq<R.Event>, payloads: seq<Bytes>, generation: u32, sequence: u64) {
    && |arrivals| == |payloads|
    && forall k :: 0 <= k < |arrivals| ==> arrivals[k] == R.Datagram(generation, sequence, payloads[k])
  }

  lemma StepCarries(q: Queue, op: Op, f: u16)
    requires Inv(q) && f in q.groups
    ensures Carry(StepArrival(q, op, f), StepPopped(q, op, f), q.groups[f].generation, q.groups[f].sequence)
  {
    hide Inv, Step;
    var reply := Step(q, op).1;
    if reply.Popped? && reply.d.Some? && reply.d.value.flow == f {
      ServedFromGroup(q, op, f);
    }
  }

  lemma CarryAppend(a: seq<R.Event>, x: seq<Bytes>, b: seq<R.Event>, y: seq<Bytes>, generation: u32, sequence: u64)
    requires Carry(a, x, generation, sequence) && Carry(b, y, generation, sequence)
    ensures Carry(a + b, x + y, generation, sequence)
  {
  }

  lemma EarlierSame(q: Queue, ops: seq<Op>, f: u16)
    requires SameGroupThroughout(q, ops, f) && ops != []
    ensures SameGroupThroughout(q, ops[..|ops| - 1], f)
    ensures SameGroup(Final(q, ops[..|ops| - 1]), ops[|ops| - 1], f)
  {
    hide Final, SameGroup;
    var shorter := ops[..|ops| - 1];
    forall n | 0 <= n < |shorter|
      ensures SameGroup(Final(q, shorter[..n]), shorter[n], f)
    {
      assert shorter[..n] == ops[..n];
    }
  }

  lemma SamePair(q: Queue, op: Op, f: u16)
    requires SameGroup(q, op, f)
    ensures f in q.groups && f in Step(q, op).0.groups
    ensures var was, now := q.groups[f], Step(q, op).0.groups[f];
            (now.generation, now.sequence) == (was.generation, was.sequence)
  {
  }

  lemma {:induction false} RunCarries(q: Queue, ops: seq<Op>, f: u16)
    requires Inv(q) && SameGroupThroughout(q, ops, f)
    ensures Inv(Final(q, ops)) && f in Final(q, ops).groups
    ensures var was, now := q.groups[f], Final(q, ops).groups[f];
            (now.generation, now.sequence) == (was.generation, was.sequence)
    ensures Carry(Arrivals(q, ops, f), PoppedFrom(q, ops, f), q.groups[f].generation, q.groups[f].sequence)
    decreases |ops|
  {
    hide Inv, Step, SameGroup, StepArrival, StepPopped, Carry;
    if ops == [] {
      NothingCarried(q.groups[f].generation, q.groups[f].sequence);
    } else {
      var n := |ops| - 1;
      EarlierSame(q, ops, f);
      RunCarries(q, ops[..n], f);
      var before := Final(q, ops[..n]);
      SamePair(before, ops[n], f);
      OneStepInv(before, ops[n]);
      StepCarries(before, ops[n], f);
      CarryAppend(Arrivals(q, ops[..n], f), PoppedFrom(q, ops[..n], f), StepArrival(before, ops[n], f),
                  StepPopped(before, ops[n], f), q.groups[f].generation, q.groups[f].sequence);
    }
  }

  lemma NothingCarried(generation: u32, sequence: u64)
    ensures Carry([], [], generation, sequence)
  {
  }

  /** A group that is started, kept and served to its end hands over exactly what was put into it, in order. */
  lemma GroupServed(q: Queue, first: Op, ops: seq<Op>, last: Op, f: u16)
    requires Inv(q) && Starts(q, first, f)
    requires var started := Step(q, first).0;
             SameGroupThroughout(started, ops, f) && Finishes(Final(started, ops), last, f)
    ensures var started := Step(q, first).0;
            Carry(Arrivals(started, ops + [last], f), [first.d.payload] + Appended(started, ops, f),
                  first.d.generation, first.d.sequence)
  {
    hide Inv, Step, SameGroup, StepArrival, StepPopped, Carry, Appended, PoppedFrom;
    var started := Step(q, first).0;
    OneStepInv(q, first);
    StartsAlone(q, first, f);
    GroupIsFifo(started, ops, f);
    RunCarries(started, ops, f);
    var before := Final(started, ops);
    LastServed(before, last, f);
    StepCarries(before, last, f);
    CarryAppend(Arrivals(started, ops, f), PoppedFrom(started, ops, f), StepArrival(before, last, f),
                StepPopped(before, last, f), first.d.generation, first.d.sequence);
    assert (ops + [last])[..|ops|] == ops;
    assert Payloads(started.groups[f].members) == [first.d.payload];
  }

  lemma LastServed(q: Queue, op: Op, f: u16)
    requires Inv(q) && Finishes(q, op, f)
    ensures f in q.groups && StepPopped(q, op, f) == Payloads(q.groups[f].members)
  {
    hide Inv, Step, Payloads;
    ServedFromGroup(q, op, f);
  }

  lemma CarriedIsOwn(arrivals: seq<R.Event>, g: T.Group, k: nat)
    requires Carry(arrivals, Encoded(g.frags), g.generation, g.sequence) && k < |g.frags|
    ensures k < |arrivals| && T.Own(arrivals[k], g, k)
  {
  }

  /** A link that loses none of the arrivals brings every number. */
  lemma AllArrive(arrivals: seq<R.Event>, traffic: seq<R.Event>, g: T.Group)
    requires Carry(arrivals, Encoded(g.frags), g.generation, g.sequence)
    requires forall e :: e in arrivals ==> e in traffic
    ensures |T.Arrived(traffic, g)| == |g.frags|
  {
    hide Carry, Encoded, T.Own;
    forall k: nat | k < |g.frags|
      ensures k in T.Arrived(traffic, g)
    {
      CarriedIsOwn(arrivals, g, k);
      assert arrivals[k] in arrivals;
      var i :| 0 <= i < |traffic| && traffic[i] == arrivals[k];
      assert T.Own(traffic[i], g, k);
      assert T.HasArrived(traffic, g, k);
    }
    assert T.Arrived(traffic, g) == T.Numbers(|g.frags|);
  }

  /**
    Delivered whole. A payload cut for the link is submitted fragment by fragment as one group. If
    that group is not replaced, evicted, expired or dropped before its last datagram is served, and
    the link brings each served datagram at least once, in any order and among any older traffic,
    the receiver delivers exactly the payload, and does so exactly once.
   */
  lemma DeliveredWhole(
    q: Queue, first: Op, ops: seq<Op>, last: Op, f: u16, payload: Bytes, chunk: nat, config: F.BindingConfig,
    history: seq<R.Event>, traffic: seq<R.Event>) returns (n: nat)
    requires Inv(q) && F.Sendable(payload, chunk)
    requires |payload| <= config.maxReassemblyBytes && F.FragmentCount(|payload|, chunk) <= config.maxFragments
    requires Starts(q, first, f)
    requires var started := Step(q, first).0;
             && SameGroupThroughout(started, ops, f) && Finishes(Final(started, ops), last, f)
             && [first.d.payload] + Appended(started, ops, f) == Encoded(F.Split(payload, chunk))
             && forall e :: e in Arrivals(started, ops + [last], f) ==> e in traffic
    requires var g := T.Group(first.d.generation, first.d.sequence, F.Split(payload, chunk));
             T.Traffic(traffic, g) && T.Quiet(R.Final(history, config), g.Pair())
    ensures var g := T.Group(first.d.generation, first.d.sequence, F.Split(payload, chunk));
            && n < |traffic| && T.DeliversAt(history, traffic, n, g, config)
            && R.ReplyAt(history + traffic, |history| + n, config).value.outcome.payload == payload
            && forall m :: 0 <= m < |traffic| && T.DeliversAt(history, traffic, m, g, config) ==> m == n
  {
    hide Inv, Step, Final, SameGroupThroughout, Finishes, Carry, Appended, Arrivals, Encoded, T.Traffic, T.Quiet,
      T.DeliversAt, R.Final, R.ReplyAt, F.Split, F.Sendable, F.FragmentCount, T.Arrived, T.Accepted;
    var g := T.Group(first.d.generation, first.d.sequence, F.Split(payload, chunk));
    GroupServed(q, first, ops, last, f);
    AllArrive(Arrivals(Step(q, first).0, ops + [last], f), traffic, g);
    T.SenderGroupAccepted(g.generation, g.sequence, payload, chunk, config);
    n := T.DeliveredExactlyOnce(history, traffic, g, payload, config);
  }

  /* ------------------------------ An undisturbed sender --------------------------------- */

  /** The datagrams of one group, all alive at time zero and within the limits together. */
  ghost predicate OneGroup(ds: seq<Datagram>, config: Config, maxPayload: nat) {
    && 0 < |ds| <= config.maxDatagramsPerGroup && Size(ds) <= config.maxGroupBytes && Size(ds) <= USIZE_MAX
    && forall k :: 0 <= k < |ds| ==>
         && ds[k] == ds[0].(payload := ds[k].payload)
         && ds[k].deadline > 0 && |ds[k].payload| <= maxPayload
  }

  /** The queue holds the members and nothing else, in a group all of `put` went into. */
  ghost predicate Holding(q: Queue, config: Config, maxPayload: nat, put: seq<Datagram>, members: seq<Datagram>) {
    && put != [] && q.config == config && q.maxPayload == maxPayload
    && var d := put[0];
       q.groups == map[
         d.flow := RealtimeSpec.Group(d.generation, d.sequence, d.deadline, d.priority, members, Size(put), 0)]
  }

  /** Submitting `ds` and then serving `n` datagrams, all at time zero. */
  function Script(ds: seq<Datagram>, n: nat): seq<Op>
    decreases n, |ds|
  {
    if n > 0 then Script(ds, n - 1) + [Op.PopNext(0)]
    else if ds == [] then []
    else Script(ds[..|ds| - 1], 0) + [Enqueue(ds[|ds| - 1], 0)]
  }

  lemma {:induction false} SizePrefix(ds: seq<Datagram>, n: nat)
    requires n <= |ds|
    ensures Size(ds[..n]) <= Size(ds)
    decreases |ds| - n
  {
    hide Size;
    if n == |ds| {
      assert ds[..n] == ds;
    } else {
      assert ds[..n + 1] == ds[..n] + [ds[n]];
      SizeAppend(ds[..n], ds[n]);
      SizePrefix(ds, n + 1);
    }
  }

  lemma FirstHeld(config: Config, maxPayload: nat, d: Datagram)
    requires New(config, maxPayload).Some? && OneGroup([d], config, maxPayload)
    ensures var q := New(config, maxPayload).value;
            Starts(q, Enqueue(d, 0), d.flow) && Holding(Step(q, Enqueue(d, 0)).0, config, maxPayload, [d], [d])
  {
    hide Expire, RealtimeSpec.Note;
    var q := New(config, maxPayload).value;
    ExpireNothing(q, 0);
    SizeAppend([], d);
    assert [] + [d] == [d];
  }

  lemma NextHeld(q: Queue, config: Config, maxPayload: nat, put: seq<Datagram>, d: Datagram)
    requires Inv(q) && Holding(q, config, maxPayload, put, put) && OneGroup(put + [d], config, maxPayload)
    ensures SameGroup(q, Enqueue(d, 0), d.flow) && StepAppended(q, Enqueue(d, 0), d.flow) == [d.payload]
    ensures Holding(Step(q, Enqueue(d, 0)).0, config, maxPayload, put + [d], put + [d])
  {
    hide Expire, RealtimeSpec.Note, Inv;
    assert (put + [d])[0] == put[0] && (put + [d])[|put|] == d;
    ExpireNothing(q, 0);
    SizeAppend(put, d);
  }

  lemma HeadServed(q: Queue, config: Config, maxPayload: nat, put: seq<Datagram>, members: seq<Datagram>)
    requires Holding(q, config, maxPayload, put, members) && members != [] && put[0].deadline > 0
    ensures var f := put[0].flow;
            && StepAppended(q, Op.PopNext(0), f) == []
            && (if |members| > 1 then
                  SameGroup(q, Op.PopNext(0), f)
                  && Holding(Step(q, Op.PopNext(0)).0, config, maxPayload, put, members[1..])
                else Finishes(q, Op.PopNext(0), f))
  {
    hide Expire, Least;
    ExpireNothing(q, 0);
    var live := Expire(q, 0);
    assert IsLeast(ServiceRanks(live), put[0].flow);
    LeastIs(ServiceRanks(live), put[0].flow);
  }

  lemma SameThroughoutNext(q: Queue, ops: seq<Op>, op: Op, f: u16)
    requires SameGroupThroughout(q, ops, f) && SameGroup(Final(q, ops), op, f)
    ensures SameGroupThroughout(q, ops + [op], f)
    ensures Appended(q, ops + [op], f) == Appended(q, ops, f) + StepAppended(Final(q, ops), op, f)
  {
    hide Final, SameGroup, StepAppended;
    var longer := ops + [op];
    assert longer[..|ops|] == ops;
    forall n | 0 <= n < |longer|
      ensures SameGroup(Final(q, longer[..n]), longer[n], f)
    {
      if n < |ops| {
        assert longer[..n] == ops[..n];
      }
    }
  }

  lemma OneGroupPrefix(ds: seq<Datagram>, n: nat, config: Config, maxPayload: nat)
    requires OneGroup(ds, config, maxPayload) && 0 < n <= |ds|
    ensures OneGroup(ds[..n], config, maxPayload)
  {
    SizePrefix(ds, n);
  }

  /** The script has run: all of `ds` went into the group of `d`, and `n` datagrams were served. */
  ghost predicate Ran(q: Queue, config: Config, maxPayload: nat, d: Datagram, ds: seq<Datagram>, n: nat)
    requires n <= |ds|
  {
    && Inv(Final(q, Script(ds, n))) && SameGroupThroughout(q, Script(ds, n), d.flow)
    && Holding(Final(q, Script(ds, n)), config, maxPayload, [d] + ds, ([d] + ds)[n..])
    && Appended(q, Script(ds, n), d.flow) == Payloads(ds)
  }

  lemma RanNext(q: Queue, ops: seq<Op>, op: Op, f: u16)
    requires Inv(Final(q, ops)) && SameGroupThroughout(q, ops, f) && SameGroup(Final(q, ops), op, f)
    ensures Inv(Final(q, ops + [op])) && SameGroupThroughout(q, ops + [op], f)
    ensures Final(q, ops + [op]) == Step(Final(q, ops), op).0
    ensures Appended(q, ops + [op], f) == Appended(q, ops, f) + StepAppended(Final(q, ops), op, f)
  {
    hide Inv, Step, SameGroupThroughout, SameGroup, Appended, StepAppended, Final;
    SameThroughoutNext(q, ops, op, f);
    FinalNext(q, ops, op);
    OneStepInv(Final(q, ops), op);
  }

  lemma RanServe(q: Queue, config: Config, maxPayload: nat, d: Datagram, ds: seq<Datagram>, n: nat)
    requires OneGroup([d] + ds, config, maxPayload) && 0 < n <= |ds| && Ran(q, config, maxPayload, d, ds, n - 1)
    ensures Ran(q, config, maxPayload, d, ds, n)
  {
    hide Inv, Step, Final, SameGroupThroughout, SameGroup, Appended, StepAppended, Holding, OneGroup, Payloads;
    var all, ops := [d] + ds, Script(ds, n - 1);
    AliveFirst(all, config, maxPayload);
    HeadServed(Final(q, ops), config, maxPayload, all, all[n - 1..]);
    assert all[n - 1..][1..] == all[n..];
    RanNext(q, ops, Op.PopNext(0), d.flow);
    assert Appended(q, ops, d.flow) + [] == Appended(q, ops, d.flow);
  }

  lemma RanPut(q: Queue, config: Config, maxPayload: nat, d: Datagram, ds: seq<Datagram>)
    requires OneGroup([d] + ds, config, maxPayload) && ds != []
    requires Ran(q, config, maxPayload, d, ds[..|ds| - 1], 0)
    ensures Ran(q, config, maxPayload, d, ds, 0)
  {
    hide Inv, Step, Final, SameGroupThroughout, SameGroup, Appended, StepAppended, Holding, OneGroup;
    var m := |ds| - 1;
    var all, put, e := [d] + ds, [d] + ds[..m], ds[m];
    assert all[m + 1] == e && put + [e] == all && put[0..] == put && all[0..] == all;
    AliveFirst(all, config, maxPayload);
    var ops := Script(ds[..m], 0);
    NextHeld(Final(q, ops), config, maxPayload, put, e);
    RanNext(q, ops, Enqueue(e, 0), d.flow);
    assert Payloads(ds) == Payloads(ds[..m]) + [e.payload];
  }

  lemma {:induction false} ScriptHolds(
    q: Queue, config: Config, maxPayload: nat, d: Datagram, ds: seq<Datagram>, n: nat)
    requires Inv(q) && Holding(q, config, maxPayload, [d], [d]) && OneGroup([d] + ds, config, maxPayload) && n <= |ds|
    ensures Ran(q, config, maxPayload, d, ds, n)
    decreases n, |ds|
  {
    hide Ran, Inv, Holding, OneGroup;
    if n > 0 {
      ScriptHolds(q, config, maxPayload, d, ds, n - 1);
      RanServe(q, config, maxPayload, d, ds, n);
    } else if ds == [] {
      NothingRan(q, config, maxPayload, d);
    } else {
      var all, m := [d] + ds, |ds| - 1;
      assert all[..m + 1] == [d] + ds[..m];
      OneGroupPrefix(all, m + 1, config, maxPayload);
      ScriptHolds(q, config, maxPayload, d, ds[..m], 0);
      RanPut(q, config, maxPayload, d, ds);
    }
  }

  lemma NothingRan(q: Queue, config: Config, maxPayload: nat, d: Datagram)
    requires Inv(q) && Holding(q, config, maxPayload, [d], [d])
    ensures Ran(q, config, maxPayload, d, [], 0)
  {
    hide Inv;
    assert ([d] + [])[0..] == [d] && [d] + [] == [d];
  }

  lemma AliveFirst(ds: seq<Datagram>, config: Config, maxPayload: nat)
    requires OneGroup(ds, config, maxPayload)
    ensures ds != [] && forall k :: 0 <= k < |ds| ==> ds[k].flow == ds[0].flow && ds[k].deadline > 0
  {
  }

  /**
    A new queue with room for the group serves all of it: its conditions of delivery are met, so
    what the receiver is handed is the datagrams' payloads under their pair, in order.
   */
  lemma UndisturbedServed(config: Config, maxPayload: nat, ds: seq<Datagram>)
    requires New(config, maxPayload).Some? && OneGroup(ds, config, maxPayload)
    ensures var q, f := New(config, maxPayload).value, ds[0].flow;
            var first, ops := Enqueue(ds[0], 0), Script(ds[1..], |ds| - 1);
            var started := Step(q, first).0;
            && Inv(q) && Starts(q, first, f) && SameGroupThroughout(started, ops, f)
            && Finishes(Final(started, ops), Op.PopNext(0), f)
            && [ds[0].payload] + Appended(started, ops, f) == Payloads(ds)
            && Carry(Arrivals(started, ops + [Op.PopNext(0)], f), Payloads(ds), ds[0].generation, ds[0].sequence)
  {
    hide Inv, Step, Final, SameGroupThroughout, OneGroup, Appended, Finishes, Starts, Carry, Arrivals, Script, Ran,
      Payloads, New;
    AliveFirst(ds, config, maxPayload);
    var q, d := New(config, maxPayload).value, ds[0];
    WholeGroupRan(config, maxPayload, ds);
    RanFinishes(Step(q, Enqueue(d, 0)).0, config, maxPayload, ds);
    PayloadsHead(ds);
    GroupServed(q, Enqueue(d, 0), Script(ds[1..], |ds| - 1), Op.PopNext(0), d.flow);
  }

  /** The group is started, and then everything but its last datagram goes in and out. */
  lemma WholeGroupRan(config: Config, maxPayload: nat, ds: seq<Datagram>)
    requires New(config, maxPayload).Some? && ds != [] && OneGroup(ds, config, maxPayload)
    ensures var q, first := New(config, maxPayload).value, Enqueue(ds[0], 0);
            && Inv(q) && Starts(q, first, ds[0].flow)
            && Ran(Step(q, first).0, config, maxPayload, ds[0], ds[1..], |ds| - 1)
  {
    hide Inv, Step, Holding, OneGroup, Starts, Ran, New, Balance;
    var q, d := New(config, maxPayload).value, ds[0];
    assert ds[..1] == [d] && [d] + ds[1..] == ds;
    NewStarts(config, maxPayload);
    OneGroupPrefix(ds, 1, config, maxPayload);
    FirstHeld(config, maxPayload, d);
    OneStepInv(q, Enqueue(d, 0));
    ScriptHolds(Step(q, Enqueue(d, 0)).0, config, maxPayload, d, ds[1..], |ds| - 1);
  }

  lemma RanFinishes(started: Queue, config: Config, maxPayload: nat, ds: seq<Datagram>)
    requires ds != [] && OneGroup(ds, config, maxPayload)
    requires Ran(started, config, maxPayload, ds[0], ds[1..], |ds| - 1)
    ensures var f, ops := ds[0].flow, Script(ds[1..], |ds| - 1);
            && SameGroupThroughout(started, ops, f) && Finishes(Final(started, ops), Op.PopNext(0), f)
            && Appended(started, ops, f) == Payloads(ds[1..])
  {
    hide Inv, Step, Final, SameGroup, SameGroupThroughout, Holding, OneGroup, Appended, Finishes, Script, Payloads;
    AliveFirst(ds, config, maxPayload);
    assert [ds[0]] + ds[1..] == ds;
    HeadServed(Final(started, Script(ds[1..], |ds| - 1)), config, maxPayload, ds, ds[|ds| - 1..]);
  }

  lemma PayloadsHead(ds: seq<Datagram>)
    requires ds != []
    ensures [ds[0].payload] + Payloads(ds[1..]) == Payloads(ds)
  {
  }
}
