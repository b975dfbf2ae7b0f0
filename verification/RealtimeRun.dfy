/** Whole runs of the realtime queue: conservation, provenance, deadlines and latest-only. */
module RealtimeRun {
  import opened Base
  import opened Sums
  import opened RealtimeSpec
  import opened RealtimeInvariant

  datatype Op =
    | Enqueue(d: Datagram, now: nat)
    | PopNext(now: nat)
    | PopNextFitting(now: nat, maxWireLen: nat)
    | Peek(now: nat)
    | NoteSent(flow: u16, payload: Bytes)
    | DropDisposable
    | SetMaxPayload(limit: nat)
    | ClearPending

  datatype Reply = Sent(outcome: Result<SendOutcome, SendError>) | Popped(d: Option<Datagram>) | Silent

  ghost function Step(q: Queue, op: Op): (Queue, Reply) {
    match op
    case Enqueue(d, now) => var (after, r) := RealtimeSpec.Enqueue(q, d, now); (after, Sent(r))
    case PopNext(now) => var (after, r) := RealtimeSpec.PopNext(q, now); (after, Popped(r))
    case PopNextFitting(now, maxWireLen) =>
      var (after, r) := RealtimeSpec.PopNextFitting(q, now, maxWireLen); (after, Popped(r))
    case Peek(now) => (Expire(q, now), Silent)
    case NoteSent(flow, payload) => (RealtimeSpec.NoteSent(q, flow, payload), Silent)
    case DropDisposable => (RealtimeSpec.DropDisposable(q), Silent)
    case SetMaxPayload(limit) => (RealtimeSpec.SetMaxPayload(q, limit).0, Silent)
    case ClearPending => (RealtimeSpec.ClearPending(q), Silent)
  }

  ghost function Final(q: Queue, ops: seq<Op>): Queue {
    if ops == [] then q else Step(Final(q, ops[..|ops| - 1]), ops[|ops| - 1]).0
  }

  ghost function ReplyAt(q: Queue, ops: seq<Op>, n: nat): Reply
    requires n < |ops|
  {
    Step(Final(q, ops[..n]), ops[n]).1
  }

  lemma FinalStep(q: Queue, ops: seq<Op>, n: nat)
    requires n < |ops|
    ensures Final(q, ops[..n + 1]) == Step(Final(q, ops[..n]), ops[n]).0
  {
    assert ops[..n + 1][..n] == ops[..n];
  }

  /* --------------------------------- Conservation --------------------------------- */

  /** What a caller can count: accepted calls, datagrams popped, and datagrams cleared uncounted. */
  datatype Books = Books(accepted: nat, popped: nat, cleared: nat)

  ghost function BooksAfter(books: Books, q: Queue, op: Op): Books {
    var reply := Step(q, op).1;
    if reply.Sent? && reply.outcome.Ok? then books.(accepted := books.accepted + 1)
    else if reply.Popped? && reply.d.Some? then books.(popped := books.popped + 1)
    else if op.ClearPending? then books.(cleared := books.cleared + Pending(q))
    else books
  }

  ghost function FinalBooks(q: Queue, ops: seq<Op>): Books {
    if ops == [] then Books(0, 0, 0)
    else
      var n := |ops| - 1;
      BooksAfter(FinalBooks(q, ops[..n]), Final(q, ops[..n]), ops[n])
  }

  lemma StepKeeps(q: Queue, op: Op, books: Books)
    requires Inv(q) && books.accepted == books.popped + books.cleared + Balance(q)
    ensures Inv(Step(q, op).0)
    ensures var b := BooksAfter(books, q, op); b.accepted == b.popped + b.cleared + Balance(Step(q, op).0)
  {
    hide Inv, Balance, RealtimeSpec.Enqueue, PopChosen, Expire, RealtimeSpec.NoteSent, RealtimeSpec.ClearPending,
      RealtimeSpec.SetMaxPayload, DropAll, Pending, Least;
    match op {
      case Enqueue(d, now) => EnqueueKeeps(q, d, now);
      case PopNext(now) =>
        ExpireKeeps(q, now);
        PopChosenKeeps(Expire(q, now), Least(ServiceRanks(Expire(q, now))));
      case PopNextFitting(now, maxWireLen) =>
        ExpireKeeps(q, now);
        PopChosenKeeps(Expire(q, now), Least(FittingRanks(Expire(q, now), maxWireLen)));
      case Peek(now) => ExpireKeeps(q, now);
      case NoteSent(flow, payload) => NoteSentKeeps(q, flow, payload);
      case DropDisposable => DropAllKeeps(q, Disposable(q), Congested);
      case SetMaxPayload(limit) => SetMaxPayloadKeeps(q, limit);
      case ClearPending => ClearKeeps(q);
    }
  }

  lemma NewStarts(config: Config, maxPayload: nat)
    requires New(config, maxPayload).Some?
    ensures Inv(New(config, maxPayload).value) && Balance(New(config, maxPayload).value) == 0
  {
    var q := New(config, maxPayload).value;
    assert Lens(q.groups) == map[];
  }

  lemma {:induction false} RunKeeps(q: Queue, ops: seq<Op>)
    requires Inv(q) && Balance(q) == 0
    ensures Inv(Final(q, ops))
    ensures var b := FinalBooks(q, ops); b.accepted == b.popped + b.cleared + Balance(Final(q, ops))
  {
    hide Inv, Balance, Step, BooksAfter;
    if ops != [] {
      var n := |ops| - 1;
      RunKeeps(q, ops[..n]);
      StepKeeps(Final(q, ops[..n]), ops[n], FinalBooks(q, ops[..n]));
    }
  }

  /** A saturating 64-bit counter shows the true count up to its ceiling. */
  function Cap(n: nat): u64 { Min(n, U64_MAX) }

  /**
    Conservation over every run: each accepted call is popped, still pending, replaced, expired,
    dropped for congestion or cleared, and never two of these; the queue's totals are the sums of
    its per-flow statistics. The telemetry shows exactly these numbers while fewer than 2^64 calls
    have been accepted.
   */
  lemma Conservation(config: Config, maxPayload: nat, ops: seq<Op>)
    requires New(config, maxPayload).Some?
    ensures var start := New(config, maxPayload).value;
            var q := Final(start, ops);
            var b := FinalBooks(start, ops);
            var t := q.ledger.total;
            && b.accepted == b.popped + Pending(q) + t.replaced + t.expired + t.congested + b.cleared
            && t == Total(q.ledger.flows)
            && (b.accepted <= U64_MAX ==>
                  b.accepted == b.popped + Pending(q) + Cap(t.replaced) + Cap(t.expired) + Cap(t.congested) + b.cleared)
  {
    hide Step, Final, FinalBooks, GroupsOk, Pending, Total;
    NewStarts(config, maxPayload);
    RunKeeps(New(config, maxPayload).value, ops);
  }

  /** One statistic of every flow, as counted. */
  ghost function Column(flows: map<u16, Counts>, k: nat): map<u16, nat>
    requires k < 6
  {
    map f | f in flows :: Row(flows[f])[k]
  }

  /** The same as the flows' saturating counters show it. */
  ghost function ShownColumn(flows: map<u16, Counts>, k: nat): map<u16, nat>
    requires k < 6
  {
    map f | f in flows :: ShownRow(Capped(flows[f]))[k]
  }

  lemma PlusRow(a: Counts, b: Counts, k: nat)
    requires k < 6
    ensures Row(Plus(a, b))[k] == Row(a)[k] + Row(b)[k] && Row(ZERO)[k] == 0
  {
  }

  lemma {:induction false} ColumnTotal(flows: map<u16, Counts>, k: nat)
    requires k < 6
    ensures Row(Total(flows))[k] == Sum(Column(flows, k))
    decreases |flows|
  {
    hide Row, Plus;
    PlusRow(ZERO, ZERO, k);
    if flows == map[] {
      assert Column(flows, k) == map[];
    } else {
      hide Total;
      var f :| f in flows;
      TotalRemove(flows, f);
      Shrinks(flows, f);
      ColumnTotal(flows - {f}, k);
      PlusRow(flows[f], Total(flows - {f}), k);
      SumRemove(Column(flows, k), f);
      assert Column(flows, k) - {f} == Column(flows - {f}, k);
    }
  }

  lemma CappedRow(c: Counts, k: nat)
    requires k < 6
    ensures ShownRow(Capped(c))[k] == Min(Row(c)[k], U64_MAX)
  {
  }

  lemma DroppingQueuesNothing(q: Queue, flows: set<u16>, reason: Reason)
    ensures DropAll(q, flows, reason).ledger.total.queued == q.ledger.total.queued
  {
    hide Sum, Lens;
  }

  lemma AdmitQueues(q: Queue, d: Datagram, now: nat)
    ensures var (after, r) := Admit(q, d, now);
            after.ledger.total.queued <= q.ledger.total.queued + (if r.Ok? then 1 else 0)
  {
    hide Least, CompareGroup, VictimRanks;
  }

  lemma QueuedStep(q: Queue, op: Op)
    ensures Step(q, op).0.ledger.total.queued
         <= q.ledger.total.queued + (if Step(q, op).1.Sent? && Step(q, op).1.outcome.Ok? then 1 else 0)
  {
    hide DropAll, Admit, Least, ServiceRanks, FittingRanks, Due;
    if op.Enqueue? {
      DroppingQueuesNothing(q, Due(q, op.now), Expired);
      AdmitQueues(Expire(q, op.now), op.d, op.now);
    } else if op.PopNext? || op.PopNextFitting? || op.Peek? {
      DroppingQueuesNothing(q, Due(q, TimeOf(op)), Expired);
    } else if op.SetMaxPayload? {
      DroppingQueuesNothing(q.(maxPayload := op.limit), Oversized(q, op.limit), Congested);
    } else {
      DroppingQueuesNothing(q, Disposable(q), Congested);
    }
  }

  lemma {:induction false} QueuedWereAccepted(q: Queue, ops: seq<Op>)
    requires Inv(q) && Balance(q) == 0 && q.ledger.total.queued == 0
    ensures Final(q, ops).ledger.total.queued <= FinalBooks(q, ops).accepted
  {
    hide Inv, Balance, Step;
    if ops != [] {
      var n := |ops| - 1;
      QueuedWereAccepted(q, ops[..n]);
      RunKeeps(q, ops[..n]);
      QueuedStep(Final(q, ops[..n]), ops[n]);
    }
  }

  ghost predicate AddsUp(ledger: Ledger, k: nat)
    requires k < 6
  {
    ShownRow(Capped(ledger.total))[k] == Sum(ShownColumn(ledger.flows, k))
  }

  /** The true total is below the ceiling of the counters, or all of it is one flow's. */
  ghost predicate CountersSuffice(ledger: Ledger, k: nat)
    requires k < 6
  {
    || Row(ledger.total)[k] <= U64_MAX
    || exists f :: f in ledger.flows && Row(ledger.flows[f])[k] == Row(ledger.total)[k]
  }

  lemma LedgerAddsUp(ledger: Ledger, k: nat)
    requires Totals(ledger) && k < 6
    ensures AddsUp(ledger, k) <==> CountersSuffice(ledger, k)
  {
    hide Total, Row, ShownRow, Capped;
    var column := Column(ledger.flows, k);
    ColumnTotal(ledger.flows, k);
    CutSum(column, U64_MAX);
    CappedRow(ledger.total, k);
    forall f | f in ledger.flows
      ensures ShownRow(Capped(ledger.flows[f]))[k] == Min(Row(ledger.flows[f])[k], U64_MAX)
    {
      CappedRow(ledger.flows[f], k);
    }
    assert ShownColumn(ledger.flows, k) == Cut(column, U64_MAX);
    if f :| f in ledger.flows && Row(ledger.flows[f])[k] == Row(ledger.total)[k] {
      assert column[f] == Sum(column);
    }
  }

  lemma RunTotals(q: Queue)
    requires Inv(q)
    ensures Totals(q.ledger)
  {
  }

  lemma RowWithin(q: Queue, accepted: nat, k: nat)
    requires k < 6 && k !in {1, 2} && accepted >= Balance(q) && accepted >= q.ledger.total.queued
    ensures Row(q.ledger.total)[k] <= accepted
  {
  }

  /**
    The queue's saturating statistics are the sums of the flows' saturating statistics exactly while
    the true total is below the ceiling, or all of it is one flow's. For all but the two statistics
    of sent datagrams it is below while fewer than 2^64 calls have been accepted.
   */
  lemma StatisticsAddUp(config: Config, maxPayload: nat, ops: seq<Op>, k: nat)
    requires New(config, maxPayload).Some? && k < 6
    ensures var start := New(config, maxPayload).value;
            var ledger := Final(start, ops).ledger;
            && (AddsUp(ledger, k) <==> CountersSuffice(ledger, k))
            && (FinalBooks(start, ops).accepted <= U64_MAX && k !in {1, 2} ==> AddsUp(ledger, k))
  {
    hide Step, Final, FinalBooks, Inv, Balance, AddsUp, Row;
    var start := New(config, maxPayload).value;
    NewStarts(config, maxPayload);
    RunKeeps(start, ops);
    QueuedWereAccepted(start, ops);
    RunTotals(Final(start, ops));
    LedgerAddsUp(Final(start, ops).ledger, k);
    if k !in {1, 2} {
      RowWithin(Final(start, ops), FinalBooks(start, ops).accepted, k);
    }
  }

  lemma DroppingKeepsConfig(q: Queue, flows: set<u16>, reason: Reason)
    ensures DropAll(q, flows, reason).config == q.config
  {
  }

  lemma StepKeepsConfig(q: Queue, op: Op)
    ensures Step(q, op).0.config == q.config
  {
    hide Note, Dropped, Lens, Due, Least, CompareGroup, DropAll, ServiceRanks, FittingRanks, VictimRanks;
    DroppingKeepsConfig(q, Due(q, TimeOf(op)), Expired);
    DroppingKeepsConfig(q, Disposable(q), Congested);
    if op.SetMaxPayload? {
      DroppingKeepsConfig(q.(maxPayload := op.limit), Oversized(q, op.limit), Congested);
    }
  }

  lemma {:induction false} ConfigIsFixed(q: Queue, ops: seq<Op>)
    ensures Final(q, ops).config == q.config
  {
    hide Step;
    if ops != [] {
      ConfigIsFixed(q, ops[..|ops| - 1]);
      StepKeepsConfig(Final(q, ops[..|ops| - 1]), ops[|ops| - 1]);
    }
  }

  /** Bounds in every reachable state. */
  lemma Bounds(config: Config, maxPayload: nat, ops: seq<Op>)
    requires New(config, maxPayload).Some?
    ensures var q := Final(New(config, maxPayload).value, ops);
            && |q.groups| <= config.maxFlows
            && forall f :: f in q.groups ==>
                 && 0 < |q.groups[f].members| <= config.maxDatagramsPerGroup
                 && Size(q.groups[f].members) <= Max(config.maxGroupBytes, q.maxPayload)
  {
    hide Step, Final, FinalBooks, Pending, Total, Size, Balance;
    NewStarts(config, maxPayload);
    ConfigIsFixed(New(config, maxPayload).value, ops);
    RunKeeps(New(config, maxPayload).value, ops);
    var q := Final(New(config, maxPayload).value, ops);
    forall f | f in q.groups
      ensures 0 < |q.groups[f].members| <= q.config.maxDatagramsPerGroup
      ensures Size(q.groups[f].members) <= Max(q.config.maxGroupBytes, q.maxPayload)
    {
      assert GroupOk(f, q.groups[f], q.config, q.maxPayload);
      GroupBytesBounded(q, f);
    }
  }

  lemma EmptyHasNoLeast(ranks: map<u16, Rank>)
    requires ranks == map[]
    ensures Least(ranks).None?
  {
  }

  lemma NoEmptyGroup(q: Queue, f: u16)
    requires Inv(q) && f in q.groups
    ensures q.groups[f].members != []
  {
    assert GroupOk(f, q.groups[f], q.config, q.maxPayload);
  }

  /* -------------------------------------- Age ---------------------------------------- */

  /** Whether the call gives out a number, which it does exactly when it makes a new group. */
  ghost predicate Numbers(q: Queue, op: Op) { Step(q, op).0.nextOrder != q.nextOrder }

  /** What one call does to the counter and to a flow's number. */
  ghost predicate NumbersStep(q: Queue, op: Op, after: Queue, f: u16) {
    && after.nextOrder == (if Numbers(q, op) then NextOrder(q.nextOrder) else q.nextOrder)
    && (Numbers(q, op) ==> op.Enqueue?)
    && (f in after.groups ==>
          if Numbers(q, op) && op.d.flow == f then after.groups[f].insertionOrder == q.nextOrder
          else f in q.groups && after.groups[f].insertionOrder == q.groups[f].insertionOrder)
  }

  lemma EnqueueNumbers(q: Queue, d: Datagram, now: nat, f: u16)
    requires Inv(q)
    ensures NumbersStep(q, Enqueue(d, now), RealtimeSpec.Enqueue(q, d, now).0, f)
  {
    hide Inv, Balance, Expire, Least, VictimRanks, CompareGroup, Note;
    ExpireKeeps(q, now);
    ExpireNumbersNothing(q, now);
  }

  lemma ExpireNumbersNothing(q: Queue, now: nat)
    ensures Expire(q, now).nextOrder == q.nextOrder
  {
  }

  lemma PopNumbersNothing(q: Queue, chosen: Option<u16>, f: u16)
    ensures var after := PopChosen(q, chosen).0;
            && after.nextOrder == q.nextOrder
            && (f in after.groups ==>
                  f in q.groups && after.groups[f].insertionOrder == q.groups[f].insertionOrder)
  {
  }

  lemma StepNumbers(q: Queue, op: Op, f: u16)
    requires Inv(q)
    ensures NumbersStep(q, op, Step(q, op).0, f)
  {
    hide Inv, Balance, RealtimeSpec.Enqueue, PopChosen, Expire, Least;
    if op.Enqueue? {
      EnqueueNumbers(q, op.d, op.now, f);
    } else if op.PopNext? || op.PopNextFitting? {
      var live := Expire(q, TimeOf(op));
      ExpireKeeps(q, TimeOf(op));
      ExpireNumbersNothing(q, TimeOf(op));
      PopNumbersNothing(live, Least(if op.PopNext? then ServiceRanks(live) else FittingRanks(live, op.maxWireLen)), f);
    } else if op.Peek? {
      ExpireKeeps(q, op.now);
      ExpireNumbersNothing(q, op.now);
    }
  }

  /** The groups made over the run. */
  ghost function Made(q: Queue, ops: seq<Op>): nat {
    if ops == [] then 0
    else
      var n := |ops| - 1;
      Made(q, ops[..n]) + (if Numbers(Final(q, ops[..n]), ops[n]) then 1 else 0)
  }

  /** How many groups had been made before the flow's latest one. */
  ghost function Birth(q: Queue, ops: seq<Op>, f: u16): nat {
    if ops == [] then 0
    else
      var n := |ops| - 1;
      if Numbers(Final(q, ops[..n]), ops[n]) && ops[n].Enqueue? && ops[n].d.flow == f then Made(q, ops[..n])
      else Birth(q, ops[..n], f)
  }

  lemma NextOrderCounts(n: nat)
    ensures NextOrder(n % SPAN64) == (n + 1) % SPAN64
  {
  }

  lemma {:induction false} NumbersCountBirths(config: Config, maxPayload: nat, ops: seq<Op>)
    requires New(config, maxPayload).Some?
    ensures var start := New(config, maxPayload).value;
            var q := Final(start, ops);
            && q.nextOrder == Made(start, ops) % SPAN64
            && (forall f :: f in q.groups ==>
                  Birth(start, ops, f) < Made(start, ops)
                  && q.groups[f].insertionOrder == Birth(start, ops, f) % SPAN64)
            && forall f, g :: f in q.groups && g in q.groups && f != g ==> Birth(start, ops, f) != Birth(start, ops, g)
  {
    hide Step, Inv, Numbers, NextOrder;
    if ops != [] {
      var start := New(config, maxPayload).value;
      var n := |ops| - 1;
      NumbersCountBirths(config, maxPayload, ops[..n]);
      NewStarts(config, maxPayload);
      RunKeeps(start, ops[..n]);
      var before, after := Final(start, ops[..n]), Final(start, ops);
      StepNumbers(before, ops[n], 0);
      NextOrderCounts(Made(start, ops[..n]));
      forall f | f in after.groups
        ensures Birth(start, ops, f) < Made(start, ops)
        ensures after.groups[f].insertionOrder == Birth(start, ops, f) % SPAN64
        ensures f in before.groups || (Numbers(before, ops[n]) && ops[n].Enqueue? && ops[n].d.flow == f)
      {
        StepNumbers(before, ops[n], f);
      }
    }
  }

  /**
    Of two pending groups of any run, with fewer than 2^64 groups made from one to the other, the
    older has the smaller number exactly when the counter did not wrap in between.
   */
  lemma NumbersAreAges(config: Config, maxPayload: nat, ops: seq<Op>, f: u16, g: u16)
    requires New(config, maxPayload).Some?
    requires var q := Final(New(config, maxPayload).value, ops); f in q.groups && g in q.groups && f != g
    ensures var start := New(config, maxPayload).value;
            var q, a, b := Final(start, ops), Birth(start, ops, f), Birth(start, ops, g);
            && a != b
            && q.groups[f].insertionOrder == a % SPAN64 && q.groups[g].insertionOrder == b % SPAN64
            && (a < b < a + SPAN64 ==>
                  (q.groups[f].insertionOrder < q.groups[g].insertionOrder <==> a / SPAN64 == b / SPAN64))
  {
    hide Final, Birth, Made;
    NumbersCountBirths(config, maxPayload, ops);
  }

  /* ------------------------------ Where ages wrap ------------------------------------ */

  lemma FinalNext(q: Queue, ops: seq<Op>, op: Op)
    ensures Final(q, ops + [op]) == Step(Final(q, ops), op).0
  {
    assert (ops + [op])[..|ops|] == ops;
  }

  /** An empty datagram of a flow, alive at time zero. */
  function Small(flow: u16): Datagram { Datagram(flow, 0, 0, 1, 0, []) }

  function SmallGroup(flow: u16, order: u64): Group { Group(0, 0, 1, 0, [Small(flow)], 0, order) }

  /** What numbering and service depend on: everything but the ledger. */
  ghost predicate Looks(q: Queue, config: Config, maxPayload: nat, groups: map<u16, Group>, nextOrder: u64) {
    q.config == config && q.maxPayload == maxPayload && q.groups == groups && q.nextOrder == nextOrder
  }

  lemma ExpireNothing(q: Queue, now: nat)
    requires forall f :: f in q.groups ==> q.groups[f].deadline > now
    ensures Looks(Expire(q, now), q.config, q.maxPayload, q.groups, q.nextOrder)
  {
    assert Due(q, now) == {};
    assert q.groups - Due(q, now) == q.groups;
  }

  lemma EnqueueSmall(q: Queue, flow: u16)
    requires forall f :: f in q.groups ==> q.groups[f].deadline > 0
    requires flow !in q.groups && |q.groups| < q.config.maxFlows
    ensures Looks(Step(q, Enqueue(Small(flow), 0)).0, q.config, q.maxPayload,
                  q.groups[flow := SmallGroup(flow, q.nextOrder)], NextOrder(q.nextOrder))
  {
    hide Expire, Note;
    ExpireNothing(q, 0);
  }

  /** Groups coming and going: each round numbers one group and then clears the queue. */
  function Rounds(n: nat): seq<Op> {
    if n == 0 then [] else Rounds(n - 1) + [Enqueue(Small(0), 0)] + [Op.ClearPending]
  }

  lemma RoundNumbersOne(q: Queue)
    requires q.groups == map[] && q.config.maxFlows > 0
    ensures Looks(Step(Step(q, Enqueue(Small(0), 0)).0, Op.ClearPending).0, q.config, q.maxPayload, map[],
                  NextOrder(q.nextOrder))
  {
    hide RealtimeSpec.Enqueue;
    EnqueueSmall(q, 0);
  }

  lemma NothingDone(q: Queue)
    ensures Final(q, []) == q
  {
  }

  lemma {:induction false} NumberAfterRounds(config: Config, maxPayload: nat, n: nat)
    requires New(config, maxPayload).Some?
    ensures Looks(Final(New(config, maxPayload).value, Rounds(n)), config, maxPayload, map[], n % SPAN64)
  {
    hide Step, Final, NextOrder;
    var start := New(config, maxPayload).value;
    if n == 0 {
      NothingDone(start);
    } else {
      NumberAfterRounds(config, maxPayload, n - 1);
      RoundNumbersOne(Final(start, Rounds(n - 1)));
      FinalNext(start, Rounds(n - 1), Enqueue(Small(0), 0));
      FinalNext(start, Rounds(n - 1) + [Enqueue(Small(0), 0)], Op.ClearPending);
      NextOrderCounts(n - 1);
    }
  }

  /** Of two groups of one priority the smaller number is served. */
  lemma PopSmall(q: Queue, f: u16, g: u16, a: u64, b: u64)
    requires f != g && q.groups == map[f := SmallGroup(f, a), g := SmallGroup(g, b)] && a != b
    ensures Step(q, Op.PopNext(0)).1 == Popped(Some(Small(if a < b then f else g)))
  {
    hide Expire, Least;
    ExpireNothing(q, 0);
    var live := Expire(q, 0);
    var first := if a < b then f else g;
    assert IsLeast(ServiceRanks(live), first);
    LeastIs(ServiceRanks(live), first);
  }

  /**
    After `n` earlier groups the older of two equally urgent groups is served first, exactly unless
    it takes the last number before the counter wraps.
   */
  lemma OlderServedFirstExactly(config: Config, maxPayload: nat, n: nat)
    requires New(config, maxPayload).Some? && config.maxFlows >= 2
    ensures var ops := Rounds(n) + [Enqueue(Small(1), 0)] + [Enqueue(Small(2), 0)];
            var q := Final(New(config, maxPayload).value, ops);
            Step(q, Op.PopNext(0)).1 == Popped(Some(Small(1))) <==> n % SPAN64 != U64_MAX
  {
    hide Step, Final;
    var start := New(config, maxPayload).value;
    NumberAfterRounds(config, maxPayload, n);
    var q0 := Final(start, Rounds(n));
    EnqueueSmall(q0, 1);
    FinalNext(start, Rounds(n), Enqueue(Small(1), 0));
    var q1 := Final(start, Rounds(n) + [Enqueue(Small(1), 0)]);
    assert q1.groups == map[1 := SmallGroup(1, q0.nextOrder)];
    EnqueueSmall(q1, 2);
    FinalNext(start, Rounds(n) + [Enqueue(Small(1), 0)], Enqueue(Small(2), 0));
    var q2 := Final(start, Rounds(n) + [Enqueue(Small(1), 0)] + [Enqueue(Small(2), 0)]);
    PopSmall(q2, 1, 2, q0.nextOrder, q1.nextOrder);
  }

  /* ----------------------------------- Provenance ----------------------------------- */

  /** How one operation can change a group's members. */
  ghost predicate MembersFrom(q: Queue, op: Op, f: u16, members: seq<Datagram>) {
    forall i :: 0 <= i < |members| ==> MemberFrom(q, op, f, members[i])
  }

  ghost predicate MemberFrom(q: Queue, op: Op, f: u16, d: Datagram) {
    (f in q.groups && d in q.groups[f].members) || (op.Enqueue? && op.d == d)
  }

  lemma PopMembers(q: Queue, chosen: Option<u16>, op: Op, f: u16)
    requires f in PopChosen(q, chosen).0.groups
    ensures MembersFrom(q, op, f, PopChosen(q, chosen).0.groups[f].members)
  {
  }

  lemma LiveMembers(q: Queue, live: Queue, op: Op, f: u16, members: seq<Datagram>)
    requires forall g :: g in live.groups ==> g in q.groups && live.groups[g] == q.groups[g]
    requires MembersFrom(live, op, f, members)
    ensures MembersFrom(q, op, f, members)
  {
    forall i | 0 <= i < |members|
      ensures MemberFrom(q, op, f, members[i])
    {
      assert MemberFrom(live, op, f, members[i]);
    }
  }

  lemma EnqueueMembers(q: Queue, d: Datagram, now: nat, f: u16)
    requires Inv(q) && f in RealtimeSpec.Enqueue(q, d, now).0.groups
    ensures MembersFrom(q, Enqueue(d, now), f, RealtimeSpec.Enqueue(q, d, now).0.groups[f].members)
  {
    hide Inv, Balance, Expire, Least, VictimRanks, CompareGroup, Note;
    ExpireKeeps(q, now);
  }

  lemma StepMembers(q: Queue, op: Op, f: u16)
    requires Inv(q) && f in Step(q, op).0.groups
    ensures MembersFrom(q, op, f, Step(q, op).0.groups[f].members)
  {
    hide Inv, Balance, RealtimeSpec.Enqueue, PopChosen, Expire, Least;
    if op.Enqueue? {
      EnqueueMembers(q, op.d, op.now, f);
    } else if op.PopNext? || op.PopNextFitting? {
      var live := Expire(q, TimeOf(op));
      var chosen := Least(if op.PopNext? then ServiceRanks(live) else FittingRanks(live, op.maxWireLen));
      PopMembers(live, chosen, op, f);
      ExpireKeeps(q, TimeOf(op));
      LiveMembers(q, live, op, f, PopChosen(live, chosen).0.groups[f].members);
    } else if op.Peek? {
      ExpireKeeps(q, op.now);
    }
  }

  ghost predicate Submitted(ops: seq<Op>, d: Datagram) {
    exists i :: 0 <= i < |ops| && Submits(ops[i], d)
  }

  predicate Submits(op: Op, d: Datagram) { op.Enqueue? && op.d == d }

  lemma {:induction false} PendingWasSubmitted(config: Config, maxPayload: nat, ops: seq<Op>, f: u16, k: nat)
    requires New(config, maxPayload).Some?
    requires var q := Final(New(config, maxPayload).value, ops); f in q.groups && k < |q.groups[f].members|
    ensures Submitted(ops, Final(New(config, maxPayload).value, ops).groups[f].members[k])
    decreases |ops|
  {
    hide Step, Inv, Balance, BooksAfter;
    var start := New(config, maxPayload).value;
    if ops != [] {
      var n := |ops| - 1;
      var before := Final(start, ops[..n]);
      NewStarts(config, maxPayload);
      RunKeeps(start, ops[..n]);
      StepMembers(before, ops[n], f);
      var m := Final(start, ops).groups[f].members[k];
      if f in before.groups && m in before.groups[f].members {
        var j :| 0 <= j < |before.groups[f].members| && before.groups[f].members[j] == m;
        PendingWasSubmitted(config, maxPayload, ops[..n], f, j);
        var i :| 0 <= i < n && Submits(ops[..n][i], m);
        assert Submits(ops[i], m);
      } else {
        assert Submits(ops[n], m);
      }
    }
  }

  function TimeOf(op: Op): nat {
    match op
    case Enqueue(_, now) => now
    case PopNext(now) => now
    case PopNextFitting(now, _) => now
    case Peek(now) => now
    case _ => 0
  }

  /** What `Popped` says about the datagram `d` that was once submitted. */
  predicate ServedFrom(popped: Datagram, d: Datagram) {
    && popped.flow == d.flow && popped.generation == d.generation && popped.sequence == d.sequence
    && popped.payload == d.payload && popped.deadline <= d.deadline && popped.priority <= d.priority
  }

  /**
    Every popped datagram was submitted earlier with exactly this flow, generation, sequence and
    payload, and is popped strictly before the deadline it was submitted with.
   */
  lemma PoppedWasSubmitted(config: Config, maxPayload: nat, ops: seq<Op>, n: nat) returns (d: Datagram)
    requires New(config, maxPayload).Some? && n < |ops|
    requires ReplyAt(New(config, maxPayload).value, ops, n).Popped?
    requires ReplyAt(New(config, maxPayload).value, ops, n).d.Some?
    ensures Submitted(ops[..n], d) && ServedFrom(ReplyAt(New(config, maxPayload).value, ops, n).d.value, d)
    ensures TimeOf(ops[n]) < d.deadline
  {
    hide Inv, Balance, Expire, Least, ServiceRanks, FittingRanks, Submitted;
    var start := New(config, maxPayload).value;
    NewStarts(config, maxPayload);
    RunKeeps(start, ops[..n]);
    var before := Final(start, ops[..n]);
    ExpireKeeps(before, TimeOf(ops[n]));
    var live := Expire(before, TimeOf(ops[n]));
    var popped := ReplyAt(start, ops, n).d.value;
    HeadIsMember(live, popped.flow);
    PendingWasSubmitted(config, maxPayload, ops[..n], popped.flow, 0);
    d := live.groups[popped.flow].members[0];
  }

  lemma HeadIsMember(q: Queue, f: u16)
    requires Inv(q) && f in q.groups && q.groups[f].members != []
    ensures MemberOk(f, q.groups[f], q.groups[f].members[0], q.maxPayload)
  {
    assert GroupOk(f, q.groups[f], q.config, q.maxPayload);
  }

  /* ---------------------------------- Latest only ------------------------------------ */

  /**
    Circular comparison reads the difference of the unwrapped values modulo the range. For values
    less than a whole range apart it is integer comparison exactly within half the range.
   */
  lemma SerialOrder(a: int, b: int, range: nat)
    requires range > 0 && range % 2 == 0
    ensures IsNewer(a % range, b % range, range) <==> 0 < (a - b) % range < range / 2
    ensures 0 - range < a - b < range ==>
              ((IsNewer(a % range, b % range, range) <==> a > b) <==> 0 - range / 2 <= a - b < range / 2)
  {
    ModDifference(a, b, range);
    if 0 - range < a - b < range {
      WrapSmall(a - b, range);
    }
  }

  lemma WrapSmall(x: int, range: nat)
    requires range > 0 && 0 - range < x < range
    ensures x % range == if x < 0 then x + range else x
  {
    if x < 0 {
      ModOfSum(x + range, -1, range);
    }
  }

  /** Adding a multiple of the range leaves the remainder. */
  lemma ModOfSum(x: int, k: int, range: nat)
    requires range > 0
    ensures (x + k * range) % range == x % range
  {
    var q := x / range;
    assert x + k * range == (q + k) * range + x % range by {
      assert (q + k) * range == q * range + k * range;
    }
    QuotientUnique(x + k * range, q + k, x % range, range);
  }

  lemma AtLeastOne(k: int, range: nat)
    requires k >= 1
    ensures k * range >= range
  {
  }

  lemma Distributes(p: int, q: int, range: nat)
    ensures (p - q) * range == p * range - q * range
  {
  }

  lemma QuotientUnique(x: int, q: int, r: nat, range: nat)
    requires range > 0 && r < range && x == q * range + r
    ensures x % range == r
  {
    var p := x / range;
    Distributes(p, q, range);
    Distributes(q, p, range);
    if p > q {
      AtLeastOne(p - q, range);
    } else if p < q {
      AtLeastOne(q - p, range);
    }
  }

  lemma ModDifference(a: int, b: int, range: nat)
    requires range > 0
    ensures (a % range - b % range) % range == (a - b) % range
  {
    var k := b / range - a / range;
    assert (a - b) + k * range == a % range - b % range by {
      assert k * range == (b / range) * range - (a / range) * range;
    }
    ModOfSum(a - b, k, range);
  }

  /** A datagram of the flow that reaches the comparison with the pending group. */
  ghost predicate Considered(q: Queue, op: Op, f: u16) {
    op.Enqueue? && op.d.flow == f && |op.d.payload| <= q.maxPayload && op.d.deadline > op.now
  }

  /** Either the group's pair is unchanged, or it is circularly newer. */
  predicate Advances(was: Group, now: Group) {
    || (now.generation, now.sequence) == (was.generation, was.sequence)
    || CompareGroup(now.generation, now.sequence, was.generation, was.sequence) == Newer
  }

  /** The pair moves exactly when a circularly newer datagram of the flow is considered, and then to its pair. */
  ghost predicate Follows(q: Queue, op: Op, f: u16, was: Group, now: Group) {
    (now.generation, now.sequence)
    == if Considered(q, op, f)
          && CompareGroup(op.d.generation, op.d.sequence, was.generation, was.sequence) == Newer
       then (op.d.generation, op.d.sequence)
       else (was.generation, was.sequence)
  }

  lemma EnqueueFollows(q: Queue, d: Datagram, now: nat, f: u16)
    requires Inv(q) && f in q.groups && f in RealtimeSpec.Enqueue(q, d, now).0.groups
    requires f in Expire(q, now).groups || f != d.flow
    ensures f in Expire(q, now).groups
    ensures Follows(q, Enqueue(d, now), f, q.groups[f], RealtimeSpec.Enqueue(q, d, now).0.groups[f])
  {
    hide Inv, Balance, Expire, Least, VictimRanks, CompareGroup, Note;
    ExpireKeeps(q, now);
    ExpireKeepsLimit(q, now);
  }

  lemma ExpireKeepsLimit(q: Queue, now: nat)
    ensures Expire(q, now).maxPayload == q.maxPayload
  {
  }

  lemma PopFollows(q: Queue, chosen: Option<u16>, f: u16)
    requires f in PopChosen(q, chosen).0.groups
    ensures var after := PopChosen(q, chosen).0.groups[f];
            f in q.groups && (after.generation, after.sequence) == (q.groups[f].generation, q.groups[f].sequence)
  {
  }

  /** The flow is pending before and after, and did not expire in between. */
  ghost predicate Stays(q: Queue, op: Op, f: u16) {
    && f in q.groups && f in Step(q, op).0.groups
    && (op.Enqueue? ==> f in Expire(q, op.now).groups)
  }

  /**
    A flow that stays pending keeps its group's pair, or moves to the circularly newer pair of the
    datagram just submitted.
   */
  lemma GroupAdvances(q: Queue, op: Op, f: u16)
    requires Inv(q) && Stays(q, op, f)
    ensures Advances(q.groups[f], Step(q, op).0.groups[f])
    ensures Follows(q, op, f, q.groups[f], Step(q, op).0.groups[f])
  {
    hide Inv, Balance, RealtimeSpec.Enqueue, PopChosen, Expire, Least, CompareGroup;
    if op.Enqueue? {
      EnqueueFollows(q, op.d, op.now, f);
    } else if op.PopNext? {
      ExpireKeeps(q, op.now);
      PopFollows(Expire(q, op.now), Least(ServiceRanks(Expire(q, op.now))), f);
    } else if op.PopNextFitting? {
      ExpireKeeps(q, op.now);
      PopFollows(Expire(q, op.now), Least(FittingRanks(Expire(q, op.now), op.maxWireLen)), f);
    } else if op.Peek? {
      ExpireKeeps(q, op.now);
    }
  }

  /* ------------------------------ Order inside a group -------------------------------- */

  ghost predicate SameGroup(q: Queue, op: Op, f: u16) {
    && Stays(q, op, f)
    && var was, now := q.groups[f], Step(q, op).0.groups[f];
       (now.generation, now.sequence) == (was.generation, was.sequence)
  }

  ghost function StepAppended(q: Queue, op: Op, f: u16): seq<Bytes> {
    if op.Enqueue? && op.d.flow == f && Step(q, op).1 == Sent(Ok(Enqueued)) then [op.d.payload] else []
  }

  ghost function StepPopped(q: Queue, op: Op, f: u16): seq<Bytes> {
    var reply := Step(q, op).1;
    if reply.Popped? && reply.d.Some? && reply.d.value.flow == f then [reply.d.value.payload] else []
  }

  lemma EnqueueFifo(q: Queue, d: Datagram, now: nat, f: u16)
    requires Inv(q) && SameGroup(q, Enqueue(d, now), f)
    ensures Payloads(q.groups[f].members) + StepAppended(q, Enqueue(d, now), f)
         == Payloads(Step(q, Enqueue(d, now)).0.groups[f].members)
  {
    hide Inv, Balance, Expire, Least, VictimRanks, Note;
    ExpireKeeps(q, now);
    NoEmptyGroup(q, f);
    NewerDiffers(d.generation, d.sequence, q.groups[f].generation, q.groups[f].sequence);
    hide CompareGroup;
  }

  lemma NewerDiffers(generation: u32, sequence: u64, currentGeneration: u32, currentSequence: u64)
    ensures CompareGroup(generation, sequence, currentGeneration, currentSequence) == Same
            <==> (generation, sequence) == (currentGeneration, currentSequence)
  {
  }

  lemma PopFifo(q: Queue, chosen: Option<u16>, f: u16)
    requires f in PopChosen(q, chosen).0.groups
    ensures var (after, d) := PopChosen(q, chosen);
            f in q.groups && Payloads(q.groups[f].members)
              == (if d.Some? && d.value.flow == f then [d.value.payload] else []) + Payloads(after.groups[f].members)
  {
  }

  lemma StepFifo(q: Queue, op: Op, f: u16)
    requires Inv(q) && SameGroup(q, op, f)
    ensures Payloads(q.groups[f].members) + StepAppended(q, op, f)
         == StepPopped(q, op, f) + Payloads(Step(q, op).0.groups[f].members)
  {
    hide Inv, Balance, RealtimeSpec.Enqueue, PopChosen, Expire, Least, Payloads;
    if op.Enqueue? {
      EnqueueFifo(q, op.d, op.now, f);
    } else if op.PopNext? || op.PopNextFitting? {
      var live := Expire(q, TimeOf(op));
      ExpireKeeps(q, TimeOf(op));
      PopFifo(live, Least(if op.PopNext? then ServiceRanks(live) else FittingRanks(live, op.maxWireLen)), f);
    } else if op.Peek? {
      ExpireKeeps(q, op.now);
    }
  }

  ghost predicate SameGroupThroughout(q: Queue, ops: seq<Op>, f: u16) {
    f in q.groups && forall n :: 0 <= n < |ops| ==> SameGroup(Final(q, ops[..n]), ops[n], f)
  }

  ghost function Appended(q: Queue, ops: seq<Op>, f: u16): seq<Bytes> {
    if ops == [] then []
    else Appended(q, ops[..|ops| - 1], f) + StepAppended(Final(q, ops[..|ops| - 1]), ops[|ops| - 1], f)
  }

  ghost function PoppedFrom(q: Queue, ops: seq<Op>, f: u16): seq<Bytes> {
    if ops == [] then []
    else PoppedFrom(q, ops[..|ops| - 1], f) + StepPopped(Final(q, ops[..|ops| - 1]), ops[|ops| - 1], f)
  }

  /**
    A group is a FIFO queue while it lasts: what it held followed by what was added is what was
    popped followed by what it still holds.
   */
  lemma {:induction false} GroupIsFifo(q: Queue, ops: seq<Op>, f: u16)
    requires Inv(q) && SameGroupThroughout(q, ops, f)
    ensures Inv(Final(q, ops)) && f in Final(q, ops).groups
    ensures Payloads(q.groups[f].members) + Appended(q, ops, f)
         == PoppedFrom(q, ops, f) + Payloads(Final(q, ops).groups[f].members)
    decreases |ops|
  {
    hide Inv, Step, SameGroup, Payloads, StepAppended, StepPopped;
    if ops != [] {
      var n := |ops| - 1;
      var shorter := ops[..n];
      forall m | 0 <= m < n
        ensures SameGroup(Final(q, shorter[..m]), shorter[m], f)
      {
        assert shorter[..m] == ops[..m];
      }
      GroupIsFifo(q, shorter, f);
      var before := Final(q, shorter);
      assert SameGroup(before, ops[n], f);
      SameGroupStays(before, ops[n], f);
      StepFifo(before, ops[n], f);
      OneStepInv(before, ops[n]);
      FifoChain(Payloads(q.groups[f].members), Appended(q, shorter, f), PoppedFrom(q, shorter, f),
                Payloads(before.groups[f].members), StepAppended(before, ops[n], f), StepPopped(before, ops[n], f),
                Payloads(Final(q, ops).groups[f].members));
    }
  }

  lemma FifoChain(a: seq<Bytes>, in0: seq<Bytes>, out0: seq<Bytes>, b: seq<Bytes>, in1: seq<Bytes>, out1: seq<Bytes>,
                  c: seq<Bytes>)
    requires a + in0 == out0 + b && b + in1 == out1 + c
    ensures a + (in0 + in1) == (out0 + out1) + c
  {
    assert a + (in0 + in1) == a + in0 + in1;
    assert out0 + b + in1 == out0 + (b + in1);
    assert out0 + (out1 + c) == out0 + out1 + c;
  }

  lemma SameGroupStays(q: Queue, op: Op, f: u16)
    requires SameGroup(q, op, f)
    ensures f in q.groups && f in Step(q, op).0.groups
  {
  }

  /* ---------------------------- Positions across wraparound --------------------------- */

  /** A pair as the producer counts it, before the numbers wrap. */
  datatype Position = Position(generation: int, sequence: int) {
    predicate Before(other: Position) {
      generation < other.generation || (generation == other.generation && sequence < other.sequence)
    }

    predicate Shows(g: u32, s: u64) { generation % SPAN32 == g && sequence % SPAN64 == s }

    /** Within half the range in what the circular comparison reads. */
    predicate Near(other: Position) {
      && 0 - SPAN32 / 2 <= generation - other.generation < SPAN32 / 2
      && (generation == other.generation ==> 0 - SPAN64 / 2 <= sequence - other.sequence < SPAN64 / 2)
    }
  }

  lemma CloseEqual(a: int, b: int, range: nat)
    requires range > 0 && a % range == b % range && 0 - range < a - b < range
    ensures a == b
  {
    ModDifference(a, b, range);
    WrapSmall(a - b, range);
  }

  lemma NearNumbers(a: int, b: int, range: nat)
    requires range > 0 && range % 2 == 0 && 0 - range / 2 <= a - b < range / 2
    ensures a % range == b % range <==> a == b
    ensures IsNewer(a % range, b % range, range) <==> a > b
  {
    hide IsNewer;
    SerialOrder(a, b, range);
    if a % range == b % range {
      CloseEqual(a, b, range);
    }
  }

  /** Between near positions the comparison of the shown numbers is the comparison of the positions. */
  lemma CompareDecides(a: Position, b: Position, g: u32, s: u64, g': u32, s': u64)
    requires a.Shows(g, s) && b.Shows(g', s') && a.Near(b)
    ensures CompareGroup(g, s, g', s') == if a == b then Same else if b.Before(a) then Newer else Older
  {
    hide IsNewer;
    NearNumbers(a.generation, b.generation, SPAN32);
    if a.generation == b.generation {
      NearNumbers(a.sequence, b.sequence, SPAN64);
    }
  }

  /** The number within half the range of `b` that shows `n`. */
  function Nearest(b: int, n: nat, range: nat): int
    requires range > 0
  {
    var ahead := (n - b) % range;
    if ahead < range / 2 then b + ahead else b + ahead - range
  }

  lemma NearestShows(b: int, n: nat, range: nat)
    requires range > 0 && range % 2 == 0 && n < range
    ensures Nearest(b, n, range) % range == n
    ensures 0 - range / 2 <= Nearest(b, n, range) - b < range / 2
  {
    var ahead := (n - b) % range;
    var k := (n - b) / range;
    WrapSmall(n, range);
    assert b + ahead == n + (0 - k) * range by {
      assert n - b == k * range + ahead;
      assert (0 - k) * range == 0 - k * range;
    }
    ModOfSum(n, 0 - k, range);
    ModOfSum(b + ahead, -1, range);
  }

  /** Every pair of numbers is shown by exactly one position near a given one. */
  lemma OneNearPosition(b: Position, g: u32, s: u64) returns (a: Position)
    ensures a.Shows(g, s) && a.Near(b)
    ensures a.generation != b.generation ==> 0 <= a.sequence < SPAN64
    ensures forall c: Position ::
              c.Shows(g, s) && c.Near(b) && (c.generation != b.generation ==> 0 <= c.sequence < SPAN64) ==> c == a
  {
    NearestShows(b.generation, g, SPAN32);
    NearestShows(b.sequence, s, SPAN64);
    WrapSmall(s, SPAN64);
    var generation := Nearest(b.generation, g, SPAN32);
    a := Position(generation, if generation == b.generation then Nearest(b.sequence, s, SPAN64) else s);
    forall c: Position
      | c.Shows(g, s) && c.Near(b) && (c.generation != b.generation ==> 0 <= c.sequence < SPAN64)
      ensures c == a
    {
      CloseEqual(c.generation, a.generation, SPAN32);
      if c.generation == b.generation {
        CloseEqual(c.sequence, a.sequence, SPAN64);
      } else {
        WrapSmall(c.sequence, SPAN64);
      }
    }
  }

  ghost predicate StaysPending(q: Queue, ops: seq<Op>, f: u16) {
    f in q.groups && forall n :: 0 <= n < |ops| ==> Stays(Final(q, ops[..n]), ops[n], f)
  }

  /** The latest of the start position and the positions of the datagrams considered in the run. */
  ghost function Latest(q: Queue, ops: seq<Op>, f: u16, p: Position, labels: seq<Position>): Position
    requires |labels| == |ops|
  {
    if ops == [] then p
    else
      var n := |ops| - 1;
      var best := Latest(q, ops[..n], f, p, labels[..n]);
      if Considered(Final(q, ops[..n]), ops[n], f) && best.Before(labels[n]) then labels[n] else best
  }

  /**
    The labels are the producer's positions: each considered datagram shows its own, which is
    within half the range of the latest so far.
   */
  ghost predicate Labelled(q: Queue, ops: seq<Op>, f: u16, p: Position, labels: seq<Position>) {
    && |labels| == |ops|
    && forall n :: 0 <= n < |ops| && Considered(Final(q, ops[..n]), ops[n], f) ==>
         && labels[n].Shows(ops[n].d.generation, ops[n].d.sequence)
         && labels[n].Near(Latest(q, ops[..n], f, p, labels[..n]))
  }

  lemma EarlierLabelled(q: Queue, ops: seq<Op>, f: u16, p: Position, labels: seq<Position>)
    requires Labelled(q, ops, f, p, labels) && ops != []
    ensures Labelled(q, ops[..|ops| - 1], f, p, labels[..|ops| - 1])
  {
    hide Latest, Final;
    var m := |ops| - 1;
    forall n | 0 <= n < m && Considered(Final(q, ops[..m][..n]), ops[n], f)
      ensures labels[n].Shows(ops[n].d.generation, ops[n].d.sequence)
      ensures labels[n].Near(Latest(q, ops[..m][..n], f, p, labels[..m][..n]))
    {
      assert ops[..m][..n] == ops[..n] && labels[..m][..n] == labels[..n];
    }
  }

  /** `Latest` is the greatest of these positions. */
  lemma {:induction false} LatestIsMaximum(q: Queue, ops: seq<Op>, f: u16, p: Position, labels: seq<Position>)
    requires |labels| == |ops|
    ensures var best := Latest(q, ops, f, p, labels);
            && !best.Before(p)
            && (forall n :: 0 <= n < |ops| && Considered(Final(q, ops[..n]), ops[n], f) ==> !best.Before(labels[n]))
            && (best == p
                || exists n :: 0 <= n < |ops| && Considered(Final(q, ops[..n]), ops[n], f) && labels[n] == best)
  {
    hide Considered, Final;
    if ops != [] {
      var m := |ops| - 1;
      LatestIsMaximum(q, ops[..m], f, p, labels[..m]);
      var earlier, best := Latest(q, ops[..m], f, p, labels[..m]), Latest(q, ops, f, p, labels);
      forall n | 0 <= n < |ops| && Considered(Final(q, ops[..n]), ops[n], f)
        ensures !best.Before(labels[n])
      {
        if n < m {
          assert ops[..m][..n] == ops[..n];
          assert Considered(Final(q, ops[..m][..n]), ops[..m][n], f);
          assert !earlier.Before(labels[..m][n]);
        }
      }
      if best == earlier && earlier != p {
        var n :| 0 <= n < m && Considered(Final(q, ops[..m][..n]), ops[..m][n], f) && labels[..m][n] == earlier;
        assert ops[..m][..n] == ops[..n];
        assert Considered(Final(q, ops[..n]), ops[n], f) && labels[n] == best;
      }
    }
  }

  lemma EarlierStays(q: Queue, ops: seq<Op>, f: u16)
    requires StaysPending(q, ops, f) && ops != []
    ensures StaysPending(q, ops[..|ops| - 1], f)
    ensures f in Final(q, ops).groups
  {
    hide Step, Stays;
    var shorter := ops[..|ops| - 1];
    forall n | 0 <= n < |shorter|
      ensures Stays(Final(q, shorter[..n]), shorter[n], f)
    {
      assert shorter[..n] == ops[..n];
    }
    FinalStep(q, ops, |ops| - 1);
    assert ops[..|ops|] == ops;
    assert Stays(Final(q, ops[..|ops| - 1]), ops[|ops| - 1], f);
    StaysBoth(Final(q, ops[..|ops| - 1]), ops[|ops| - 1], f);
  }

  lemma StaysBoth(q: Queue, op: Op, f: u16)
    requires Stays(q, op, f)
    ensures f in q.groups && f in Step(q, op).0.groups
  {
  }

  lemma StepHoldsLatest(q: Queue, op: Op, f: u16, best: Position, position: Position)
    requires Inv(q) && Stays(q, op, f) && best.Shows(q.groups[f].generation, q.groups[f].sequence)
    requires Considered(q, op, f) ==> position.Shows(op.d.generation, op.d.sequence) && position.Near(best)
    ensures var after := Step(q, op).0.groups[f];
            (if Considered(q, op, f) && best.Before(position) then position else best)
              .Shows(after.generation, after.sequence)
  {
    hide Inv, Step, CompareGroup, Position.Shows, Position.Near, Considered;
    StaysBoth(q, op, f);
    GroupAdvances(q, op, f);
    var was := q.groups[f];
    if Considered(q, op, f) {
      ConsideredEnqueues(q, op, f);
      CompareDecides(position, best, op.d.generation, op.d.sequence, was.generation, was.sequence);
    }
  }

  lemma ConsideredEnqueues(q: Queue, op: Op, f: u16)
    requires Considered(q, op, f)
    ensures op.Enqueue?
  {
  }

  /**
    Latest only, across wraparound: while a flow stays pending, its group holds the latest of the
    positions submitted for it, however often the numbers wrap, provided each is within half the
    range of the latest before it.
   */
  lemma {:induction false} LatestOnly(q: Queue, ops: seq<Op>, f: u16, p: Position, labels: seq<Position>)
    requires Inv(q) && StaysPending(q, ops, f) && p.Shows(q.groups[f].generation, q.groups[f].sequence)
    requires Labelled(q, ops, f, p, labels)
    ensures Inv(Final(q, ops)) && f in Final(q, ops).groups
    ensures var group, best := Final(q, ops).groups[f], Latest(q, ops, f, p, labels);
            && best.Shows(group.generation, group.sequence)
            && !best.Before(p)
            && (forall n :: 0 <= n < |ops| && Considered(Final(q, ops[..n]), ops[n], f) ==> !best.Before(labels[n]))
            && (best == p
                || exists n :: 0 <= n < |ops| && Considered(Final(q, ops[..n]), ops[n], f) && labels[n] == best)
    decreases |ops|
  {
    hide Inv, Step, Stays, Considered, Balance, Position.Shows, Position.Near, Position.Before;
    if ops != [] {
      var n := |ops| - 1;
      EarlierStays(q, ops, f);
      EarlierLabelled(q, ops, f, p, labels);
      LatestOnly(q, ops[..n], f, p, labels[..n]);
      var before := Final(q, ops[..n]);
      assert Stays(before, ops[n], f);
      StaysBoth(before, ops[n], f);
      if Considered(before, ops[n], f) {
        ConsideredEnqueues(before, ops[n], f);
      }
      StepHoldsLatest(before, ops[n], f, Latest(q, ops[..n], f, p, labels[..n]), labels[n]);
      OneStepInv(before, ops[n]);
    }
    LatestIsMaximum(q, ops, f, p, labels);
  }

  lemma OneStepInv(q: Queue, op: Op)
    requires Inv(q)
    ensures Inv(Step(q, op).0)
  {
    hide Inv, Step, Balance;
    StepKeeps(q, op, Books(Balance(q), 0, 0));
  }
}
