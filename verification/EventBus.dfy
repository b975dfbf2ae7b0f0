/**
  The session event bus (`session.rs`): bounded queues per subscriber in front of an unbounded log.
 */
module EventBusSpec {
  import opened Base

  /**
    What a subscriber takes from the bus. `Gap(n)` is the marker the bus itself inserts for `n`
    dropped events; publishers hand over ordinary events only.
   */
  datatype Delivered<+E> = Event(e: E) | Gap(n: nat)

  datatype Subscriber<+E> = Subscriber(queue: seq<E>, capacity: nat, dropped: u64)

  datatype BusError = InvalidInput | LimitExceeded | Closed

  datatype Bus<+E> = Bus(maxSubscribers: nat, nextId: u64, subscribers: map<u64, Subscriber<E>>)

  function SubscribeError<E>(b: Bus<E>, capacity: nat): Option<BusError> {
    if capacity == 0 then Some(InvalidInput)
    else if |b.subscribers| >= b.maxSubscribers then Some(LimitExceeded)
    else if b.nextId == U64_MAX then Some(Closed)
    else None
  }

  function Subscribed<E>(b: Bus<E>, capacity: nat): Bus<E>
    requires b.nextId < U64_MAX
  {
    b.(nextId := b.nextId + 1, subscribers := b.subscribers[b.nextId := Subscriber([], capacity, 0)])
  }

  /** A full queue loses its oldest event and counts the loss. */
  function Offer<E>(s: Subscriber<E>, e: E): Subscriber<E> {
    if |s.queue| == s.capacity && s.queue != [] then
      s.(queue := s.queue[1..] + [e], dropped := SaturatingAdd64(s.dropped, 1))
    else s.(queue := s.queue + [e])
  }

  function Published<E>(b: Bus<E>, e: E): Bus<E> {
    b.(subscribers := map id | id in b.subscribers :: Offer(b.subscribers[id], e))
  }

  /** The loss is reported before anything that came after it. */
  function Take<E>(s: Subscriber<E>): (Subscriber<E>, Option<Delivered<E>>) {
    if s.dropped > 0 then (s.(dropped := 0), Some(Gap(s.dropped)))
    else if s.queue == [] then (s, None)
    else (s.(queue := s.queue[1..]), Some(Event(s.queue[0])))
  }

  function Next<E>(b: Bus<E>, id: u64): (Bus<E>, Option<Delivered<E>>) {
    if id !in b.subscribers then (b, None)
    else
      var (s, d) := Take(b.subscribers[id]);
      (b.(subscribers := b.subscribers[id := s]), d)
  }

  function Unsubscribed<E>(b: Bus<E>, id: u64): Bus<E> {
    b.(subscribers := b.subscribers - {id})
  }

  /* ------------------------------------ Runs ------------------------------------------ */

  datatype Op<+E> = Subscribe(capacity: nat) | Publish(e: E) | Receive(id: u64) | Unsubscribe(id: u64)

  ghost function Step<E>(b: Bus<E>, op: Op<E>): Bus<E> {
    match op
    case Subscribe(capacity) => if SubscribeError(b, capacity).Some? then b else Subscribed(b, capacity)
    case Publish(e) => Published(b, e)
    case Receive(id) => Next(b, id).0
    case Unsubscribe(id) => Unsubscribed(b, id)
  }

  ghost function Final<E>(maxSubscribers: nat, ops: seq<Op<E>>): Bus<E> {
    if ops == [] then Bus(maxSubscribers, 1, map[])
    else Step(Final(maxSubscribers, ops[..|ops| - 1]), ops[|ops| - 1])
  }

  /** A full queue whose loss counter cannot count another event. */
  predicate AtCeiling<E>(s: Subscriber<E>) {
    |s.queue| == s.capacity > 0 && s.dropped == U64_MAX
  }

  /** The events published to the subscriber at the ceiling of its loss counter since it subscribed. */
  ghost function Uncounted<E>(maxSubscribers: nat, ops: seq<Op<E>>, id: u64): nat {
    if ops == [] then 0
    else
      var n := |ops| - 1;
      var before, lost := Final(maxSubscribers, ops[..n]), Uncounted(maxSubscribers, ops[..n], id);
      match ops[n]
      case Subscribe(capacity) => if SubscribeError(before, capacity).None? && id == before.nextId then 0 else lost
      case Publish(_) => lost + (if id in before.subscribers && AtCeiling(before.subscribers[id]) then 1 else 0)
      case Receive(_) => lost
      case Unsubscribe(_) => lost
  }

  /** Everything published, and everything the subscriber was given, since it subscribed. */
  datatype Log<+E> = Log(published: seq<E>, delivered: seq<Delivered<E>>)

  ghost function LogAfter<E>(log: Log<E>, b: Bus<E>, op: Op<E>, id: u64): Log<E> {
    match op
    case Subscribe(capacity) => if SubscribeError(b, capacity).None? && id == b.nextId then Log([], []) else log
    case Publish(e) => log.(published := log.published + [e])
    case Receive(other) =>
      if other == id && Next(b, id).1.Some? then log.(delivered := log.delivered + [Next(b, id).1.value]) else log
    case Unsubscribe(_) => log
  }

  ghost function FinalLog<E>(maxSubscribers: nat, ops: seq<Op<E>>, id: u64): Log<E> {
    if ops == [] then Log([], [])
    else
      var n := |ops| - 1;
      LogAfter(FinalLog(maxSubscribers, ops[..n], id), Final(maxSubscribers, ops[..n]), ops[n], id)
  }

  /** How far into the log the delivered items lead, reading each gap as that many events. */
  ghost function Replay<E>(delivered: seq<Delivered<E>>, published: seq<E>): Option<nat> {
    if delivered == [] then Some(0)
    else
      var c := Replay(delivered[..|delivered| - 1], published);
      var d := delivered[|delivered| - 1];
      if c.None? then None
      else if d.Gap? then if d.n > 0 && c.value + d.n <= |published| then Some(c.value + d.n) else None
      else if c.value < |published| && published[c.value] == d.e then Some(c.value + 1)
      else None
  }

  lemma {:induction false} ReplayExtends<E>(delivered: seq<Delivered<E>>, published: seq<E>, e: E)
    requires Replay(delivered, published).Some?
    ensures Replay(delivered, published + [e]) == Replay(delivered, published)
    ensures Replay(delivered, published).value <= |published|
  {
    if delivered != [] {
      ReplayExtends(delivered[..|delivered| - 1], published, e);
    }
  }

  lemma ReplayNext<E>(delivered: seq<Delivered<E>>, d: Delivered<E>, published: seq<E>)
    ensures var c := Replay(delivered, published);
            Replay(delivered + [d], published) ==
              if c.None? then None
              else if d.Gap? then if d.n > 0 && c.value + d.n <= |published| then Some(c.value + d.n) else None
              else if c.value < |published| && published[c.value] == d.e then Some(c.value + 1)
              else None
  {
    assert (delivered + [d])[..|delivered|] == delivered;
  }

  /**
    What was delivered leads to a point of the log; the pending loss and then the queue are
    exactly what follows. A loss is pending only while the queue is full.
   */
  ghost predicate Accounts<E>(s: Subscriber<E>, log: Log<E>) {
    && s.capacity > 0 && |s.queue| <= s.capacity
    && (s.dropped > 0 ==> |s.queue| == s.capacity)
    && var c := Replay(log.delivered, log.published);
       && c.Some? && c.value + s.dropped + |s.queue| == |log.published|
       && s.queue == log.published[c.value + s.dropped..]
  }

  lemma TailShifts<E>(queue: seq<E>, published: seq<E>, from: nat, e: E)
    requires from <= |published| && queue == published[from..]
    ensures queue + [e] == (published + [e])[from..]
    ensures queue != [] ==> queue[1..] + [e] == (published + [e])[from + 1..]
  {
  }

  lemma CountedLossAccounts<E>(s: Subscriber<E>, log: Log<E>, e: E)
    requires Accounts(s, log) && s.dropped < U64_MAX
    ensures Accounts(Offer(s, e), log.(published := log.published + [e]))
  {
    hide Replay;
    ReplayExtends(log.delivered, log.published, e);
    TailShifts(s.queue, log.published, Replay(log.delivered, log.published).value + s.dropped, e);
  }

  ghost function Outstanding<E>(s: Subscriber<E>): nat { s.dropped + |s.queue| }

  /** With the counter at its ceiling one more event makes the accounts fall short by exactly that event. */
  lemma SaturatedLossIsLost<E>(s: Subscriber<E>, log: Log<E>, e: E)
    requires Accounts(s, log) && s.dropped == U64_MAX
    ensures !Accounts(Offer(s, e), log.(published := log.published + [e]))
    ensures Outstanding(Offer(s, e)) == Outstanding(s)
  {
    ReplayExtends(log.delivered, log.published, e);
  }

  /** Publishing keeps the account exactly while the loss counter is below its ceiling, however long the log. */
  lemma PublishAccounts<E>(s: Subscriber<E>, log: Log<E>, e: E)
    requires Accounts(s, log)
    ensures Accounts(Offer(s, e), log.(published := log.published + [e])) <==> s.dropped < U64_MAX
  {
    hide Accounts;
    if s.dropped < U64_MAX {
      CountedLossAccounts(s, log, e);
    } else {
      SaturatedLossIsLost(s, log, e);
    }
  }

  lemma TakeAccounts<E>(s: Subscriber<E>, log: Log<E>)
    requires Accounts(s, log) && Take(s).1.Some?
    ensures Accounts(Take(s).0, log.(delivered := log.delivered + [Take(s).1.value]))
  {
    ReplayNext(log.delivered, Take(s).1.value, log.published);
  }

  lemma SubscribedAccounts<E>(capacity: nat)
    requires capacity > 0
    ensures Accounts<E>(Subscriber([], capacity, 0), Log([], []))
    ensures Bounded<E>(Subscriber([], capacity, 0)) && Reach<E>([]) == 0
  {
  }

  lemma NothingTaken<E>(s: Subscriber<E>)
    requires Take(s).1.None?
    ensures Take(s).0 == s
  {
  }

  lemma {:induction false} IdsBelowNext<E>(maxSubscribers: nat, ops: seq<Op<E>>)
    ensures forall id :: id in Final(maxSubscribers, ops).subscribers ==> id < Final(maxSubscribers, ops).nextId
  {
    if ops != [] {
      IdsBelowNext(maxSubscribers, ops[..|ops| - 1]);
    }
  }

  /* -------------------------------- Every event is counted ----------------------------- */

  /** The number of events the delivered items stand for. */
  function Reach<E>(delivered: seq<Delivered<E>>): nat {
    if delivered == [] then 0
    else
      var d := delivered[|delivered| - 1];
      Reach(delivered[..|delivered| - 1]) + (if d.Gap? then d.n else 1)
  }

  /** A queue is within its capacity, and a loss is pending only while it is full. */
  ghost predicate Bounded<E>(s: Subscriber<E>) {
    s.capacity > 0 && |s.queue| <= s.capacity && (s.dropped > 0 ==> |s.queue| == s.capacity)
  }

  lemma {:induction false} ReplayReaches<E>(delivered: seq<Delivered<E>>, published: seq<E>)
    requires Replay(delivered, published).Some?
    ensures Replay(delivered, published).value == Reach(delivered)
  {
    if delivered != [] {
      ReplayReaches(delivered[..|delivered| - 1], published);
    }
  }

  lemma OfferCounts<E>(s: Subscriber<E>, e: E)
    requires Bounded(s)
    ensures Bounded(Offer(s, e))
    ensures Outstanding(Offer(s, e)) + (if AtCeiling(s) then 1 else 0) == Outstanding(s) + 1
  {
  }

  lemma TakeCounts<E>(s: Subscriber<E>, delivered: seq<Delivered<E>>)
    requires Bounded(s) && Take(s).1.Some?
    ensures Bounded(Take(s).0)
    ensures Reach(delivered + [Take(s).1.value]) + Outstanding(Take(s).0) == Reach(delivered) + Outstanding(s)
  {
    assert (delivered + [Take(s).1.value])[..|delivered|] == delivered;
  }

  /**
    Every event published to a subscriber, in every run, was delivered, stood in a delivered gap,
    is in the pending loss, is queued, or met the ceiling of the loss counter.
   */
  lemma {:induction false} EveryEventCounted<E>(maxSubscribers: nat, ops: seq<Op<E>>, id: u64)
    requires id in Final(maxSubscribers, ops).subscribers
    ensures Bounded(Final(maxSubscribers, ops).subscribers[id])
    ensures var log := FinalLog(maxSubscribers, ops, id);
            Reach(log.delivered) + Outstanding(Final(maxSubscribers, ops).subscribers[id])
              + Uncounted(maxSubscribers, ops, id) == |log.published|
    decreases |ops|
  {
    hide Bounded, Offer, Take, Reach, AtCeiling;
    var n := |ops| - 1;
    var before, op := Final(maxSubscribers, ops[..n]), ops[n];
    if op.Subscribe? && SubscribeError(before, op.capacity).None? && id == before.nextId {
      SubscribedAccounts<E>(op.capacity);
    } else {
      EveryEventCounted(maxSubscribers, ops[..n], id);
      if op.Publish? {
        OfferCounts(before.subscribers[id], op.e);
      } else if op.Receive? && op.id == id {
        if Take(before.subscribers[id]).1.Some? {
          TakeCounts(before.subscribers[id], FinalLog(maxSubscribers, ops[..n], id).delivered);
        } else {
          NothingTaken(before.subscribers[id]);
        }
      }
    }
  }

  /* ------------------------------------ Refinement ------------------------------------- */

  lemma {:induction false} CountedAccounts<E>(maxSubscribers: nat, ops: seq<Op<E>>, id: u64)
    requires id in Final(maxSubscribers, ops).subscribers && Uncounted(maxSubscribers, ops, id) == 0
    ensures Accounts(Final(maxSubscribers, ops).subscribers[id], FinalLog(maxSubscribers, ops, id))
    decreases |ops|
  {
    hide Accounts, Offer, Take, AtCeiling;
    var n := |ops| - 1;
    var before, op := Final(maxSubscribers, ops[..n]), ops[n];
    var log := FinalLog(maxSubscribers, ops[..n], id);
    if op.Subscribe? && SubscribeError(before, op.capacity).None? && id == before.nextId {
      SubscribedAccounts<E>(op.capacity);
    } else {
      CountedAccounts(maxSubscribers, ops[..n], id);
      if op.Publish? {
        BelowCeiling(before.subscribers[id], log);
        PublishAccounts(before.subscribers[id], log, op.e);
      } else if op.Receive? && op.id == id {
        if Take(before.subscribers[id]).1.Some? {
          TakeAccounts(before.subscribers[id], log);
        } else {
          NothingTaken(before.subscribers[id]);
        }
      }
    }
  }

  lemma BelowCeiling<E>(s: Subscriber<E>, log: Log<E>)
    requires Accounts(s, log)
    ensures AtCeiling(s) <==> s.dropped == U64_MAX
  {
  }

  /**
    The bus refines an unbounded log. For a subscriber of any run, reading each gap as that many
    events makes what it received a prefix of everything published since it subscribed, with its
    pending loss and queue exactly the rest, if and only if no event met the ceiling of the 64-bit
    loss counter.
   */
  lemma BusRefinesLog<E>(maxSubscribers: nat, ops: seq<Op<E>>, id: u64)
    requires id in Final(maxSubscribers, ops).subscribers
    ensures Accounts(Final(maxSubscribers, ops).subscribers[id], FinalLog(maxSubscribers, ops, id))
            <==> Uncounted(maxSubscribers, ops, id) == 0
  {
    hide Final, FinalLog, Uncounted, Replay, Reach;
    EveryEventCounted(maxSubscribers, ops, id);
    var log := FinalLog(maxSubscribers, ops, id);
    if Uncounted(maxSubscribers, ops, id) == 0 {
      CountedAccounts(maxSubscribers, ops, id);
    } else if Replay(log.delivered, log.published).Some? {
      ReplayReaches(log.delivered, log.published);
    }
  }

  lemma IdsOnlyGrow<E>(b: Bus<E>, op: Op<E>)
    ensures b.nextId <= Step(b, op).nextId
  {
  }

  lemma {:induction false} UncountedGrows<E>(maxSubscribers: nat, ops: seq<Op<E>>, id: u64, n: nat)
    requires n <= |ops| && id in Final(maxSubscribers, ops[..n]).subscribers
    ensures id < Final(maxSubscribers, ops).nextId
    ensures Uncounted(maxSubscribers, ops[..n], id) <= Uncounted(maxSubscribers, ops, id)
    decreases |ops|
  {
    hide Offer, Next, AtCeiling, Published, Unsubscribed, Step;
    if n == |ops| {
      assert ops[..n] == ops;
      IdsBelowNext(maxSubscribers, ops);
    } else {
      var m := |ops| - 1;
      assert ops[..m][..n] == ops[..n];
      IdsOnlyGrow(Final(maxSubscribers, ops[..m]), ops[m]);
      UncountedGrows(maxSubscribers, ops[..m], id, n);
    }
  }

  /** An account that has fallen short never recovers while the subscription lasts. */
  lemma ShortForever<E>(maxSubscribers: nat, ops: seq<Op<E>>, id: u64, n: nat)
    requires n <= |ops| && id in Final(maxSubscribers, ops[..n]).subscribers
    requires id in Final(maxSubscribers, ops).subscribers
    requires !Accounts(Final(maxSubscribers, ops[..n]).subscribers[id], FinalLog(maxSubscribers, ops[..n], id))
    ensures !Accounts(Final(maxSubscribers, ops).subscribers[id], FinalLog(maxSubscribers, ops, id))
  {
    hide Accounts, Final, FinalLog, Uncounted;
    BusRefinesLog(maxSubscribers, ops[..n], id);
    BusRefinesLog(maxSubscribers, ops, id);
    UncountedGrows(maxSubscribers, ops, id, n);
  }

  /* ------------------------------- Single calls ---------------------------------------- */

  /**
    A subscription is refused for a zero capacity, for lack of room or for lack of ids, in this
    order; otherwise the next id starts with an empty queue. Unsubscribing removes that id alone.
   */
  lemma SubscriptionVerdict<E>(b: Bus<E>, capacity: nat, id: u64)
    ensures var after := Step(b, Subscribe(capacity));
            if capacity == 0 then SubscribeError(b, capacity) == Some(InvalidInput) && after == b
            else if |b.subscribers| >= b.maxSubscribers then
              SubscribeError(b, capacity) == Some(LimitExceeded) && after == b
            else if b.nextId == 0xFFFF_FFFF_FFFF_FFFF then SubscribeError(b, capacity) == Some(Closed) && after == b
            else
              && SubscribeError(b, capacity) == None
              && after == Bus(b.maxSubscribers, b.nextId + 1, b.subscribers[b.nextId := Subscriber([], capacity, 0)])
    ensures var after := Step(b, Unsubscribe(id));
            && id !in after.subscribers && after.nextId == b.nextId
            && forall other :: other != id ==>
                 && (other in after.subscribers <==> other in b.subscribers)
                 && (other in after.subscribers ==> after.subscribers[other] == b.subscribers[other])
  {
  }

  /** Publishing reaches every subscriber; taking and publishing leave the others' queues alone. */
  lemma OthersUntouched<E>(b: Bus<E>, e: E, id: u64, other: u64)
    ensures Step(b, Publish(e)).subscribers.Keys == b.subscribers.Keys == Step(b, Receive(id)).subscribers.Keys
    ensures other in b.subscribers && other != id ==>
              Step(b, Receive(id)).subscribers[other] == b.subscribers[other]
    ensures other in b.subscribers ==>
              var s, after := b.subscribers[other], Step(b, Publish(e)).subscribers[other];
              && after.capacity == s.capacity && after.queue != [] && after.queue[|after.queue| - 1] == e
              && (|s.queue| < s.capacity ==> after.queue == s.queue + [e] && after.dropped == s.dropped)
  {
  }

  /** What a subscriber gets by taking until there is nothing left. */
  function TakeAll<E>(s: Subscriber<E>): seq<Delivered<E>>
    decreases |s.queue| + (if s.dropped > 0 then 1 else 0)
  {
    var (after, d) := Take(s);
    if d.None? then [] else [d.value] + TakeAll(after)
  }

  function Events<E>(queue: seq<E>): (r: seq<Delivered<E>>)
    ensures |r| == |queue| && forall k :: 0 <= k < |r| ==> r[k] == Event(queue[k])
  {
    seq(|queue|, k requires 0 <= k < |queue| => Event(queue[k]))
  }

  /** Everything outstanding is there to be taken: the pending loss, then every queued event in order. */
  lemma {:induction false} TakingDrains<E>(s: Subscriber<E>)
    ensures TakeAll(s) == (if s.dropped > 0 then [Gap(s.dropped)] else []) + Events(s.queue)
    decreases |s.queue| + (if s.dropped > 0 then 1 else 0)
  {
    if s.dropped > 0 {
      TakingDrains(s.(dropped := 0));
    } else if s.queue != [] {
      TakingDrains(s.(queue := s.queue[1..]));
      assert Events(s.queue) == [Delivered<E>.Event(s.queue[0])] + Events(s.queue[1..]);
    }
  }

  /* ------------------------------- A run that falls short ------------------------------ */

  /** One subscriber with room for one event, which never reads, and `n` events. */
  function Silent<E>(e: E, n: nat): seq<Op<E>> {
    if n == 0 then [Subscribe(1)] else Silent(e, n - 1) + [Publish(e)]
  }

  function SilentState<E>(e: E, n: nat): Subscriber<E> {
    if n == 0 then Subscriber([], 1, 0) else Subscriber([e], 1, Min(n - 1, U64_MAX))
  }

  lemma SilentNext<E>(e: E, n: nat)
    ensures Published(Bus(1, 2, map[1 := SilentState(e, n)]), e) == Bus(1, 2, map[1 := SilentState(e, n + 1)])
    ensures AtCeiling(SilentState(e, n)) <==> n > U64_MAX
  {
    var b := Bus(1, 2, map[1 := SilentState(e, n)]);
    assert Offer(SilentState(e, n), e) == SilentState(e, n + 1);
    assert Published(b, e).subscribers == map[1 := SilentState(e, n + 1)];
  }

  lemma RunNext<E>(maxSubscribers: nat, ops: seq<Op<E>>, e: E, id: u64)
    ensures Final(maxSubscribers, ops + [Publish(e)]) == Published(Final(maxSubscribers, ops), e)
    ensures var b := Final(maxSubscribers, ops);
            Uncounted(maxSubscribers, ops + [Publish(e)], id) == Uncounted(maxSubscribers, ops, id)
              + (if id in b.subscribers && AtCeiling(b.subscribers[id]) then 1 else 0)
  {
    assert (ops + [Publish(e)])[..|ops|] == ops;
  }

  lemma SilentStart<E>()
    ensures Final<E>(1, [Subscribe(1)]) == Bus(1, 2, map[1 := Subscriber([], 1, 0)])
    ensures Uncounted<E>(1, [Subscribe(1)], 1) == 0
  {
    var ops: seq<Op<E>> := [Subscribe(1)];
    assert ops[..0] == [];
  }

  lemma {:induction false} SilentRun<E>(e: E, n: nat)
    ensures Final(1, Silent(e, n)) == Bus(1, 2, map[1 := SilentState(e, n)])
    ensures Uncounted(1, Silent(e, n), 1) == Max(n - 1 - U64_MAX, 0)
  {
    hide Final, Uncounted, Published, AtCeiling;
    if n == 0 {
      SilentStart<E>();
    } else {
      SilentRun(e, n - 1);
      SilentNext(e, n - 1);
      RunNext(1, Silent(e, n - 1), e, 1);
    }
  }

  /** The account of a subscriber that never reads holds through event 2^64 and falls short from the next one on. */
  lemma SilentSubscriber<E>(e: E, n: nat)
    ensures 1 in Final(1, Silent(e, n)).subscribers
    ensures Accounts(Final(1, Silent(e, n)).subscribers[1], FinalLog(1, Silent(e, n), 1)) <==> n <= U64_MAX + 1
    ensures Uncounted(1, Silent(e, n), 1) == Max(n - 1 - U64_MAX, 0)
  {
    hide Accounts, Final, FinalLog, Uncounted;
    SilentRun(e, n);
    BusRefinesLog(1, Silent(e, n), 1);
  }
}

/** The bus as the imperative code keeps it. */
module EventBus {
  import opened Base
  import opened EventBusSpec

  class SessionEventBus<E> {
    const maxSubscribers: nat
    var nextId: u64
    var subscribers: map<u64, Subscriber<E>>

    ghost function Model(): Bus<E>
      reads this
    {
      Bus(maxSubscribers, nextId, subscribers)
    }

    constructor (maxSubscribers: nat)
      requires maxSubscribers > 0
      ensures Model() == Bus(maxSubscribers, 1, map[])
    {
      this.maxSubscribers, nextId, subscribers := maxSubscribers, 1, map[];
    }

    static method New(maxSubscribers: nat) returns (r: Result<SessionEventBus<E>, BusError>)
      ensures r.Ok? <==> maxSubscribers > 0
      ensures r.Err? ==> r.error == InvalidInput
      ensures r.Ok? ==> fresh(r.value) && r.value.Model() == Bus(maxSubscribers, 1, map[])
    {
      if maxSubscribers == 0 {
        return Err(InvalidInput);
      }
      var bus := new SessionEventBus<E>(maxSubscribers);
      return Ok(bus);
    }

    method Subscribe(capacity: nat) returns (r: Result<u64, BusError>)
      modifies this
      ensures r == match SubscribeError(old(Model()), capacity)
                   case Some(error) => Err(error)
                   case None => Ok(old(nextId))
      ensures Model() == if r.Ok? then Subscribed(old(Model()), capacity) else old(Model())
    {
      if capacity == 0 {
        return Err(InvalidInput);
      }
      if |subscribers| >= maxSubscribers {
        return Err(LimitExceeded);
      }
      var id := nextId;
      if nextId == U64_MAX {
        return Err(Closed);
      }
      nextId := nextId + 1;
      subscribers := subscribers[id := Subscriber([], capacity, 0)];
      return Ok(id);
    }

    /** Offers the event to every subscriber, one after the other; none of them can refuse. */
    method Publish(event: E)
      modifies this`subscribers
      ensures Model() == Published(old(Model()), event)
    {
      var todo := subscribers.Keys;
      while todo != {}
        invariant subscribers.Keys == old(subscribers).Keys && todo <= subscribers.Keys
        invariant forall id :: id in subscribers ==>
                    subscribers[id] == if id in todo then old(subscribers)[id] else Offer(old(subscribers)[id], event)
        decreases |todo|
      {
        var id :| id in todo;
        var s := subscribers[id];
        if |s.queue| == s.capacity && s.queue != [] {
          s := s.(queue := s.queue[1..], dropped := SaturatingAdd64(s.dropped, 1));
        }
        s := s.(queue := s.queue + [event]);
        subscribers := subscribers[id := s];
        todo := todo - {id};
      }
    }

    method Next(id: u64) returns (d: Option<Delivered<E>>)
      modifies this`subscribers
      ensures (Model(), d) == EventBusSpec.Next(old(Model()), id)
    {
      if id !in subscribers {
        return None;
      }
      var s := subscribers[id];
      if s.dropped > 0 {
        subscribers := subscribers[id := s.(dropped := 0)];
        return Some(Gap(s.dropped));
      }
      if s.queue == [] {
        assert subscribers[id := s] == subscribers;
        return None;
      }
      subscribers := subscribers[id := s.(queue := s.queue[1..])];
      return Some(Event(s.queue[0]));
    }

    method Unsubscribe(id: u64) returns (removed: bool)
      modifies this`subscribers
      ensures Model() == Unsubscribed(old(Model()), id) && removed == (id in old(subscribers))
    {
      removed := id in subscribers;
      subscribers := subscribers - {id};
    }
  }
}
