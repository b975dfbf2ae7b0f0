/** What every call of the realtime queue answers and leaves, read off the live groups alone. */
module RealtimeDecisions {
  import opened Base
  import opened Sums
  import opened RealtimeSpec
  import opened RealtimeInvariant
  import RealtimeRun

  /* ------------------------------ Reference definitions -------------------------- */

  /** The groups whose deadline is still ahead. */
  ghost function Live(q: Queue, now: nat): map<u16, Group> {
    map f | f in q.groups && now < q.groups[f].deadline :: q.groups[f]
  }

  ghost predicate Advanced(a: nat, b: nat, k: nat, range: nat)
    requires range > 0
  {
    a == (b + k) % range
  }

  /** `a` is reached from `b` by counting up at least once and by less than half the range. */
  ghost predicate Ahead(a: nat, b: nat, range: nat)
    requires range > 0
  {
    exists k: nat :: 0 < k && 2 * k < range && Advanced(a, b, k, range)
  }

  predicate SamePair(d: Datagram, group: Group) {
    d.generation == group.generation && d.sequence == group.sequence
  }

  /** A later generation, or a later sequence number of the same one. */
  ghost predicate Later(d: Datagram, group: Group) {
    if d.generation == group.generation then Ahead(d.sequence, group.sequence, 0x1_0000_0000_0000_0000)
    else Ahead(d.generation, group.generation, 0x1_0000_0000)
  }

  /** Urgency first, then age, then the smaller flow. */
  ghost predicate ServedBefore(groups: map<u16, Group>, f: u16, g: u16)
    requires f in groups && g in groups
  {
    || groups[f].priority < groups[g].priority
    || (groups[f].priority == groups[g].priority && groups[f].insertionOrder < groups[g].insertionOrder)
    || (groups[f].priority == groups[g].priority && groups[f].insertionOrder == groups[g].insertionOrder && f < g)
  }

  /** The group that gives way: least urgent, of those the oldest, of equals the last flow. */
  ghost predicate GivesWay(groups: map<u16, Group>, v: u16) {
    && v in groups
    && forall g :: g in groups && g != v ==>
         || groups[g].priority < groups[v].priority
         || (groups[g].priority == groups[v].priority && groups[g].insertionOrder > groups[v].insertionOrder)
         || (groups[g].priority == groups[v].priority && groups[g].insertionOrder == groups[v].insertionOrder && g < v)
  }

  ghost predicate SomeLessUrgent(groups: map<u16, Group>, priority: Priority) {
    exists g :: g in groups && groups[g].priority > priority
  }

  ghost function Started(d: Datagram, order: u64): Group {
    Group(d.generation, d.sequence, d.deadline, d.priority, [d], |d.payload|, order)
  }

  ghost function Grown(group: Group, d: Datagram): Group {
    group.(deadline := if d.deadline < group.deadline then d.deadline else group.deadline,
           priority := if d.priority < group.priority then d.priority else group.priority,
           members := group.members + [d], payloadBytes := group.payloadBytes + |d.payload|)
  }

  /** The answer and the groups left when the flow already has a live group. */
  ghost predicate DecidedWithin(limits: Config, order: u64, d: Datagram, live: map<u16, Group>,
                                after: map<u16, Group>, r: Result<SendOutcome, SendError>)
    requires d.flow in live
  {
    var held := live[d.flow];
    var bytes := held.payloadBytes + |d.payload|;
    if SamePair(d, held) then
      if bytes >= 0x1_0000_0000_0000_0000 then r == Err(SizeOverflow) && after == live
      else if |held.members| < limits.maxDatagramsPerGroup && bytes <= limits.maxGroupBytes then
        r == Ok(Enqueued) && after == live[d.flow := Grown(held, d)]
      else r == Ok(DroppedCongested) && after == live - {d.flow}
    else if Later(d, held) then r == Ok(ReplacedOlder) && after == live[d.flow := Started(d, order)]
    else r == Ok(DroppedCongested) && after == live
  }

  /** The answer and the groups left when the flow has none: room, a group that gives way, or neither. */
  ghost predicate DecidedAnew(limits: Config, order: u64, d: Datagram, live: map<u16, Group>,
                              after: map<u16, Group>, r: Result<SendOutcome, SendError>)
  {
    if |live| < limits.maxFlows then r == Ok(Enqueued) && after == live[d.flow := Started(d, order)]
    else if SomeLessUrgent(live, d.priority) then
      && r == Ok(Enqueued)
      && exists v: u16 :: GivesWay(live, v) && after == (live - {v})[d.flow := Started(d, order)]
    else r == Ok(DroppedCongested) && after == live
  }

  ghost predicate Decided(q: Queue, d: Datagram, now: nat, after: map<u16, Group>, r: Result<SendOutcome, SendError>) {
    var live := Live(q, now);
    if |d.payload| > q.maxPayload then r == Err(MessageTooLarge) && after == live
    else if d.deadline <= now then r == Ok(DroppedExpired) && after == live
    else if d.flow in live then DecidedWithin(q.config, q.nextOrder, d, live, after, r)
    else DecidedAnew(q.config, q.nextOrder, d, live, after, r)
  }

  /* ---------------------------------- Expiry ------------------------------------- */

  lemma ExpireLeavesLive(q: Queue, now: nat)
    ensures Expire(q, now).groups == Live(q, now)
    ensures Expire(q, now) == q.(groups := Live(q, now), ledger := Expire(q, now).ledger)
  {
    hide Sum, Lens, Plus, Dropped, Get;
  }

  lemma Wraps(a: int, range: nat)
    requires range > 0 && 0 - range < a < 2 * range
    ensures a % range == if a < 0 then a + range else if a < range then a else a - range
  {
    if a < range {
      RealtimeRun.WrapSmall(a, range);
    } else {
      RealtimeRun.ModOfSum(a - range, 1, range);
      RealtimeRun.WrapSmall(a - range, range);
    }
  }

  lemma AdvancedBy(a: nat, b: nat, k: nat, range: nat)
    requires 0 < k < range && a < range && b < range
    ensures Advanced(a, b, k, range) <==> (a - b) % range == k
  {
    Wraps(a - b, range);
    Wraps(b + k, range);
  }

  lemma NewerIsAhead(a: nat, b: nat, range: nat)
    requires range > 0 && range % 2 == 0 && a < range && b < range
    ensures IsNewer(a, b, range) <==> Ahead(a, b, range)
  {
    hide Advanced;
    var k := (a - b) % range;
    if IsNewer(a, b, range) {
      AdvancedBy(a, b, k, range);
      assert 0 < k && 2 * k < range && Advanced(a, b, k, range);
    } else if Ahead(a, b, range) {
      var n: nat :| 0 < n && 2 * n < range && Advanced(a, b, n, range);
      AdvancedBy(a, b, n, range);
    }
  }

  /** The circular comparison of two pairs. */
  lemma CompareIsLater(d: Datagram, group: Group)
    ensures CompareGroup(d.generation, d.sequence, group.generation, group.sequence)
         == if SamePair(d, group) then Same else if Later(d, group) then Newer else Older
  {
    hide IsNewer, Ahead;
    NewerIsAhead(d.generation, group.generation, 0x1_0000_0000);
    NewerIsAhead(d.sequence, group.sequence, 0x1_0000_0000_0000_0000);
  }

  /* ---------------------------------- Choosing ----------------------------------- */

  lemma VictimGivesWay(q: Queue, incoming: Priority)
    ensures Least(VictimRanks(q, incoming)).Some? <==> SomeLessUrgent(q.groups, incoming)
    ensures Least(VictimRanks(q, incoming)).Some? ==> GivesWay(q.groups, Least(VictimRanks(q, incoming)).value)
  {
    hide Least;
    if g :| g in q.groups && q.groups[g].priority > incoming {
      VictimChosen(q, incoming, g);
      var v := Least(VictimRanks(q, incoming)).value;
      forall f | f in q.groups && f != v && q.groups[f].priority > incoming
        ensures VictimRank(q.groups[v], v).Less(VictimRank(q.groups[f], f))
      {
        assert f in VictimRanks(q, incoming);
      }
    } else if Least(VictimRanks(q, incoming)).Some? {
      VictimPending(q, incoming);
      assert false;
    }
  }

  /* ---------------------------------- Enqueue ------------------------------------ */

  lemma DropsOne(q: Queue, f: u16, reason: Reason)
    ensures DropFlow(q, f, reason).groups == q.groups - {f}
    ensures DropFlow(q, f, reason) == q.(groups := q.groups - {f}, ledger := DropFlow(q, f, reason).ledger)
  {
    hide Note, Dropped;
    if f !in q.groups {
      assert q.groups - {f} == q.groups;
    }
  }

  lemma InsertStarts(q: Queue, d: Datagram)
    ensures Insert(q, d).groups == q.groups[d.flow := Started(d, q.nextOrder)]
  {
    hide Note, Dropped, DropFlow;
    DropsOne(q, d.flow, Replaced);
  }

  lemma AppendDecides(q: Queue, d: Datagram)
    requires d.flow in q.groups && SamePair(d, q.groups[d.flow])
    ensures var (after, r) := Append(q, d);
            DecidedWithin(q.config, q.nextOrder, d, q.groups, after.groups, r)
  {
    hide Note, Dropped, Later;
  }

  lemma WithinDecides(q: Queue, d: Datagram, now: nat)
    requires d.flow in q.groups && q.groups[d.flow].members != [] && d.deadline > now && |d.payload| <= q.maxPayload
    ensures var (after, r) := Admit(q, d, now);
            DecidedWithin(q.config, q.nextOrder, d, q.groups, after.groups, r)
  {
    hide Insert, Append, Note, CompareGroup, Later, Started, Grown;
    CompareIsLater(d, q.groups[d.flow]);
    InsertStarts(q, d);
    if SamePair(d, q.groups[d.flow]) {
      AppendDecides(q, d);
    }
  }

  lemma AnewDecides(q: Queue, d: Datagram, now: nat)
    requires d.flow !in q.groups && d.deadline > now && |d.payload| <= q.maxPayload
    ensures var (after, r) := Admit(q, d, now);
            DecidedAnew(q.config, q.nextOrder, d, q.groups, after.groups, r)
  {
    hide Insert, DropFlow, Least, VictimRanks, Note, SomeLessUrgent, GivesWay, Started;
    VictimGivesWay(q, d.priority);
    InsertStarts(q, d);
    if Least(VictimRanks(q, d.priority)).Some? {
      var victim := Least(VictimRanks(q, d.priority)).value;
      DropsOne(q, victim, Congested);
      InsertStarts(DropFlow(q, victim, Congested), d);
    }
  }

  /** The decision table of `enqueue`, over the live groups. */
  lemma EnqueueDecides(q: Queue, d: Datagram, now: nat)
    requires Inv(q)
    ensures var (after, r) := Enqueue(q, d, now); Decided(q, d, now, after.groups, r)
  {
    hide Inv, Expire, DecidedWithin, DecidedAnew, Balance;
    ExpireKeeps(q, now);
    ExpireLeavesLive(q, now);
    var live := Expire(q, now);
    if |d.payload| <= q.maxPayload && d.deadline > now {
      if d.flow in live.groups {
        RealtimeRun.NoEmptyGroup(live, d.flow);
        WithinDecides(live, d, now);
      } else {
        AnewDecides(live, d, now);
      }
    }
  }

  /**
    A new flow on a queue that is full of live groups is let in exactly when a less urgent group is
    pending. Then one group is gone: no other is less urgent, and none as urgent is older.
    Otherwise every live group stays.
   */
  lemma EvictsExactly(q: Queue, d: Datagram, now: nat)
    requires Inv(q) && |d.payload| <= q.maxPayload && d.deadline > now
    requires d.flow !in Live(q, now) && |Live(q, now)| >= q.config.maxFlows
    ensures var live := Live(q, now);
            var (after, r) := Enqueue(q, d, now);
            && r in {Ok(Enqueued), Ok(DroppedCongested)}
            && (r == Ok(Enqueued) <==> exists g :: g in live && live[g].priority > d.priority)
            && (r == Ok(DroppedCongested) ==> after.groups == live)
            && (r == Ok(Enqueued) ==>
                  && d.flow in after.groups && after.groups[d.flow].members == [d]
                  && exists v :: GivesWay(live, v) && live[v].priority > d.priority
                                 && after.groups.Keys == live.Keys - {v} + {d.flow}
                                 && forall f :: f in live && f != v ==> after.groups[f] == live[f])
  {
    hide Inv, Enqueue, DecidedWithin;
    EnqueueDecides(q, d, now);
    var live := Live(q, now);
    var (after, r) := Enqueue(q, d, now);
    if r == Ok(Enqueued) {
      var v :| GivesWay(live, v) && after.groups == (live - {v})[d.flow := Started(d, q.nextOrder)];
      assert live[v].priority > d.priority by {
        var g :| g in live && live[g].priority > d.priority;
      }
      assert after.groups.Keys == live.Keys - {v} + {d.flow};
    }
  }

  /* ----------------------------------- Serving ----------------------------------- */

  /** `d` is the head of its group, under the group's pair, deadline and priority, and leaves it. */
  ghost predicate HeadLeaves(live: map<u16, Group>, d: Datagram, after: map<u16, Group>) {
    && d.flow in live && live[d.flow].members != []
    && var held := live[d.flow];
       && d == Datagram(d.flow, held.generation, held.sequence, held.deadline, held.priority, held.members[0].payload)
       && after == if |held.members| == 1 then live - {d.flow}
                   else live[d.flow := held.(members := held.members[1..])]
  }

  lemma PopFlowLeaves(q: Queue, f: u16)
    requires f in q.groups && q.groups[f].members != []
    ensures var (after, d) := PopFlow(q, f);
            d.Some? && d.value.flow == f && HeadLeaves(q.groups, d.value, after.groups)
  {
  }

  /** The most urgent, then the oldest live group is served; nothing is served only when nothing is live. */
  lemma PopNextServesFirst(q: Queue, now: nat)
    requires Inv(q)
    ensures var live := Live(q, now);
            var (after, d) := PopNext(q, now);
            && (d.None? <==> live == map[])
            && (d.None? ==> after.groups == live)
            && (d.Some? ==>
                  && HeadLeaves(live, d.value, after.groups)
                  && forall g :: g in live && g != d.value.flow ==> ServedBefore(live, d.value.flow, g))
  {
    hide Inv, Balance, Expire, Least, HeadLeaves, PopFlow;
    ExpireKeeps(q, now);
    ExpireLeavesLive(q, now);
    var live := Expire(q, now);
    if live.groups == map[] {
      assert ServiceRanks(live) == map[];
      RealtimeRun.EmptyHasNoLeast(ServiceRanks(live));
    } else {
      ServiceChosen(live);
      var f := Least(ServiceRanks(live)).value;
      RealtimeRun.NoEmptyGroup(live, f);
      PopFlowLeaves(live, f);
      forall g | g in live.groups && g != f
        ensures ServedBefore(live.groups, f, g)
      {
        assert g in ServiceRanks(live);
      }
    }
  }

  /** The announced size is that of the datagram the next pop would take. */
  lemma PeekAnnouncesPop(q: Queue, now: nat)
    requires Inv(q)
    ensures var (after, size) := PeekNextWireLen(q, now);
            && after.groups == Live(q, now)
            && size == match PopNext(q, now).1
                       case None => None
                       case Some(d) => Some(20 + |d.payload|)
  {
    hide Inv, Balance, Expire, Least;
    ExpireKeeps(q, now);
    ExpireLeavesLive(q, now);
    var live := Expire(q, now);
    if live.groups == map[] {
      assert ServiceRanks(live) == map[];
      RealtimeRun.EmptyHasNoLeast(ServiceRanks(live));
    } else {
      ServiceChosen(live);
      RealtimeRun.NoEmptyGroup(live, Least(ServiceRanks(live)).value);
    }
  }

  ghost predicate MostUrgent(live: map<u16, Group>, f: u16) {
    f in live && forall g :: g in live ==> live[f].priority <= live[g].priority
  }

  /** Its head, with the header of twenty bytes, is within the budget. */
  ghost predicate HeadFits(live: map<u16, Group>, f: u16, maxWireLen: nat) {
    f in live && live[f].members != [] && 20 + |live[f].members[0].payload| <= maxWireLen
  }

  lemma FittingIs(q: Queue, maxWireLen: nat, f: u16)
    ensures f in FittingRanks(q, maxWireLen) <==> MostUrgent(q.groups, f) && HeadFits(q.groups, f, maxWireLen)
    ensures f in FittingRanks(q, maxWireLen) ==> FittingRanks(q, maxWireLen)[f] == ServiceRank(q.groups[f], f)
  {
  }

  /**
    Under a send budget, only a head of the most urgent pending priority may be served: a smaller
    but less urgent datagram waits, and something is served exactly when one of those heads fits.
    Of the groups of that priority whose heads fit, the oldest is served.
   */
  lemma PopFittingNeverSkipsUrgent(q: Queue, now: nat, maxWireLen: nat)
    requires Inv(q)
    ensures var live := Live(q, now);
            var (after, d) := PopNextFitting(q, now, maxWireLen);
            && (d.Some? <==> exists f :: MostUrgent(live, f) && HeadFits(live, f, maxWireLen))
            && (d.None? ==> after.groups == live)
            && (d.Some? ==>
                  && HeadLeaves(live, d.value, after.groups)
                  && MostUrgent(live, d.value.flow) && HeadFits(live, d.value.flow, maxWireLen)
                  && forall g :: g != d.value.flow && MostUrgent(live, g) && HeadFits(live, g, maxWireLen) ==>
                       ServedBefore(live, d.value.flow, g))
  {
    hide Inv, Balance, Expire, Least, HeadLeaves, PopFlow, MostUrgent, HeadFits, FittingRanks;
    ExpireLeavesLive(q, now);
    var live := Expire(q, now);
    forall f: u16
      ensures f in FittingRanks(live, maxWireLen)
         <==> MostUrgent(live.groups, f) && HeadFits(live.groups, f, maxWireLen)
    {
      FittingIs(live, maxWireLen, f);
    }
    if f :| f in FittingRanks(live, maxWireLen) {
      FittingChosen(live, maxWireLen, f);
      var served := Least(FittingRanks(live, maxWireLen)).value;
      FittingPops(live, maxWireLen, served);
      forall g | g != served && g in FittingRanks(live, maxWireLen)
        ensures g in live.groups && ServedBefore(live.groups, served, g)
      {
        FittingPops(live, maxWireLen, g);
        FittingIs(live, maxWireLen, g);
        FittingIs(live, maxWireLen, served);
      }
    } else {
      assert FittingRanks(live, maxWireLen) == map[];
      RealtimeRun.EmptyHasNoLeast(FittingRanks(live, maxWireLen));
    }
  }

  lemma FittingPops(q: Queue, maxWireLen: nat, f: u16)
    requires f in FittingRanks(q, maxWireLen)
    ensures f in q.groups
    ensures var (after, d) := PopFlow(q, f);
            d.Some? && d.value.flow == f && HeadLeaves(q.groups, d.value, after.groups)
  {
  }

  /* ---------------------------------- Statistics --------------------------------- */

  /** The datagrams a flow has in one set of groups and no group in the other. */
  ghost function Lost(before: map<u16, Group>, after: map<u16, Group>, f: u16): nat {
    if f in before && f !in after then |before[f].members| else 0
  }

  lemma DropAllCounts(q: Queue, flows: set<u16>, reason: Reason, f: u16)
    ensures Get(DropAll(q, flows, reason).ledger.flows, f)
         == Plus(Get(q.ledger.flows, f), Dropped(reason, Lost(q.groups, DropAll(q, flows, reason).groups, f)))
  {
    hide Sum, Lens, DropAll, Plus, Dropped;
    DropAllAt(q, flows, reason, f);
    AddsNothing(Get(q.ledger.flows, f), reason);
    FreshCounts(q.ledger, f);
  }

  lemma AddsNothing(c: Counts, reason: Reason)
    ensures Plus(c, Dropped(reason, 0)) == c
  {
  }

  lemma FreshCounts(ledger: Ledger, f: u16)
    ensures f !in ledger.flows ==> Get(ledger.flows, f) == ZERO
    ensures f in ledger.flows ==> Get(ledger.flows, f) == ledger.flows[f]
  {
  }

  lemma NoteAt(ledger: Ledger, flow: u16, delta: Counts, f: u16)
    ensures Get(Note(ledger, flow, delta).flows, f)
         == if f == flow then Plus(Get(ledger.flows, f), delta) else Get(ledger.flows, f)
  {
  }

  /** Taking a datagram, or looking at one, counts the datagrams that expired and nothing else. */
  lemma ServingCounts(q: Queue, now: nat, maxWireLen: nat, f: u16)
    ensures var was := Get(q.ledger.flows, f);
            var counted := was.(expired := was.expired + Lost(q.groups, Live(q, now), f));
            && Get(PopNext(q, now).0.ledger.flows, f) == counted
            && Get(PopNextFitting(q, now, maxWireLen).0.ledger.flows, f) == counted
            && Get(PeekNextWireLen(q, now).0.ledger.flows, f) == counted
  {
    hide Sum, Lens, DropAll, Least, ServiceRanks, FittingRanks, Get;
    ExpireLeavesLive(q, now);
    DropAllCounts(q, Due(q, now), Expired, f);
  }

  /** What admission to the live groups adds to one flow's statistics, given the answer and the groups left. */
  ghost function Admitting(live: map<u16, Group>, d: Datagram, after: map<u16, Group>,
                           r: Result<SendOutcome, SendError>, f: u16): Counts
  {
    Counts(if f == d.flow && r in {Ok(Enqueued), Ok(ReplacedOlder)} then 1 else 0, 0, 0,
           if f == d.flow && f in live && r == Ok(ReplacedOlder) then |live[f].members| else 0,
           if f == d.flow && r == Ok(DroppedExpired) then 1 else 0,
           Lost(live, after, f) + (if f == d.flow && r == Ok(DroppedCongested) then 1 else 0))
  }

  /** The same for the whole call, which first counts what expired. */
  ghost function Counting(q: Queue, d: Datagram, now: nat, after: map<u16, Group>, r: Result<SendOutcome, SendError>,
                          f: u16): Counts
  {
    var admitting := Admitting(Live(q, now), d, after, r, f);
    admitting.(expired := admitting.expired + Lost(q.groups, Live(q, now), f))
  }

  /**
    Every datagram is counted where it went: the new one as queued or under the reason it was
    refused for, those it replaced, those that expired first, and those dropped to make room or with
    a group that overflowed.
   */
  lemma EnqueueCounts(q: Queue, d: Datagram, now: nat, f: u16)
    requires Inv(q)
    ensures var (after, r) := Enqueue(q, d, now);
            Get(after.ledger.flows, f) == Plus(Get(q.ledger.flows, f), Counting(q, d, now, after.groups, r, f))
  {
    hide Inv, Balance, Expire, Admit, DropAll, Get, Sum, Lens;
    ExpireKeeps(q, now);
    ExpireLeavesLive(q, now);
    DropAllCounts(q, Due(q, now), Expired, f);
    assert Expire(q, now) == DropAll(q, Due(q, now), Expired) by { ExpireIs(q, now); }
    AdmitCounts(Expire(q, now), d, now, f);
  }

  lemma ExpireIs(q: Queue, now: nat)
    ensures Expire(q, now) == DropAll(q, Due(q, now), Expired)
  {
  }

  /** A ledger entry after `delta` was noted for `flow`. */
  ghost predicate Adds(before: Ledger, after: Ledger, delta: Counts, f: u16) {
    Get(after.flows, f) == Plus(Get(before.flows, f), delta)
  }

  lemma RefuseCounts(q: Queue, flow: u16, reason: Reason, f: u16)
    ensures Adds(q.ledger, Refuse(q, flow, reason).ledger, if f == flow then Dropped(reason, 1) else ZERO, f)
  {
    hide Note, Get;
    NoteAt(q.ledger, flow, Dropped(reason, 1), f);
  }

  lemma DropFlowCounts(q: Queue, flow: u16, reason: Reason, f: u16)
    requires flow in q.groups
    ensures Adds(q.ledger, DropFlow(q, flow, reason).ledger,
                 if f == flow then Dropped(reason, |q.groups[flow].members|) else ZERO, f)
  {
    hide Note, Get;
    NoteAt(q.ledger, flow, Dropped(reason, |q.groups[flow].members|), f);
  }

  lemma InsertCounts(q: Queue, d: Datagram, f: u16)
    ensures Adds(q.ledger, Insert(q, d).ledger,
                 if f != d.flow then ZERO
                 else if f in q.groups then ZERO.(queued := 1, replaced := |q.groups[f].members|) else QUEUED, f)
  {
    hide Note, Get, DropFlow;
    var cleared := DropFlow(q, d.flow, Replaced);
    NoteAt(cleared.ledger, d.flow, QUEUED, f);
    if d.flow in q.groups {
      DropFlowCounts(q, d.flow, Replaced, f);
    } else {
      DropAbsent(q, d.flow);
    }
  }

  lemma DropAbsent(q: Queue, flow: u16)
    requires flow !in q.groups
    ensures DropFlow(q, flow, Replaced) == q
  {
  }

  lemma AppendCounts(q: Queue, d: Datagram, f: u16)
    requires d.flow in q.groups
    ensures var (after, r) := Append(q, d);
            && r in {Err(SizeOverflow), Ok(DroppedCongested), Ok(Enqueued)}
            && Adds(q.ledger, after.ledger,
                    if f != d.flow || r.Err? then ZERO
                    else if r == Ok(Enqueued) then QUEUED
                    else Dropped(Congested, |q.groups[f].members| + 1), f)
            && after.groups == (if r == Ok(DroppedCongested) then q.groups - {d.flow}
                                else if r.Err? then q.groups
                                else q.groups[d.flow := Extend(q.groups[d.flow], d)])
  {
    hide Note, Get, Extend;
    NoteAt(q.ledger, d.flow, QUEUED, f);
    NoteAt(q.ledger, d.flow, Dropped(Congested, |q.groups[d.flow].members| + 1), f);
  }

  lemma AdmitCounts(q: Queue, d: Datagram, now: nat, f: u16)
    requires Inv(q)
    ensures var (after, r) := Admit(q, d, now);
            Adds(q.ledger, after.ledger, Admitting(q.groups, d, after.groups, r, f), f)
  {
    hide Least, CompareGroup, VictimRanks, Inv, Insert, Append, Refuse, DropFlow, Get;
    if |d.payload| <= q.maxPayload {
      if d.deadline <= now {
        RefuseCounts(q, d.flow, Expired, f);
        RefuseKeepsGroups(q, d.flow, Expired);
      } else if d.flow in q.groups {
        WithinCounts(q, d, now, f);
      } else {
        AnewCounts(q, d, now, f);
      }
    }
  }

  lemma RefuseKeepsGroups(q: Queue, flow: u16, reason: Reason)
    ensures Refuse(q, flow, reason).groups == q.groups
  {
    hide Note, Dropped, Get, Plus;
  }

  lemma WithinCounts(q: Queue, d: Datagram, now: nat, f: u16)
    requires Inv(q) && |d.payload| <= q.maxPayload && d.deadline > now && d.flow in q.groups
    ensures var (after, r) := Admit(q, d, now);
            Adds(q.ledger, after.ledger, Admitting(q.groups, d, after.groups, r, f), f)
  {
    hide CompareGroup, Inv, Insert, Append, Refuse, DropFlow, Get, Extend;
    RealtimeRun.NoEmptyGroup(q, d.flow);
    RefuseCounts(q, d.flow, Congested, f);
    RefuseKeepsGroups(q, d.flow, Congested);
    InsertCounts(q, d, f);
    InsertStarts(q, d);
    AppendCounts(q, d, f);
  }

  lemma AnewCounts(q: Queue, d: Datagram, now: nat, f: u16)
    requires |d.payload| <= q.maxPayload && d.deadline > now && d.flow !in q.groups
    ensures var (after, r) := Admit(q, d, now);
            Adds(q.ledger, after.ledger, Admitting(q.groups, d, after.groups, r, f), f)
  {
    hide Least, VictimRanks, Insert, Refuse, DropFlow, Get;
    if |q.groups| < q.config.maxFlows {
      InsertCounts(q, d, f);
      InsertStarts(q, d);
    } else if Least(VictimRanks(q, d.priority)).Some? {
      VictimPending(q, d.priority);
      EvictionCounts(q, Least(VictimRanks(q, d.priority)).value, d, f);
    } else {
      RefuseCounts(q, d.flow, Congested, f);
      RefuseKeepsGroups(q, d.flow, Congested);
    }
  }

  lemma EvictionCounts(q: Queue, victim: u16, d: Datagram, f: u16)
    requires victim in q.groups && d.flow !in q.groups
    ensures var after := Insert(DropFlow(q, victim, Congested), d);
            Adds(q.ledger, after.ledger, Admitting(q.groups, d, after.groups, Ok(Enqueued), f), f)
  {
    hide Insert, DropFlow, Get;
    var room := DropFlow(q, victim, Congested);
    DropsOne(q, victim, Congested);
    DropFlowCounts(q, victim, Congested, f);
    InsertCounts(room, d, f);
    InsertStarts(room, d);
  }

  /* ------------------------------ Limits and congestion -------------------------- */

  /** Congestion drops the disposable groups and counts them; the rest stays. */
  lemma CongestionDropsDisposable(q: Queue, f: u16)
    ensures var after := DropDisposable(q);
            && (f in after.groups <==> f in q.groups && q.groups[f].priority != 3)
            && (f in after.groups ==> after.groups[f] == q.groups[f])
            && var was := Get(q.ledger.flows, f);
               Get(after.ledger.flows, f) == was.(congested := was.congested + Lost(q.groups, after.groups, f))
  {
    hide DropAll, Sum, Lens, Get;
    DropAllAt(q, Disposable(q), Congested, f);
    DropAllCounts(q, Disposable(q), Congested, f);
  }

  ghost predicate AllWithin(group: Group, limit: nat) {
    forall i :: 0 <= i < |group.members| ==> |group.members[i].payload| <= limit
  }

  /** A smaller limit drops, as congested, the groups with a datagram beyond it; a larger one drops nothing. */
  lemma LimitDropsLonger(q: Queue, limit: nat, f: u16)
    ensures var (after, r) := SetMaxPayload(q, limit);
            && r == (if limit == 0 then None else Some(limit != q.maxPayload))
            && after.maxPayload == (if limit == 0 then q.maxPayload else limit)
            && (f in after.groups <==>
                  f in q.groups && (limit == 0 || limit >= q.maxPayload || AllWithin(q.groups[f], limit)))
            && (f in after.groups ==> after.groups[f] == q.groups[f])
            && var was := Get(q.ledger.flows, f);
               Get(after.ledger.flows, f) == was.(congested := was.congested + Lost(q.groups, after.groups, f))
  {
    var changed := q.(maxPayload := limit);
    hide DropAll, Sum, Lens, Get, AllWithin, AnyLonger, Oversized;
    DropAllAt(changed, Oversized(q, limit), Congested, f);
    DropAllCounts(changed, Oversized(q, limit), Congested, f);
    OversizedIs(q, limit, f);
    LimitSet(q, limit);
  }

  lemma LimitSet(q: Queue, limit: nat)
    ensures DropAll(q.(maxPayload := limit), Oversized(q, limit), Congested).maxPayload == limit
  {
  }

  lemma OversizedIs(q: Queue, limit: nat, f: u16)
    ensures f in Oversized(q, limit) <==> f in q.groups && !AllWithin(q.groups[f], limit)
  {
  }

  /** A reported transmission is counted, with its bytes, for its flow alone. */
  lemma SentIsCounted(q: Queue, flow: u16, payload: Bytes, f: u16)
    ensures var after := NoteSent(q, flow, payload);
            && after.groups == q.groups
            && var was := Get(q.ledger.flows, f);
               Get(after.ledger.flows, f) == if f == flow then was.(sent := was.sent + 1,
                                                                    sentBytes := was.sentBytes + |payload|) else was
  {
    NoteAt(q.ledger, flow, ZERO.(sent := 1, sentBytes := |payload|), f);
  }

  /** A queue needs positive limits, and starts with nothing pending and nothing counted. */
  lemma NewVerdict(limits: Config, maxPayload: nat)
    ensures var q := New(limits, maxPayload);
            if limits.maxFlows == 0 || limits.maxDatagramsPerGroup == 0 || limits.maxGroupBytes == 0 || maxPayload == 0
            then q == None
            else
              && q.Some? && q.value.config == limits && q.value.maxPayload == maxPayload
              && q.value.groups == map[] && q.value.nextOrder == 0
              && q.value.ledger.flows == map[] && q.value.ledger.total == Counts(0, 0, 0, 0, 0, 0)
  {
  }
}
