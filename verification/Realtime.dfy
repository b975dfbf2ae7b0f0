/** The realtime send queue as the imperative code keeps it (`realtime.rs`). */
module Realtime {
  import opened Base
  import opened Sums
  import opened RealtimeSpec
  import opened RealtimeInvariant

  const NO_TELEMETRY: Telemetry := Telemetry(0, 0, 0, 0, 0, 0)

  function Saturating(t: Telemetry, delta: Counts): Telemetry {
    Telemetry(SaturatingAdd64(t.queued, delta.queued), SaturatingAdd64(t.sent, delta.sent),
              SaturatingAdd64(t.sentBytes, delta.sentBytes), SaturatingAdd64(t.replaced, delta.replaced),
              SaturatingAdd64(t.expired, delta.expired), SaturatingAdd64(t.congestionDropped, delta.congested))
  }

  lemma CappedPlus(c: Counts, delta: Counts)
    ensures Saturating(Capped(c), delta) == Capped(Plus(c, delta))
  {
  }

  datatype PendingGroup = PendingGroup(
    generation: u32, sequence: u64, deadline: nat, priority: Priority, datagrams: seq<Bytes>, payloadBytes: nat,
    insertionOrder: u64)

  function Stored(group: Group): PendingGroup {
    PendingGroup(group.generation, group.sequence, group.deadline, group.priority, Payloads(group.members),
                 group.payloadBytes, group.insertionOrder)
  }

  ghost predicate GroupsMatch(groups: map<u16, PendingGroup>, model: map<u16, Group>) {
    groups.Keys == model.Keys && forall f :: f in groups ==> groups[f] == Stored(model[f])
  }

  ghost predicate StatsMatch(total: Telemetry, flows: map<u16, Telemetry>, ledger: Ledger) {
    && total == Capped(ledger.total) && flows.Keys == ledger.flows.Keys
    && forall f :: f in flows ==> flows[f] == Capped(ledger.flows[f])
  }

  lemma NoteMatches(total: Telemetry, flows: map<u16, Telemetry>, ledger: Ledger, flow: u16, delta: Counts)
    requires StatsMatch(total, flows, ledger)
    ensures var stats := if flow in flows then flows[flow] else NO_TELEMETRY;
            StatsMatch(Saturating(total, delta), flows[flow := Saturating(stats, delta)], Note(ledger, flow, delta))
  {
    hide Capped, Saturating, Plus;
    CappedPlus(ledger.total, delta);
    CappedPlus(Get(ledger.flows, flow), delta);
    ZeroCapped();
  }

  lemma ZeroCapped()
    ensures Capped(ZERO) == NO_TELEMETRY
  {
  }

  /** The least of a set of ranked flows, found by scanning them in any order. */
  method LeastOf(ranks: map<u16, Rank>) returns (least: Option<u16>)
    requires forall f, g :: f in ranks && g in ranks && f != g ==> ranks[f] != ranks[g]
    ensures least == Least(ranks)
  {
    least := None;
    var todo := ranks.Keys;
    while todo != {}
      invariant todo <= ranks.Keys
      invariant least.None? ==> todo == ranks.Keys
      invariant least.Some? ==> least.value in ranks.Keys - todo
      invariant least.Some? ==>
                  forall g :: g in ranks.Keys - todo && g != least.value ==> ranks[least.value].Less(ranks[g])
      decreases |todo|
    {
      var f :| f in todo;
      if least.None? || ranks[f].Less(ranks[least.value]) {
        least := Some(f);
      } else {
        RanksTotal(ranks[f], ranks[least.value]);
      }
      todo := todo - {f};
    }
    if least.Some? {
      assert IsLeast(ranks, least.value);
      LeastIs(ranks, least.value);
    } else {
      assert forall f :: f !in ranks;
    }
  }

  class RealtimeSendQueue {
    const config: Config
    var maxPayload: nat
    var groups: map<u16, PendingGroup>
    var total: Telemetry
    var flows: map<u16, Telemetry>
    var nextInsertionOrder: u64
    ghost var model: Queue

    ghost predicate Valid()
      reads this
    {
      && Inv(model)
      && config == model.config && maxPayload == model.maxPayload && nextInsertionOrder == model.nextOrder
      && GroupsMatch(groups, model.groups) && StatsMatch(total, flows, model.ledger)
    }

    constructor (config: Config, maxPayload: nat)
      requires New(config, maxPayload).Some?
      ensures Valid() && New(config, maxPayload) == Some(model)
    {
      this.config, this.maxPayload := config, maxPayload;
      groups, flows, total, nextInsertionOrder := map[], map[], NO_TELEMETRY, 0;
      model := New(config, maxPayload).value;
    }

    method Note(flow: u16, delta: Counts)
      requires StatsMatch(total, flows, model.ledger)
      modifies this`total, this`flows, this`model
      ensures model == old(model).(ledger := RealtimeSpec.Note(old(model.ledger), flow, delta))
      ensures StatsMatch(total, flows, model.ledger)
    {
      hide StatsMatch, Saturating;
      NoteMatches(total, flows, model.ledger, flow, delta);
      total := Saturating(total, delta);
      var stats := if flow in flows then flows[flow] else NO_TELEMETRY;
      flows := flows[flow := Saturating(stats, delta)];
      model := model.(ledger := RealtimeSpec.Note(model.ledger, flow, delta));
    }

    method DropFlowGroup(flow: u16, reason: Reason) returns (count: nat)
      requires Valid()
      modifies this
      ensures Valid() && model == DropFlow(old(model), flow, reason)
      ensures count == if flow in old(groups) then |old(groups)[flow].datagrams| else 0
    {
      hide Inv, StatsMatch, GroupsMatch, RealtimeSpec.Note;
      DropFlowKeeps(model, flow, reason);
      MatchAt(groups, model.groups, flow);
      RemoveMatches(groups, model.groups, flow);
      if flow !in groups {
        return 0;
      }
      count := |groups[flow].datagrams|;
      groups := groups - {flow};
      model := model.(groups := model.groups - {flow});
      Note(flow, Dropped(reason, count));
    }

    method DropFlows(doomed: set<u16>, reason: Reason) returns (count: nat)
      requires Valid()
      modifies this
      ensures Valid() && model == DropAll(old(model), doomed, reason)
      ensures count == Sum(Lens(Restrict(old(model).groups, doomed)))
    {
      hide Inv, StatsMatch, GroupsMatch, DropAll, DropFlow, Sum, Lens;
      var todo := doomed;
      ghost var start := model;
      ghost var done: set<u16> := {};
      count := 0;
      DropNone(start, reason);
      NothingRestricted(start.groups);
      while todo != {}
        invariant Valid() && doomed == done + todo && done !! todo
        invariant model == DropAll(start, done, reason)
        invariant count == Sum(Lens(Restrict(start.groups, done)))
        decreases |todo|
      {
        var flow :| flow in todo;
        DropOneMore(start, done, flow, reason);
        DropSum(start, done, flow);
        DropAllAt(start, done, reason, flow);
        MatchAt(groups, model.groups, flow);
        var n := DropFlowGroup(flow, reason);
        count := count + n;
        done, todo := done + {flow}, todo - {flow};
      }
      assert done == doomed;
    }

    method Expire(now: nat) returns (count: nat)
      requires Valid()
      modifies this
      ensures Valid() && model == RealtimeSpec.Expire(old(model), now)
    {
      hide Inv, StatsMatch, DropAll;
      var expired := set f | f in groups && groups[f].deadline <= now;
      assert expired == Due(model, now);
      count := DropFlows(expired, Expired);
    }

    /** Drops the least urgent, oldest group that is less urgent than the arriving datagram. */
    method EvictLowerPriority(incoming: Priority) returns (evicted: bool)
      requires Valid()
      modifies this
      ensures Valid()
      ensures var victim := Least(VictimRanks(old(model), incoming));
              && evicted == victim.Some?
              && model == if evicted then DropFlow(old(model), victim.value, Congested) else old(model)
    {
      hide Inv, StatsMatch, DropFlow, Least;
      var ranks := map f | f in groups && groups[f].priority > incoming ::
        Rank(3 - groups[f].priority, groups[f].insertionOrder, U16_MAX - f);
      assert ranks == VictimRanks(model, incoming);
      var victim := LeastOf(ranks);
      evicted := victim.Some?;
      if evicted {
        var _ := DropFlowGroup(victim.value, Congested);
      }
    }

    method AppendToGroup(d: Datagram) returns (r: Result<SendOutcome, SendError>)
      requires Valid() && d.flow in groups && |d.payload| <= maxPayload
      requires CompareGroup(d.generation, d.sequence, groups[d.flow].generation, groups[d.flow].sequence) == Same
      modifies this
      ensures d.flow in old(model.groups) && Valid() && (model, r) == Append(old(model), d)
    {
      hide Inv, StatsMatch, GroupsMatch, RealtimeSpec.Note, CompareGroup, Extend, Payloads;
      MatchAt(groups, model.groups, d.flow);
      ghost var was := model.groups[d.flow];
      StoredExtend(was, d);
      RemoveMatches(groups, model.groups, d.flow);
      PutMatches(groups, model.groups, d.flow, Extend(was, d));
      AppendKeeps(model, d);
      var group := groups[d.flow];
      var payloadBytes := group.payloadBytes + |d.payload|;
      if payloadBytes > USIZE_MAX {
        return Err(SizeOverflow);
      }
      if |group.datagrams| >= config.maxDatagramsPerGroup || payloadBytes > config.maxGroupBytes {
        var dropped := |group.datagrams| + 1;
        groups := groups - {d.flow};
        model := model.(groups := model.groups - {d.flow});
        Note(d.flow, Dropped(Congested, dropped));
        return Ok(DroppedCongested);
      }
      groups := groups[d.flow := group.(
        deadline := Min(group.deadline, d.deadline), priority := Min(group.priority, d.priority),
        datagrams := group.datagrams + [d.payload], payloadBytes := payloadBytes)];
      model := model.(groups := model.groups[d.flow := Extend(was, d)]);
      Note(d.flow, QUEUED);
      return Ok(Enqueued);
    }

    /** Replaces whatever group the flow had by one holding just this datagram. */
    method InsertGroup(d: Datagram) returns (replaced: nat)
      requires Valid() && |d.payload| <= maxPayload && (d.flow in groups || |groups| < config.maxFlows)
      modifies this
      ensures Valid() && model == Insert(old(model), d)
      ensures replaced == if d.flow in old(groups) then |old(groups)[d.flow].datagrams| else 0
    {
      hide Inv, StatsMatch, GroupsMatch, RealtimeSpec.Note, Payloads;
      MatchAt(groups, model.groups, d.flow);
      ghost var group := Group(d.generation, d.sequence, d.deadline, d.priority, [d], |d.payload|, model.nextOrder);
      PutMatches(groups, model.groups, d.flow, group);
      InsertKeeps(model, d);
      replaced := DropFlowGroup(d.flow, Replaced);
      PutMatches(groups, model.groups, d.flow, group);
      StoredSingle(d, model.nextOrder);
      groups := groups[d.flow :=
        PendingGroup(d.generation, d.sequence, d.deadline, d.priority, [d.payload], |d.payload|, nextInsertionOrder)];
      nextInsertionOrder := NextOrder(nextInsertionOrder);
      model := model.(groups := model.groups[d.flow := group], nextOrder := NextOrder(model.nextOrder));
      Note(d.flow, QUEUED);
    }

    method Enqueue(d: Datagram, now: nat) returns (r: Result<SendOutcome, SendError>)
      requires Valid()
      modifies this
      ensures Valid() && (model, r) == RealtimeSpec.Enqueue(old(model), d, now)
    {
      hide Inv, StatsMatch, GroupsMatch, RealtimeSpec.Note, RealtimeSpec.Expire, CompareGroup, DropFlow, Insert, Append,
        Least, VictimRanks, Payloads;
      EnqueueKeeps(model, d, now);
      ExpireKeeps(model, now);
      var _ := Expire(now);
      MatchAt(groups, model.groups, d.flow);
      SameCount(groups, model.groups);
      if |d.payload| > maxPayload {
        return Err(MessageTooLarge);
      }
      if d.deadline <= now {
        RefuseKeeps(model, d.flow, Expired);
        Note(d.flow, Dropped(Expired, 1));
        return Ok(DroppedExpired);
      }
      if d.flow in groups {
        var order := CompareGroup(d.generation, d.sequence, groups[d.flow].generation, groups[d.flow].sequence);
        if order == Older {
          RefuseKeeps(model, d.flow, Congested);
          Note(d.flow, Dropped(Congested, 1));
          return Ok(DroppedCongested);
        } else if order == Same {
          r := AppendToGroup(d);
          return;
        }
      } else if |groups| >= config.maxFlows {
        ghost var full := model;
        RefuseKeeps(model, d.flow, Congested);
        var evicted := EvictLowerPriority(d.priority);
        if !evicted {
          Note(d.flow, Dropped(Congested, 1));
          return Ok(DroppedCongested);
        }
        VictimPending(full, d.priority);
        VictimMakesRoom(full, Least(VictimRanks(full, d.priority)).value);
        VictimIsOther(full, Least(VictimRanks(full, d.priority)).value, d.flow);
        SameCount(groups, model.groups);
        MatchAt(groups, model.groups, d.flow);
      }
      var replaced := InsertGroup(d);
      return Ok(if replaced > 0 then ReplacedOlder else Enqueued);
    }

    method PendingDatagrams() returns (n: nat)
      requires Valid()
      ensures n == Pending(model)
    {
      hide Inv, StatsMatch, GroupsMatch, Sum, Lens;
      n := 0;
      var todo := groups.Keys;
      ghost var done: set<u16> := {};
      NothingRestricted(model.groups);
      while todo != {}
        invariant groups.Keys == done + todo && done !! todo
        invariant n == Sum(Lens(Restrict(model.groups, done)))
        decreases |todo|
      {
        var f :| f in todo;
        MatchAt(groups, model.groups, f);
        DropSum(model, done, f);
        n := n + |groups[f].datagrams|;
        done, todo := done + {f}, todo - {f};
      }
      WholeRestricted(groups, model.groups, done);
    }

    method PopFlow(flow: u16) returns (d: Option<Datagram>)
      requires Valid()
      modifies this
      ensures Valid() && (model, d) == RealtimeSpec.PopFlow(old(model), flow)
    {
      hide Inv, StatsMatch, GroupsMatch;
      MatchAt(groups, model.groups, flow);
      PopFlowKeeps(model, flow);
      if flow !in groups || groups[flow].datagrams == [] {
        return None;
      }
      ghost var was := model.groups[flow];
      StoredRest(was);
      RemoveMatches(groups, model.groups, flow);
      PutMatches(groups, model.groups, flow, was.(members := was.members[1..]));
      var group := groups[flow];
      var rest := group.datagrams[1..];
      d := Some(Datagram(flow, group.generation, group.sequence, group.deadline, group.priority, group.datagrams[0]));
      groups := if rest == [] then groups - {flow} else groups[flow := group.(datagrams := rest)];
      model := RealtimeSpec.PopFlow(model, flow).0;
    }

    /** The most urgent, then oldest, pending flow. */
    method NextFlow() returns (next: Option<u16>)
      requires Valid()
      ensures next == Least(ServiceRanks(model))
    {
      hide Inv, StatsMatch, Least;
      var ranks := map f | f in groups :: Rank(groups[f].priority, groups[f].insertionOrder, f);
      assert ranks == ServiceRanks(model);
      next := LeastOf(ranks);
    }

    method PeekNextWireLen(now: nat) returns (n: Option<nat>)
      requires Valid()
      modifies this
      ensures Valid() && (model, n) == RealtimeSpec.PeekNextWireLen(old(model), now)
    {
      hide Inv, StatsMatch, GroupsMatch, RealtimeSpec.Expire, Least, ServiceRanks;
      var _ := Expire(now);
      var flow := NextFlow();
      if flow.None? {
        return None;
      }
      MatchAt(groups, model.groups, flow.value);
      return if flow.value in groups && groups[flow.value].datagrams != []
        then Some(HEADER_LEN + |groups[flow.value].datagrams[0]|) else None;
    }

    method PopNext(now: nat) returns (d: Option<Datagram>)
      requires Valid()
      modifies this
      ensures Valid() && (model, d) == RealtimeSpec.PopNext(old(model), now)
    {
      hide Inv, StatsMatch, GroupsMatch, RealtimeSpec.Expire, Least, ServiceRanks, RealtimeSpec.PopFlow;
      var _ := Expire(now);
      var flow := NextFlow();
      if flow.None? {
        return None;
      }
      d := PopFlow(flow.value);
    }

    /** The oldest flow of the most urgent pending priority whose head fits. */
    method NextFitting(maxWireLen: nat) returns (next: Option<u16>)
      requires Valid()
      ensures next == Least(FittingRanks(model, maxWireLen))
    {
      hide Inv, StatsMatch, Least, IsTop;
      var top := TopPriority();
      var ranks := map f | f in groups && groups[f].priority == top && groups[f].datagrams != []
                         && HEADER_LEN + |groups[f].datagrams[0]| <= maxWireLen
        :: Rank(groups[f].priority, groups[f].insertionOrder, f);
      TopIsTop(model, top);
      assert ranks.Keys == FittingRanks(model, maxWireLen).Keys;
      assert ranks == FittingRanks(model, maxWireLen);
      next := LeastOf(ranks);
    }

    method PopNextFitting(now: nat, maxWireLen: nat) returns (d: Option<Datagram>)
      requires Valid()
      modifies this
      ensures Valid() && (model, d) == RealtimeSpec.PopNextFitting(old(model), now, maxWireLen)
    {
      hide Inv, StatsMatch, GroupsMatch, RealtimeSpec.Expire, Least, FittingRanks, RealtimeSpec.PopFlow;
      var _ := Expire(now);
      var flow := NextFitting(maxWireLen);
      if flow.None? {
        return None;
      }
      d := PopFlow(flow.value);
    }

    /** The most urgent priority pending; any value when nothing is. */
    method TopPriority() returns (top: Priority)
      requires Valid()
      ensures IsTop(model, top)
      ensures groups != map[] ==> exists f :: f in model.groups && model.groups[f].priority == top
    {
      hide Inv, StatsMatch;
      top := DISPOSABLE;
      var todo := groups.Keys;
      while todo != {}
        invariant todo <= groups.Keys
        invariant forall f :: f in groups.Keys - todo ==> top <= groups[f].priority
        invariant todo == groups.Keys || exists f :: f in model.groups && model.groups[f].priority == top
        decreases |todo|
      {
        var f :| f in todo;
        if groups[f].priority < top || todo == groups.Keys {
          top := groups[f].priority;
          assert model.groups[f].priority == top;
        }
        todo := todo - {f};
      }
    }

    method NoteSent(flow: u16, payload: Bytes)
      requires Valid()
      modifies this
      ensures Valid() && model == RealtimeSpec.NoteSent(old(model), flow, payload)
    {
      hide Inv, StatsMatch, GroupsMatch, RealtimeSpec.Note;
      NoteSentKeeps(model, flow, payload);
      Note(flow, ZERO.(sent := 1, sentBytes := |payload|));
    }

    method DropDisposableForCongestion() returns (count: nat)
      requires Valid()
      modifies this
      ensures Valid() && model == DropDisposable(old(model))
      ensures count == Sum(Lens(Restrict(old(model).groups, Disposable(old(model)))))
    {
      hide Inv, StatsMatch, DropAll;
      var flows := set f | f in groups && groups[f].priority == DISPOSABLE;
      assert flows == Disposable(model);
      count := DropFlows(flows, Congested);
    }

    method SetMaxPayload(maxPayload: nat) returns (r: Option<bool>)
      requires Valid()
      modifies this
      ensures Valid() && (model, r) == RealtimeSpec.SetMaxPayload(old(model), maxPayload)
    {
      hide Inv, StatsMatch, DropAll;
      SetMaxPayloadKeeps(model, maxPayload);
      if maxPayload == 0 {
        return None;
      }
      if maxPayload == this.maxPayload {
        return Some(false);
      }
      if maxPayload < this.maxPayload {
        var oversized := set f | f in groups
          && exists i :: 0 <= i < |groups[f].datagrams| && |groups[f].datagrams[i]| > maxPayload;
        assert oversized == Oversized(model, maxPayload) by {
          OversizedMatches(groups, model, maxPayload, oversized);
        }
        LimitCommutes(model, oversized, maxPayload);
        var _ := DropFlows(oversized, Congested);
      }
      this.maxPayload := maxPayload;
      model := model.(maxPayload := maxPayload);
      return Some(true);
    }

    method ClearPending()
      requires Valid()
      modifies this
      ensures Valid() && model == RealtimeSpec.ClearPending(old(model))
    {
      hide Inv, StatsMatch;
      ClearKeeps(model);
      groups := map[];
      model := model.(groups := map[]);
    }
  }

  lemma NothingRestricted(groups: map<u16, Group>)
    ensures Sum(Lens(Restrict(groups, {}))) == 0
  {
    assert Lens(Restrict(groups, {})) == map[];
  }

  lemma MatchAt(groups: map<u16, PendingGroup>, model: map<u16, Group>, f: u16)
    requires GroupsMatch(groups, model)
    ensures f in groups <==> f in model
    ensures f in groups ==> groups[f] == Stored(model[f]) && |groups[f].datagrams| == |model[f].members|
  {
  }

  lemma RemoveMatches(groups: map<u16, PendingGroup>, model: map<u16, Group>, f: u16)
    requires GroupsMatch(groups, model)
    ensures GroupsMatch(groups - {f}, model - {f})
  {
  }

  lemma PutMatches(groups: map<u16, PendingGroup>, model: map<u16, Group>, f: u16, group: Group)
    requires GroupsMatch(groups, model)
    ensures GroupsMatch(groups[f := Stored(group)], model[f := group])
    ensures |groups| == |model|
  {
    assert groups.Keys == model.Keys;
    assert |groups| == |groups.Keys| && |model| == |model.Keys|;
  }

  lemma WholeRestricted(groups: map<u16, PendingGroup>, model: map<u16, Group>, done: set<u16>)
    requires GroupsMatch(groups, model) && done == groups.Keys
    ensures Restrict(model, done) == model
  {
  }

  lemma TopIsTop(q: Queue, top: Priority)
    requires IsTop(q, top) && (q.groups != map[] ==> exists f :: f in q.groups && q.groups[f].priority == top)
    ensures forall f :: f in q.groups ==> (IsTop(q, q.groups[f].priority) <==> q.groups[f].priority == top)
  {
  }

  lemma OversizedMatches(groups: map<u16, PendingGroup>, q: Queue, limit: nat, oversized: set<u16>)
    requires GroupsMatch(groups, q.groups)
    requires forall f :: f in oversized <==>
               f in groups && exists i :: 0 <= i < |groups[f].datagrams| && |groups[f].datagrams[i]| > limit
    ensures oversized == Oversized(q, limit)
  {
    forall f: u16
      ensures f in oversized <==> f in Oversized(q, limit)
    {
      if f in groups {
        var members := q.groups[f].members;
        assert forall i :: 0 <= i < |members| ==> groups[f].datagrams[i] == members[i].payload;
      }
    }
  }

  /** Dropping does not look at the limit, so it may be lowered before or after. */
  lemma LimitCommutes(q: Queue, flows: set<u16>, limit: nat)
    ensures DropAll(q.(maxPayload := limit), flows, Congested)
         == DropAll(q, flows, Congested).(maxPayload := limit)
  {
  }

  lemma SameCount(groups: map<u16, PendingGroup>, model: map<u16, Group>)
    requires GroupsMatch(groups, model)
    ensures |groups| == |model|
  {
    assert groups.Keys == model.Keys;
    assert |groups| == |groups.Keys| && |model| == |model.Keys|;
  }

  lemma VictimIsOther(q: Queue, victim: u16, flow: u16)
    requires flow !in q.groups
    ensures flow !in DropFlow(q, victim, Congested).groups
  {
  }

  lemma StoredSingle(d: Datagram, order: u64)
    ensures Stored(Group(d.generation, d.sequence, d.deadline, d.priority, [d], |d.payload|, order))
         == PendingGroup(d.generation, d.sequence, d.deadline, d.priority, [d.payload], |d.payload|, order)
  {
  }

  /** Appending to the stored group is storing the extended one. */
  lemma StoredExtend(group: Group, d: Datagram)
    ensures Stored(Extend(group, d)) == Stored(group).(
              deadline := Min(group.deadline, d.deadline), priority := Min(group.priority, d.priority),
              datagrams := Stored(group).datagrams + [d.payload], payloadBytes := group.payloadBytes + |d.payload|)
  {
    assert Payloads(group.members + [d]) == Payloads(group.members) + [d.payload];
  }

  lemma StoredRest(group: Group)
    requires group.members != []
    ensures Stored(group.(members := group.members[1..]))
         == Stored(group).(datagrams := Stored(group).datagrams[1..])
  {
    assert Payloads(group.members[1..]) == Payloads(group.members)[1..];
  }
}
