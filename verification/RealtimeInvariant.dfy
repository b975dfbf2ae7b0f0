/** What every operation of the realtime queue keeps, and how it moves the books. */
module RealtimeInvariant {
  import opened Base
  import opened Sums
  import opened RealtimeSpec

  /* -------------------------------- Ledger totals --------------------------------- */

  lemma PlusCommutes(a: Counts, b: Counts, c: Counts)
    ensures Plus(a, Plus(b, c)) == Plus(b, Plus(a, c))
    ensures Plus(a, b) == Plus(b, a)
  {
  }

  lemma {:induction false} TotalRemove(flows: map<u16, Counts>, f: u16)
    requires f in flows
    ensures Total(flows) == Plus(flows[f], Total(flows - {f}))
    decreases |flows|
  {
    var c :| c in flows && Total(flows) == Plus(flows[c], Total(flows - {c}));
    if c != f {
      Shrinks(flows, c);
      Shrinks(flows, f);
      TotalRemove(flows - {c}, f);
      TotalRemove(flows - {f}, c);
      assert flows - {c} - {f} == flows - {f} - {c};
      PlusCommutes(flows[c], flows[f], Total(flows - {f} - {c}));
    }
  }

  lemma Shrinks(flows: map<u16, Counts>, f: u16)
    requires f in flows
    ensures |flows - {f}| < |flows|
  {
    assert (flows - {f}).Keys == flows.Keys - {f};
  }

  ghost predicate Totals(ledger: Ledger) {
    ledger.total == Total(ledger.flows)
  }

  lemma PlusMoves(a: Counts, b: Counts, c: Counts)
    ensures Plus(Plus(a, b), c) == Plus(Plus(a, c), b)
  {
  }

  lemma NoteKeepsTotals(ledger: Ledger, flow: u16, delta: Counts)
    requires Totals(ledger)
    ensures Totals(Note(ledger, flow, delta))
  {
    hide Plus, Total;
    var flows := ledger.flows;
    var after := Note(ledger, flow, delta).flows;
    var rest: map<u16, Counts> := ledger.flows - {flow};
    TotalRemove(after, flow);
    assert after - {flow} == rest;
    if flow in flows {
      TotalRemove(flows, flow);
      PlusMoves(flows[flow], Total(rest), delta);
    } else {
      assert rest == flows;
      PlusMoves(ZERO, delta, Total(rest));
      PlusCommutes(Total(rest), delta, ZERO);
      NoCounts(Total(rest));
    }
  }

  lemma NoCounts(a: Counts)
    ensures Plus(ZERO, a) == a && Plus(a, ZERO) == a
  {
  }

  /* ------------------------------ Dropping many flows ------------------------------ */

  lemma DropNone(q: Queue, reason: Reason)
    ensures DropAll(q, {}, reason) == q
  {
    assert (map f | f in {} * q.groups.Keys :: q.groups[f]) == map[];
    assert q.groups - {} == q.groups;
    var d := DropAll(q, {}, reason);
    assert d.ledger.flows == q.ledger.flows;
  }

  ghost function Restrict(groups: map<u16, Group>, flows: set<u16>): map<u16, Group> {
    map f | f in flows * groups.Keys :: groups[f]
  }

  lemma DropSum(q: Queue, flows: set<u16>, flow: u16)
    requires flow !in flows
    ensures Sum(Lens(Restrict(q.groups, flows + {flow})))
         == Sum(Lens(Restrict(q.groups, flows))) + if flow in q.groups then |q.groups[flow].members| else 0
  {
    var a, b := Lens(Restrict(q.groups, flows)), Lens(Restrict(q.groups, flows + {flow}));
    if flow in q.groups {
      assert b == a[flow := |q.groups[flow].members|];
      SumAdd(a, flow, |q.groups[flow].members|);
    } else {
      assert b == a;
    }
  }

  lemma DropOneMoreTotal(q: Queue, flows: set<u16>, flow: u16, reason: Reason)
    requires flow !in flows
    ensures DropAll(q, flows + {flow}, reason).ledger.total
         == DropFlow(DropAll(q, flows, reason), flow, reason).ledger.total
  {
    hide Sum, Lens;
    DropSum(q, flows, flow);
    assert Restrict(q.groups, flows) == map f | f in flows * q.groups.Keys :: q.groups[f];
    assert Restrict(q.groups, flows + {flow}) == map f | f in (flows + {flow}) * q.groups.Keys :: q.groups[f];
  }

  lemma DropAllAt(q: Queue, flows: set<u16>, reason: Reason, f: u16)
    ensures var after := DropAll(q, flows, reason);
            && (f in after.groups <==> f in q.groups && f !in flows)
            && (f in after.groups ==> after.groups[f] == q.groups[f])
            && (f in after.ledger.flows <==> f in q.ledger.flows || (f in flows && f in q.groups))
            && (f in flows && f in q.groups ==>
                  after.ledger.flows[f] == Plus(Get(q.ledger.flows, f), Dropped(reason, |q.groups[f].members|)))
            && (f in q.ledger.flows && !(f in flows && f in q.groups) ==> after.ledger.flows[f] == q.ledger.flows[f])
  {
    hide Sum, Lens, Plus, Dropped, Get;
  }

  lemma DropOneMoreFlows(q: Queue, flows: set<u16>, flow: u16, reason: Reason)
    requires flow !in flows
    ensures DropAll(q, flows + {flow}, reason).ledger.flows
         == DropFlow(DropAll(q, flows, reason), flow, reason).ledger.flows
  {
    hide Sum, Lens, Plus, Dropped, DropAll;
    var all := DropAll(q, flows + {flow}, reason).ledger.flows;
    var one := DropFlow(DropAll(q, flows, reason), flow, reason).ledger.flows;
    forall f: u16
      ensures (f in all <==> f in one) && (f in all ==> all[f] == one[f])
    {
      DropAllAt(q, flows, reason, f);
      DropAllAt(q, flows, reason, flow);
      DropAllAt(q, flows + {flow}, reason, f);
    }
  }

  lemma DropOneMore(q: Queue, flows: set<u16>, flow: u16, reason: Reason)
    requires flow !in flows
    ensures DropAll(q, flows + {flow}, reason) == DropFlow(DropAll(q, flows, reason), flow, reason)
  {
    DropOneMoreTotal(q, flows, flow, reason);
    DropOneMoreFlows(q, flows, flow, reason);
    hide Sum, Lens, Plus, Dropped, Note, Get;
    var so, all := DropAll(q, flows, reason), DropAll(q, flows + {flow}, reason);
    assert all.groups == so.groups - {flow};
    assert flow !in q.groups ==> so.groups - {flow} == so.groups;
  }

  /* ------------------------------------ Groups ------------------------------------- */

  ghost function Size(members: seq<Datagram>): nat {
    if members == [] then 0 else |members[0].payload| + Size(members[1..])
  }

  /** Every member was submitted for exactly this group, no less urgent or earlier due than it says. */
  ghost predicate MemberOk(flow: u16, group: Group, d: Datagram, maxPayload: nat) {
    && d.flow == flow && d.generation == group.generation && d.sequence == group.sequence
    && group.deadline <= d.deadline && group.priority <= d.priority && |d.payload| <= maxPayload
  }

  /**
    A group holds between one datagram and the configured number. Its recorded size covers what is
    still pending and is within the limit, unless a single oversized first datagram is all there is.
   */
  ghost predicate GroupOk(flow: u16, group: Group, config: Config, maxPayload: nat) {
    && 0 < |group.members| <= config.maxDatagramsPerGroup
    && (forall i :: 0 <= i < |group.members| ==> MemberOk(flow, group, group.members[i], maxPayload))
    && Size(group.members) <= group.payloadBytes
    && (group.payloadBytes <= config.maxGroupBytes
        || (|group.members| == 1 && group.payloadBytes == |group.members[0].payload|))
  }

  ghost predicate GroupsOk(q: Queue) {
    forall f :: f in q.groups ==> GroupOk(f, q.groups[f], q.config, q.maxPayload)
  }

  ghost predicate Inv(q: Queue) {
    && q.config.IsValid() && q.maxPayload > 0 && |q.groups| <= q.config.maxFlows
    && GroupsOk(q) && Totals(q.ledger)
  }

  /** A group's pending bytes never exceed the larger of the two limits. */
  lemma GroupBytesBounded(q: Queue, f: u16)
    requires Inv(q) && f in q.groups
    ensures Size(q.groups[f].members) <= Max(q.config.maxGroupBytes, q.maxPayload)
  {
    var group := q.groups[f];
    assert GroupOk(f, group, q.config, q.maxPayload);
    if group.payloadBytes > q.config.maxGroupBytes {
      assert MemberOk(f, group, group.members[0], q.maxPayload);
    }
  }

  lemma {:induction false} SizeAppend(members: seq<Datagram>, d: Datagram)
    ensures Size(members + [d]) == Size(members) + |d.payload|
  {
    if members == [] {
      assert [] + [d] == [d];
    } else {
      assert (members + [d])[1..] == members[1..] + [d];
      SizeAppend(members[1..], d);
    }
  }

  /** Pending datagrams plus everything the queue dropped itself. */
  ghost function Balance(q: Queue): nat {
    Pending(q) + q.ledger.total.replaced + q.ledger.total.expired + q.ledger.total.congested
  }

  lemma FewerGroups(groups: map<u16, Group>, f: u16)
    ensures |groups - {f}| <= |groups|
    ensures f in groups ==> |groups - {f}| == |groups| - 1
    ensures f in groups ==> Sum(Lens(groups)) == |groups[f].members| + Sum(Lens(groups - {f}))
  {
    if f in groups {
      assert (groups - {f}).Keys == groups.Keys - {f};
      SumRemove(Lens(groups), f);
      assert Lens(groups) - {f} == Lens(groups - {f});
    } else {
      assert groups - {f} == groups;
    }
  }

  lemma MoreGroups(groups: map<u16, Group>, f: u16, group: Group)
    requires f !in groups
    ensures |groups[f := group]| == |groups| + 1
    ensures Sum(Lens(groups[f := group])) == |group.members| + Sum(Lens(groups))
  {
    assert groups[f := group].Keys == groups.Keys + {f};
    SumAdd(Lens(groups), f, |group.members|);
    assert Lens(groups[f := group]) == Lens(groups)[f := |group.members|];
  }

  lemma SameGroups(groups: map<u16, Group>, f: u16, group: Group)
    requires f in groups
    ensures |groups[f := group]| == |groups|
    ensures Sum(Lens(groups[f := group])) + |groups[f].members| == |group.members| + Sum(Lens(groups))
  {
    assert groups[f := group].Keys == groups.Keys;
    SumUpdate(Lens(groups), f, |group.members|);
    assert Lens(groups[f := group]) == Lens(groups)[f := |group.members|];
  }

  /* ---------------------------------- Operations ----------------------------------- */

  lemma DropFlowKeeps(q: Queue, flow: u16, reason: Reason)
    requires Inv(q)
    ensures Inv(DropFlow(q, flow, reason)) && Balance(DropFlow(q, flow, reason)) == Balance(q)
  {
    hide GroupOk, Totals, Sum, Lens, Note;
    if flow in q.groups {
      FewerGroups(q.groups, flow);
      NoteKeepsTotals(q.ledger, flow, Dropped(reason, |q.groups[flow].members|));
      NoteTotal(q.ledger, flow, Dropped(reason, |q.groups[flow].members|));
    }
  }

  lemma NoteTotal(ledger: Ledger, flow: u16, delta: Counts)
    ensures Note(ledger, flow, delta).total == Plus(ledger.total, delta)
  {
  }

  lemma {:induction false} DropAllKeeps(q: Queue, flows: set<u16>, reason: Reason)
    requires Inv(q)
    ensures Inv(DropAll(q, flows, reason)) && Balance(DropAll(q, flows, reason)) == Balance(q)
  {
    hide Inv, DropAll, DropFlow, Balance;
    if flows == {} {
      DropNone(q, reason);
    } else {
      var f :| f in flows;
      DropAllKeeps(q, flows - {f}, reason);
      assert flows - {f} + {f} == flows;
      DropOneMore(q, flows - {f}, f, reason);
      DropFlowKeeps(DropAll(q, flows - {f}, reason), f, reason);
    }
  }

  lemma ExpireKeeps(q: Queue, now: nat)
    requires Inv(q)
    ensures var live := Expire(q, now);
            && Inv(live) && Balance(live) == Balance(q) && live.config == q.config && live.maxPayload == q.maxPayload
            && (forall f :: f in live.groups ==> f in q.groups && live.groups[f] == q.groups[f])
            && (forall f :: f in live.groups ==> live.groups[f].deadline > now)
  {
    hide Inv, Balance;
    DropAllKeeps(q, Due(q, now), Expired);
  }

  lemma RefuseKeeps(q: Queue, flow: u16, reason: Reason)
    requires Inv(q)
    ensures Inv(Refuse(q, flow, reason)) && Balance(Refuse(q, flow, reason)) == Balance(q) + 1
  {
    NoteKeepsTotals(q.ledger, flow, Dropped(reason, 1));
  }

  lemma FirstMember(q: Queue, d: Datagram)
    requires |d.payload| <= q.maxPayload && q.config.IsValid()
    ensures GroupOk(d.flow, Group(d.generation, d.sequence, d.deadline, d.priority, [d], |d.payload|, q.nextOrder),
                    q.config, q.maxPayload)
  {
    assert Size([d]) == |d.payload| + Size([]) by {
      assert [d][1..] == [];
    }
  }

  lemma InsertKeeps(q: Queue, d: Datagram)
    requires Inv(q) && |d.payload| <= q.maxPayload && (d.flow in q.groups || |q.groups| < q.config.maxFlows)
    ensures Inv(Insert(q, d)) && Balance(Insert(q, d)) == Balance(q) + 1
  {
    hide GroupOk, Totals, Sum, Lens, Note;
    DropFlowKeeps(q, d.flow, Replaced);
    var cleared := DropFlow(q, d.flow, Replaced);
    FewerGroups(q.groups, d.flow);
    FirstMember(q, d);
    MoreGroups(cleared.groups, d.flow,
               Group(d.generation, d.sequence, d.deadline, d.priority, [d], |d.payload|, q.nextOrder));
    NoteKeepsTotals(cleared.ledger, d.flow, QUEUED);
    NoteTotal(cleared.ledger, d.flow, QUEUED);
  }

  lemma ExtendKeeps(flow: u16, group: Group, d: Datagram, config: Config, maxPayload: nat)
    requires GroupOk(flow, group, config, maxPayload) && |d.payload| <= maxPayload
    requires d.flow == flow && d.generation == group.generation && d.sequence == group.sequence
    requires |group.members| < config.maxDatagramsPerGroup && group.payloadBytes + |d.payload| <= config.maxGroupBytes
    ensures GroupOk(flow, Extend(group, d), config, maxPayload)
  {
    SizeAppend(group.members, d);
    var longer := Extend(group, d);
    forall i | 0 <= i < |longer.members|
      ensures MemberOk(flow, longer, longer.members[i], maxPayload)
    {
      if i < |group.members| {
        assert MemberOk(flow, group, group.members[i], maxPayload);
      }
    }
  }

  lemma AppendKeeps(q: Queue, d: Datagram)
    requires Inv(q) && |d.payload| <= q.maxPayload && d.flow in q.groups
    requires CompareGroup(d.generation, d.sequence, q.groups[d.flow].generation, q.groups[d.flow].sequence) == Same
    ensures Inv(Append(q, d).0)
    ensures Balance(Append(q, d).0) == Balance(q) + if Append(q, d).1.Ok? then 1 else 0
  {
    hide GroupOk, Totals, Sum, Lens, Note;
    var group := q.groups[d.flow];
    FewerGroups(q.groups, d.flow);
    SameGroups(q.groups, d.flow, Extend(group, d));
    NoteKeepsTotals(q.ledger, d.flow, QUEUED);
    NoteTotal(q.ledger, d.flow, QUEUED);
    NoteKeepsTotals(q.ledger, d.flow, Dropped(Congested, |group.members| + 1));
    NoteTotal(q.ledger, d.flow, Dropped(Congested, |group.members| + 1));
    assert GroupOk(d.flow, group, q.config, q.maxPayload);
    if |group.members| < q.config.maxDatagramsPerGroup && group.payloadBytes + |d.payload| <= q.config.maxGroupBytes {
      ExtendKeeps(d.flow, group, d, q.config, q.maxPayload);
    }
  }

  /** Every accepted call adds one to the books, whatever became of its datagram. */
  lemma EnqueueKeeps(q: Queue, d: Datagram, now: nat)
    requires Inv(q)
    ensures var (after, r) := Enqueue(q, d, now);
            Inv(after) && Balance(after) == Balance(q) + if r.Ok? then 1 else 0
  {
    hide Inv, Balance, Expire, Insert, Append, Refuse, DropFlow, Least, VictimRanks;
    ExpireKeeps(q, now);
    var live := Expire(q, now);
    if |d.payload| <= live.maxPayload {
      if d.deadline <= now {
        RefuseKeeps(live, d.flow, Expired);
      } else if d.flow in live.groups {
        var order := CompareGroup(d.generation, d.sequence, live.groups[d.flow].generation, live.groups[d.flow].sequence);
        if order == Older {
          RefuseKeeps(live, d.flow, Congested);
        } else if order == Same {
          AppendKeeps(live, d);
        } else {
          InsertKeeps(live, d);
        }
      } else if |live.groups| < live.config.maxFlows {
        InsertKeeps(live, d);
      } else {
        RefuseKeeps(live, d.flow, Congested);
        if Least(VictimRanks(live, d.priority)).Some? {
          var victim := Least(VictimRanks(live, d.priority)).value;
          VictimPending(live, d.priority);
          DropFlowKeeps(live, victim, Congested);
          VictimMakesRoom(live, victim);
          InsertKeeps(DropFlow(live, victim, Congested), d);
        }
      }
    }
  }

  lemma VictimMakesRoom(q: Queue, victim: u16)
    requires Inv(q) && victim in q.groups
    ensures var after := DropFlow(q, victim, Congested);
            |after.groups| < after.config.maxFlows && after.maxPayload == q.maxPayload
  {
    FewerGroups(q.groups, victim);
  }

  lemma LeastIsLeast(ranks: map<u16, Rank>)
    requires Least(ranks).Some?
    ensures IsLeast(ranks, Least(ranks).value)
  {
  }

  lemma VictimPending(q: Queue, incoming: Priority)
    requires Least(VictimRanks(q, incoming)).Some?
    ensures Least(VictimRanks(q, incoming)).value in q.groups
    ensures q.groups[Least(VictimRanks(q, incoming)).value].priority > incoming
  {
    LeastIsLeast(VictimRanks(q, incoming));
  }

  lemma RestKeeps(flow: u16, group: Group, config: Config, maxPayload: nat)
    requires GroupOk(flow, group, config, maxPayload) && |group.members| > 1
    ensures GroupOk(flow, group.(members := group.members[1..]), config, maxPayload)
  {
    var shorter := group.(members := group.members[1..]);
    forall i | 0 <= i < |shorter.members|
      ensures MemberOk(flow, shorter, shorter.members[i], maxPayload)
    {
      assert MemberOk(flow, group, group.members[i + 1], maxPayload);
    }
  }

  lemma PopFlowKeeps(q: Queue, flow: u16)
    requires Inv(q)
    ensures var (after, d) := PopFlow(q, flow);
            Inv(after) && Balance(after) + (if d.Some? then 1 else 0) == Balance(q)
  {
    hide GroupOk, Totals, Sum, Lens;
    if flow in q.groups && q.groups[flow].members != [] {
      var group := q.groups[flow];
      FewerGroups(q.groups, flow);
      SameGroups(q.groups, flow, group.(members := group.members[1..]));
      assert GroupOk(flow, group, q.config, q.maxPayload);
      if |group.members| > 1 {
        RestKeeps(flow, group, q.config, q.maxPayload);
      }
    }
  }

  lemma PopChosenKeeps(q: Queue, chosen: Option<u16>)
    requires Inv(q)
    ensures var (after, d) := PopChosen(q, chosen);
            Inv(after) && Balance(after) + (if d.Some? then 1 else 0) == Balance(q)
  {
    hide Inv, Balance, PopFlow;
    if chosen.Some? {
      PopFlowKeeps(q, chosen.value);
    }
  }

  lemma NoteSentKeeps(q: Queue, flow: u16, payload: Bytes)
    requires Inv(q)
    ensures Inv(NoteSent(q, flow, payload)) && Balance(NoteSent(q, flow, payload)) == Balance(q)
  {
    NoteKeepsTotals(q.ledger, flow, ZERO.(sent := 1, sentBytes := |payload|));
  }

  lemma ClearKeeps(q: Queue)
    requires Inv(q)
    ensures Inv(ClearPending(q)) && Balance(ClearPending(q)) + Pending(q) == Balance(q)
  {
    assert Lens(ClearPending(q).groups) == map[];
  }

  /** Shrinking the limit drops every group with a datagram that no longer fits. */
  lemma SetMaxPayloadKeeps(q: Queue, maxPayload: nat)
    requires Inv(q)
    ensures var (after, r) := SetMaxPayload(q, maxPayload);
            Inv(after) && Balance(after) == Balance(q)
  {
    if maxPayload > 0 && maxPayload < q.maxPayload {
      DropAllKeeps(q, Oversized(q, maxPayload), Congested);
      var dropped := DropAll(q, Oversized(q, maxPayload), Congested);
      hide Totals, Sum, Lens;
      assert SetMaxPayload(q, maxPayload).0 == dropped.(maxPayload := maxPayload);
      forall f | f in dropped.groups
        ensures GroupOk(f, dropped.groups[f], q.config, maxPayload)
      {
        var group := dropped.groups[f];
        assert GroupOk(f, group, q.config, q.maxPayload);
        assert !AnyLonger(group.members, maxPayload);
        forall i | 0 <= i < |group.members|
          ensures MemberOk(f, group, group.members[i], maxPayload)
        {
          assert MemberOk(f, group, group.members[i], q.maxPayload);
        }
      }
    } else if maxPayload > q.maxPayload {
      RaiseLimit(q, maxPayload);
    }
  }

  lemma RaiseLimit(q: Queue, maxPayload: nat)
    requires Inv(q) && maxPayload > q.maxPayload
    ensures Inv(q.(maxPayload := maxPayload))
  {
    forall f | f in q.groups
      ensures GroupOk(f, q.groups[f], q.config, maxPayload)
    {
      var group := q.groups[f];
      assert GroupOk(f, group, q.config, q.maxPayload);
      forall i | 0 <= i < |group.members|
        ensures MemberOk(f, group, group.members[i], maxPayload)
      {
        assert MemberOk(f, group, group.members[i], q.maxPayload);
      }
    }
  }
}
