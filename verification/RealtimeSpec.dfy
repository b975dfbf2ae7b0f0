/**
  The realtime latest-only send queue as a value (`realtime.rs`). A group here keeps the submitted
  datagrams and the ledger counts without a ceiling; class `RealtimeSendQueue` keeps payloads and
  saturating counters, and is proved to be this queue seen through `Payloads` and `Capped`.
 */
module RealtimeSpec {
  import opened Base
  import opened Sums

  const HEADER_LEN: nat := 20

  /** Critical, high, normal, disposable: the smaller, the more urgent. */
  type Priority = p: int | 0 <= p < 4
  const DISPOSABLE: Priority := 3

  datatype Datagram = Datagram(
    flow: u16, generation: u32, sequence: u64, deadline: nat, priority: Priority, payload: Bytes)

  datatype Config = Config(maxFlows: nat, maxDatagramsPerGroup: nat, maxGroupBytes: nat) {
    predicate IsValid() { maxFlows > 0 && maxDatagramsPerGroup > 0 && maxGroupBytes > 0 }
  }

  /* ------------------------------- Serial numbers -------------------------------- */

  /** Serial number arithmetic: ahead by less than half the range. */
  predicate IsNewer(candidate: nat, current: nat, range: nat)
    requires range > 0
  {
    var difference := (candidate - current) % range;
    difference != 0 && difference < range / 2
  }

  const SPAN32: nat := 0x1_0000_0000
  const SPAN64: nat := 0x1_0000_0000_0000_0000

  datatype GroupOrder = Older | Same | Newer

  function CompareGroup(generation: u32, sequence: u64, currentGeneration: u32, currentSequence: u64): GroupOrder {
    if generation == currentGeneration then
      if sequence == currentSequence then Same
      else if IsNewer(sequence, currentSequence, SPAN64) then Newer else Older
    else if IsNewer(generation, currentGeneration, SPAN32) then Newer else Older
  }

  /* ----------------------------------- Ledger ------------------------------------ */

  datatype Counts = Counts(queued: nat, sent: nat, sentBytes: nat, replaced: nat, expired: nat, congested: nat)

  const ZERO: Counts := Counts(0, 0, 0, 0, 0, 0)

  function Plus(a: Counts, b: Counts): Counts {
    Counts(a.queued + b.queued, a.sent + b.sent, a.sentBytes + b.sentBytes, a.replaced + b.replaced,
           a.expired + b.expired, a.congested + b.congested)
  }

  datatype Reason = Replaced | Expired | Congested

  function Dropped(reason: Reason, n: nat): Counts {
    match reason
    case Replaced => ZERO.(replaced := n)
    case Expired => ZERO.(expired := n)
    case Congested => ZERO.(congested := n)
  }

  const QUEUED: Counts := ZERO.(queued := 1)

  datatype Ledger = Ledger(total: Counts, flows: map<u16, Counts>)

  function Get(flows: map<u16, Counts>, flow: u16): Counts {
    if flow in flows then flows[flow] else ZERO
  }

  function Note(ledger: Ledger, flow: u16, delta: Counts): Ledger {
    Ledger(Plus(ledger.total, delta), ledger.flows[flow := Plus(Get(ledger.flows, flow), delta)])
  }

  /** The per-flow statistics added up. */
  ghost function Total(flows: map<u16, Counts>): Counts {
    if flows == map[] then ZERO
    else
      var f :| f in flows;
      Plus(flows[f], Total(flows - {f}))
  }

  /** Saturating 64-bit statistics, for the queue and for each flow. */
  datatype Telemetry = Telemetry(
    queued: u64, sent: u64, sentBytes: u64, replaced: u64, expired: u64, congestionDropped: u64)

  /** What saturating counters show of true counts. */
  function Capped(c: Counts): Telemetry {
    Telemetry(Min(c.queued, U64_MAX), Min(c.sent, U64_MAX), Min(c.sentBytes, U64_MAX), Min(c.replaced, U64_MAX),
              Min(c.expired, U64_MAX), Min(c.congested, U64_MAX))
  }

  /** The six statistics as a row, so that they can be spoken of alike. */
  function Row(c: Counts): (r: seq<nat>)
    ensures |r| == 6
  {
    [c.queued, c.sent, c.sentBytes, c.replaced, c.expired, c.congested]
  }

  function ShownRow(t: Telemetry): (r: seq<u64>)
    ensures |r| == 6
  {
    [t.queued, t.sent, t.sentBytes, t.replaced, t.expired, t.congestionDropped]
  }

  /* ------------------------------------ Queue ------------------------------------ */

  datatype Group = Group(
    generation: u32, sequence: u64, deadline: nat, priority: Priority, members: seq<Datagram>, payloadBytes: nat,
    insertionOrder: u64)

  datatype Queue = Queue(
    config: Config, maxPayload: nat, groups: map<u16, Group>, ledger: Ledger, nextOrder: u64)

  /** What a group keeps of its datagrams. */
  function Payloads(members: seq<Datagram>): (r: seq<Bytes>)
    ensures |r| == |members|
  {
    seq(|members|, i requires 0 <= i < |members| => members[i].payload)
  }

  datatype SendOutcome = Enqueued | ReplacedOlder | DroppedExpired | DroppedCongested
  datatype SendError = MessageTooLarge | SizeOverflow

  function New(config: Config, maxPayload: nat): Option<Queue> {
    if !config.IsValid() || maxPayload == 0 then None
    else Some(Queue(config, maxPayload, map[], Ledger(ZERO, map[]), 0))
  }

  ghost function Lens(groups: map<u16, Group>): map<u16, nat> {
    map f | f in groups :: |groups[f].members|
  }

  ghost function Pending(q: Queue): nat { Sum(Lens(q.groups)) }

  function DropFlow(q: Queue, flow: u16, reason: Reason): Queue {
    if flow !in q.groups then q
    else q.(groups := q.groups - {flow}, ledger := Note(q.ledger, flow, Dropped(reason, |q.groups[flow].members|)))
  }

  /** Dropping several flows at once; the order in which a loop meets them does not matter. */
  ghost function DropAll(q: Queue, flows: set<u16>, reason: Reason): Queue {
    var gone := flows * q.groups.Keys;
    q.(groups := q.groups - flows,
       ledger := Ledger(
         Plus(q.ledger.total, Dropped(reason, Sum(Lens(map f | f in gone :: q.groups[f])))),
         map f | f in q.ledger.flows.Keys + gone ::
           if f in gone then Plus(Get(q.ledger.flows, f), Dropped(reason, |q.groups[f].members|))
           else q.ledger.flows[f]))
  }

  ghost function Due(q: Queue, now: nat): set<u16> {
    set f | f in q.groups && q.groups[f].deadline <= now
  }

  ghost function Expire(q: Queue, now: nat): Queue {
    DropAll(q, Due(q, now), Expired)
  }

  /* ------------------------------ Choosing one flow ------------------------------- */

  /** Compared field by field; `last` is the flow, so two flows never tie. */
  datatype Rank = Rank(major: nat, minor: nat, last: nat) {
    predicate Less(other: Rank) {
      || major < other.major
      || (major == other.major && (minor < other.minor || (minor == other.minor && last < other.last)))
    }
  }

  ghost predicate IsLeast(ranks: map<u16, Rank>, f: u16) {
    f in ranks && forall g :: g in ranks && g != f ==> ranks[f].Less(ranks[g])
  }

  ghost function Least(ranks: map<u16, Rank>): Option<u16> {
    if exists f :: IsLeast(ranks, f) then
      var f :| IsLeast(ranks, f);
      Some(f)
    else None
  }

  /** Most urgent first, then oldest group, then smallest flow. */
  function ServiceRank(group: Group, f: u16): Rank { Rank(group.priority, group.insertionOrder, f) }

  /** Least urgent first, then oldest group; of equals the iteration keeps the last flow. */
  function VictimRank(group: Group, f: u16): Rank { Rank(3 - group.priority, group.insertionOrder, U16_MAX - f) }

  function ServiceRanks(q: Queue): map<u16, Rank> {
    map f | f in q.groups :: ServiceRank(q.groups[f], f)
  }

  function VictimRanks(q: Queue, incoming: Priority): map<u16, Rank> {
    map f | f in q.groups && q.groups[f].priority > incoming :: VictimRank(q.groups[f], f)
  }

  predicate Fits(group: Group, maxWireLen: nat) {
    group.members != [] && HEADER_LEN + |group.members[0].payload| <= maxWireLen
  }

  predicate IsTop(q: Queue, priority: Priority) {
    forall f :: f in q.groups ==> priority <= q.groups[f].priority
  }

  function FittingRanks(q: Queue, maxWireLen: nat): map<u16, Rank> {
    map f | f in q.groups && IsTop(q, q.groups[f].priority) && Fits(q.groups[f], maxWireLen)
      :: ServiceRank(q.groups[f], f)
  }

  /* --------------------------------- Operations ----------------------------------- */

  function NextOrder(order: u64): u64 { if order == U64_MAX then 0 else order + 1 }

  function Insert(q: Queue, d: Datagram): Queue {
    var cleared := DropFlow(q, d.flow, Replaced);
    var group := Group(d.generation, d.sequence, d.deadline, d.priority, [d], |d.payload|, q.nextOrder);
    cleared.(groups := cleared.groups[d.flow := group],
             ledger := Note(cleared.ledger, d.flow, QUEUED),
             nextOrder := NextOrder(q.nextOrder))
  }

  function Extend(group: Group, d: Datagram): Group {
    Group(group.generation, group.sequence, Min(group.deadline, d.deadline), Min(group.priority, d.priority),
          group.members + [d], group.payloadBytes + |d.payload|, group.insertionOrder)
  }

  /** A group past its limits is dropped whole, the arriving datagram with it. */
  function Overflow(q: Queue, flow: u16, members: nat): Queue {
    q.(groups := q.groups - {flow}, ledger := Note(q.ledger, flow, Dropped(Congested, members + 1)))
  }

  function Join(q: Queue, flow: u16, group: Group): Queue {
    q.(groups := q.groups[flow := group], ledger := Note(q.ledger, flow, QUEUED))
  }

  function Append(q: Queue, d: Datagram): (Queue, Result<SendOutcome, SendError>)
    requires d.flow in q.groups
  {
    var group := q.groups[d.flow];
    var bytes := group.payloadBytes + |d.payload|;
    if bytes > USIZE_MAX then (q, Err(SizeOverflow))
    else if |group.members| >= q.config.maxDatagramsPerGroup || bytes > q.config.maxGroupBytes then
      (Overflow(q, d.flow, |group.members|), Ok(DroppedCongested))
    else
      (Join(q, d.flow, Extend(group, d)), Ok(Enqueued))
  }

  function Refuse(q: Queue, flow: u16, reason: Reason): Queue {
    q.(ledger := Note(q.ledger, flow, Dropped(reason, 1)))
  }

  /** Admission once expired groups are gone. */
  ghost function Admit(q: Queue, d: Datagram, now: nat): (Queue, Result<SendOutcome, SendError>) {
    if |d.payload| > q.maxPayload then (q, Err(MessageTooLarge))
    else if d.deadline <= now then (Refuse(q, d.flow, Expired), Ok(DroppedExpired))
    else if d.flow in q.groups then
      match CompareGroup(d.generation, d.sequence, q.groups[d.flow].generation, q.groups[d.flow].sequence)
      case Older => (Refuse(q, d.flow, Congested), Ok(DroppedCongested))
      case Same => Append(q, d)
      case Newer => (Insert(q, d), Ok(if q.groups[d.flow].members != [] then ReplacedOlder else Enqueued))
    else if |q.groups| < q.config.maxFlows then (Insert(q, d), Ok(Enqueued))
    else
      match Least(VictimRanks(q, d.priority))
      case None => (Refuse(q, d.flow, Congested), Ok(DroppedCongested))
      case Some(victim) => (Insert(DropFlow(q, victim, Congested), d), Ok(Enqueued))
  }

  ghost function Enqueue(q: Queue, d: Datagram, now: nat): (Queue, Result<SendOutcome, SendError>) {
    Admit(Expire(q, now), d, now)
  }

  /** Takes the head of a flow's group; it leaves with the group's deadline and priority. */
  function PopFlow(q: Queue, flow: u16): (Queue, Option<Datagram>) {
    if flow !in q.groups || q.groups[flow].members == [] then (q, None)
    else
      var group := q.groups[flow];
      var rest := group.members[1..];
      var d := Datagram(flow, group.generation, group.sequence, group.deadline, group.priority,
                        group.members[0].payload);
      (q.(groups := if rest == [] then q.groups - {flow} else q.groups[flow := group.(members := rest)]), Some(d))
  }

  function PopChosen(q: Queue, chosen: Option<u16>): (Queue, Option<Datagram>) {
    if chosen.None? then (q, None) else PopFlow(q, chosen.value)
  }

  ghost function PopNext(q: Queue, now: nat): (Queue, Option<Datagram>) {
    var live := Expire(q, now);
    PopChosen(live, Least(ServiceRanks(live)))
  }

  ghost function PopNextFitting(q: Queue, now: nat, maxWireLen: nat): (Queue, Option<Datagram>) {
    var live := Expire(q, now);
    PopChosen(live, Least(FittingRanks(live, maxWireLen)))
  }

  ghost function PeekNextWireLen(q: Queue, now: nat): (Queue, Option<nat>) {
    var live := Expire(q, now);
    var chosen := Least(ServiceRanks(live));
    (live,
     if chosen.Some? && chosen.value in live.groups && live.groups[chosen.value].members != []
     then Some(HEADER_LEN + |live.groups[chosen.value].members[0].payload|) else None)
  }

  function NoteSent(q: Queue, flow: u16, payload: Bytes): Queue {
    q.(ledger := Note(q.ledger, flow, ZERO.(sent := 1, sentBytes := |payload|)))
  }

  ghost function Disposable(q: Queue): set<u16> {
    set f | f in q.groups && q.groups[f].priority == DISPOSABLE
  }

  ghost function DropDisposable(q: Queue): Queue {
    DropAll(q, Disposable(q), Congested)
  }

  predicate AnyLonger(members: seq<Datagram>, limit: nat) {
    exists i :: 0 <= i < |members| && |members[i].payload| > limit
  }

  ghost function Oversized(q: Queue, limit: nat): set<u16> {
    set f | f in q.groups && AnyLonger(q.groups[f].members, limit)
  }

  /** `None` for the refused zero limit, otherwise whether the limit changed. */
  ghost function SetMaxPayload(q: Queue, maxPayload: nat): (Queue, Option<bool>) {
    if maxPayload == 0 then (q, None)
    else if maxPayload == q.maxPayload then (q, Some(false))
    else
      var changed := q.(maxPayload := maxPayload);
      (if maxPayload < q.maxPayload then DropAll(changed, Oversized(q, maxPayload), Congested) else changed,
       Some(true))
  }

  function ClearPending(q: Queue): Queue { q.(groups := map[]) }

  /* ------------------------------ Choosing, established ---------------------------- */

  lemma RanksTotal(a: Rank, b: Rank)
    ensures a.Less(b) || b.Less(a) || a == b
  {
  }

  lemma {:induction false} HasLeast(ranks: map<u16, Rank>)
    requires ranks != map[]
    requires forall f, g :: f in ranks && g in ranks && f != g ==> ranks[f] != ranks[g]
    ensures exists f :: IsLeast(ranks, f)
    decreases |ranks|
  {
    var x :| x in ranks;
    var rest := ranks - {x};
    if rest == map[] {
      assert forall g :: g in ranks ==> g == x || g in rest;
      assert IsLeast(ranks, x);
    } else {
      assert |rest| < |ranks| by {
        assert rest.Keys == ranks.Keys - {x};
      }
      HasLeast(rest);
      var y :| IsLeast(rest, y);
      assert forall g :: g in ranks ==> g == x || g in rest;
      RanksTotal(ranks[x], ranks[y]);
      assert IsLeast(ranks, if ranks[x].Less(ranks[y]) then x else y);
    }
  }

  lemma LeastIs(ranks: map<u16, Rank>, f: u16)
    requires IsLeast(ranks, f)
    ensures Least(ranks) == Some(f)
  {
  }

  /** A pending queue always has a next flow to serve. */
  lemma ServiceChosen(q: Queue)
    requires q.groups != map[]
    ensures Least(ServiceRanks(q)).Some? && IsLeast(ServiceRanks(q), Least(ServiceRanks(q)).value)
  {
    var f :| f in q.groups;
    assert f in ServiceRanks(q);
    HasLeast(ServiceRanks(q));
  }

  lemma VictimChosen(q: Queue, incoming: Priority, f: u16)
    requires f in q.groups && q.groups[f].priority > incoming
    ensures Least(VictimRanks(q, incoming)).Some?
    ensures IsLeast(VictimRanks(q, incoming), Least(VictimRanks(q, incoming)).value)
  {
    assert f in VictimRanks(q, incoming);
    HasLeast(VictimRanks(q, incoming));
  }

  lemma FittingChosen(q: Queue, maxWireLen: nat, f: u16)
    requires f in FittingRanks(q, maxWireLen)
    ensures Least(FittingRanks(q, maxWireLen)).Some?
    ensures IsLeast(FittingRanks(q, maxWireLen), Least(FittingRanks(q, maxWireLen)).value)
  {
    HasLeast(FittingRanks(q, maxWireLen));
  }
}
