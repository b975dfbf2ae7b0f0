/** The fragmenting sender and the reassembler as the imperative code runs them (`fragment.rs`). */
module Fragments {
  import opened Base
  import opened Wire
  import opened FragmentSpec
  import opened FragmentCover

  /* ----------------------------------- Sending ----------------------------------- */

  datatype SendOutcome = Enqueued | ReplacedOlder | DroppedExpired | DroppedCongested | Unsupported

  datatype BindingError = PayloadLimit | DatagramsUnsupported | LinkError

  datatype FragmentBatchOutcome = FragmentBatchOutcome(
    fragments: nat, enqueued: nat, replaced: nat, expired: nat, congested: nat)

  const NOTHING_SENT: FragmentBatchOutcome := FragmentBatchOutcome(0, 0, 0, 0, 0)

  /** The link's answers that let the sender go on to the next fragment. */
  predicate Continues(answer: Option<SendOutcome>) {
    answer == Some(Enqueued) || answer == Some(ReplacedOlder)
  }

  function CountOf(answers: seq<Option<SendOutcome>>, outcome: SendOutcome): nat {
    if answers == [] then 0
    else CountOf(answers[..|answers| - 1], outcome) + (if answers[|answers| - 1] == Some(outcome) then 1 else 0)
  }

  function Tally(answers: seq<Option<SendOutcome>>): FragmentBatchOutcome {
    FragmentBatchOutcome(|answers|, CountOf(answers, Enqueued), CountOf(answers, ReplacedOlder),
                         CountOf(answers, DroppedExpired), CountOf(answers, DroppedCongested))
  }

  /** What the caller learns from the answers to the datagrams that were offered. */
  function Verdict(answers: seq<Option<SendOutcome>>): Result<FragmentBatchOutcome, BindingError> {
    if answers != [] && answers[|answers| - 1] == None then Err(LinkError)
    else if answers != [] && answers[|answers| - 1] == Some(Unsupported) then Err(DatagramsUnsupported)
    else Ok(Tally(answers))
  }

  /** Why nothing is sent at all, or the chunk size to cut with. */
  function ChunkSize(payload: Bytes, config: BindingConfig, maxPayload: Option<nat>): (r: Result<nat, BindingError>)
    ensures r.Ok? ==> r.value > 0 && payload != [] && |payload| <= config.maxReassemblyBytes
    ensures r.Ok? ==> FragmentCount(|payload|, r.value) <= Min(config.maxFragments, U16_MAX)
    ensures r.Ok? ==> maxPayload == Some(HEADER_LEN + r.value)
  {
    if payload == [] || |payload| > config.maxReassemblyBytes then Err(PayloadLimit)
    else if maxPayload.None? then Err(DatagramsUnsupported)
    else if maxPayload.value <= HEADER_LEN then Err(PayloadLimit)
    else
      var chunk := maxPayload.value - HEADER_LEN;
      if FragmentCount(|payload|, chunk) > config.maxFragments || FragmentCount(|payload|, chunk) > U16_MAX
      then Err(PayloadLimit)
      else Ok(chunk)
  }

  function OffsetOf(k: nat, chunk: nat): (offset: nat)
    ensures k == 0 ==> offset == 0
  {
    k * chunk
  }

  lemma ScratchIsEncoded(payload: Bytes, chunk: nat, k: nat)
    requires Sendable(payload, chunk) && k < FragmentCount(|payload|, chunk)
    ensures var count := FragmentCount(|payload|, chunk);
            var offset := OffsetOf(k, chunk);
            && offset < |payload| && OffsetOf(k + 1, chunk) == offset + chunk
            && PREAMBLE + Put16(k) + Put16(count) + Put32(offset) + Put32(|payload|)
               + payload[offset..Min(offset + chunk, |payload|)] == Encode(Split(payload, chunk)[k])
            && |Encode(Split(payload, chunk)[k])| <= HEADER_LEN + chunk
  {
    hide FragmentCount, Put16, Put32;
    ChunkWithin(|payload|, chunk, k);
    FragmentEnds(payload, chunk, k);
  }

  lemma NothingTallied(answers: seq<Option<SendOutcome>>)
    ensures Tally(answers[..0]) == NOTHING_SENT
  {
  }

  lemma TallyNext(answers: seq<Option<SendOutcome>>, k: nat)
    requires k < |answers|
    ensures var so := Tally(answers[..k]);
            Tally(answers[..k + 1]) == FragmentBatchOutcome(
              so.fragments + 1,
              so.enqueued + if answers[k] == Some(Enqueued) then 1 else 0,
              so.replaced + if answers[k] == Some(ReplacedOlder) then 1 else 0,
              so.expired + if answers[k] == Some(DroppedExpired) then 1 else 0,
              so.congested + if answers[k] == Some(DroppedCongested) then 1 else 0)
  {
    assert answers[..k + 1][..k] == answers[..k];
  }

  /** The datagrams offered so far are the first fragments of the split, each within the link's limit. */
  predicate Offered(sent: seq<Bytes>, frags: seq<Fragment>, limit: nat) {
    |sent| <= |frags| && forall k :: 0 <= k < |sent| ==> sent[k] == Encode(frags[k]) && |sent[k]| <= limit
  }

  lemma OfferNext(sent: seq<Bytes>, frags: seq<Fragment>, limit: nat, next: Bytes)
    requires Offered(sent, frags, limit) && |sent| < |frags|
    requires next == Encode(frags[|sent|]) && |next| <= limit
    ensures Offered(sent + [next], frags, limit)
  {
  }

  /** Every answer but the last let the sender go on; the last one did not, unless it was the last fragment. */
  predicate StoppedWell(answers: seq<Option<SendOutcome>>, count: nat) {
    && 0 < |answers| <= count
    && (forall k :: 0 <= k < |answers| - 1 ==> Continues(answers[k]))
    && (|answers| == count || !Continues(answers[|answers| - 1]))
  }

  /** Encodes and offers one chunk after the other, refilling the scratch buffer. */
  method SendChunks(payload: Bytes, chunk: nat, answers: seq<Option<SendOutcome>>)
    returns (r: Result<FragmentBatchOutcome, BindingError>, sent: seq<Bytes>)
    requires Sendable(payload, chunk) && FragmentCount(|payload|, chunk) <= |answers|
    ensures Offered(sent, Split(payload, chunk), HEADER_LEN + chunk) && |sent| <= |answers|
    ensures StoppedWell(answers[..|sent|], |Split(payload, chunk)|) && r == Verdict(answers[..|sent|])
  {
    hide FragmentCount, Split, Encode, Tally, Offered, Put16, Put32, OffsetOf;
    SomeFragments(|payload|, chunk);
    var count := FragmentCount(|payload|, chunk);
    ghost var frags := Split(payload, chunk);
    var aggregate := NOTHING_SENT;
    var scratch: Bytes;
    NothingTallied(answers);
    sent := [];
    NothingOffered(frags, HEADER_LEN + chunk);
    var index, offset := 0, 0;
    while index < count
      invariant 0 <= index <= count && offset == OffsetOf(index, chunk) && |sent| == index
      invariant Offered(sent, frags, HEADER_LEN + chunk)
      invariant aggregate == Tally(answers[..index])
      invariant forall k :: 0 <= k < index ==> Continues(answers[k])
    {
      ScratchIsEncoded(payload, chunk, index);
      TallyNext(answers, index);
      scratch := PREAMBLE + Put16(index) + Put16(count) + Put32(offset) + Put32(|payload|)
                 + payload[offset..Min(offset + chunk, |payload|)];
      OfferNext(sent, frags, HEADER_LEN + chunk, scratch);
      sent := sent + [scratch];
      var answer := answers[index];
      aggregate := aggregate.(fragments := aggregate.fragments + 1);
      if answer.None? {
        return Err(LinkError), sent;
      } else if answer.value.Enqueued? {
        aggregate := aggregate.(enqueued := aggregate.enqueued + 1);
      } else if answer.value.ReplacedOlder? {
        aggregate := aggregate.(replaced := aggregate.replaced + 1);
      } else if answer.value.DroppedExpired? {
        aggregate := aggregate.(expired := aggregate.expired + 1);
        return Ok(aggregate), sent;
      } else if answer.value.DroppedCongested? {
        aggregate := aggregate.(congested := aggregate.congested + 1);
        return Ok(aggregate), sent;
      } else {
        return Err(DatagramsUnsupported), sent;
      }
      index, offset := index + 1, offset + chunk;
    }
    return Ok(aggregate), sent;
  }

  lemma NothingOffered(frags: seq<Fragment>, limit: nat)
    ensures Offered([], frags, limit)
  {
  }

  /**
    Sending: `answers` is what the link will say to each datagram (`None` for a link error). The
    sender offers the encoded fragments in order and stops at the first answer that is not a
    success.
   */
  method SendFragmented(
    payload: Bytes, config: BindingConfig, maxPayload: Option<nat>, answers: seq<Option<SendOutcome>>)
    returns (r: Result<FragmentBatchOutcome, BindingError>, sent: seq<Bytes>)
    requires |payload| <= |answers|
    ensures var size := ChunkSize(payload, config, maxPayload);
            && (size.Err? ==> r == Err(size.error) && sent == [])
            && (size.Ok? && |payload| > U32_MAX ==> r == Err(PayloadLimit) && sent == [])
            && (size.Ok? && |payload| <= U32_MAX ==>
                  && Offered(sent, Split(payload, size.value), maxPayload.value) && |sent| <= |answers|
                  && StoppedWell(answers[..|sent|], |Split(payload, size.value)|)
                  && r == Verdict(answers[..|sent|]))
  {
    hide FragmentCount, Offered, StoppedWell;
    r, sent := Err(PayloadLimit), [];
    var size := ChunkSize(payload, config, maxPayload);
    if size.Err? {
      r := Err(size.error);
    } else if |payload| <= U32_MAX {
      SomeFragments(|payload|, size.value);
      r, sent := SendChunks(payload, size.value, answers);
    }
  }

  /* ---------------------------------- Receiving ---------------------------------- */

  method InsertByOffset(sorted: seq<Range>, range: Range) returns (longer: seq<Range>)
    requires SortedByOffset(sorted)
    ensures SortedByOffset(longer) && multiset(longer) == multiset(sorted) + multiset{range}
  {
    var at := 0;
    while at < |sorted| && sorted[at].offset <= range.offset
      invariant at <= |sorted|
      invariant forall k :: 0 <= k < at ==> sorted[k].offset <= range.offset
    {
      at := at + 1;
    }
    assert sorted == sorted[..at] + sorted[at..];
    InsertedSorted(sorted, at, range);
    longer := sorted[..at] + [range] + sorted[at..];
  }

  lemma InsertedSorted(sorted: seq<Range>, at: nat, range: Range)
    requires SortedByOffset(sorted) && at <= |sorted|
    requires forall k :: 0 <= k < at ==> sorted[k].offset <= range.offset
    requires at < |sorted| ==> range.offset <= sorted[at].offset
    ensures SortedByOffset(sorted[..at] + [range] + sorted[at..])
  {
    var longer := sorted[..at] + [range] + sorted[at..];
    forall i, j | 0 <= i < j < |longer|
      ensures longer[i].offset <= longer[j].offset
    {
      assert longer[i] == if i < at then sorted[i] else if i == at then range else sorted[i - 1];
      assert longer[j] == if j < at then sorted[j] else if j == at then range else sorted[j - 1];
    }
  }

  /** Any sort by offset will do: the walk gives the same answer. */
  method SortByOffset(ranges: seq<Range>) returns (sorted: seq<Range>)
    ensures multiset(sorted) == multiset(ranges) && SortedByOffset(sorted)
  {
    sorted := [];
    for i := 0 to |ranges|
      invariant multiset(sorted) == multiset(ranges[..i]) && SortedByOffset(sorted)
    {
      sorted := InsertByOffset(sorted, ranges[i]);
      assert ranges[..i + 1] == ranges[..i] + [ranges[i]];
    }
    assert ranges[..|ranges|] == ranges;
  }

  method CopyInto(bytes: array<byte>, offset: nat, piece: Bytes)
    requires offset + |piece| <= bytes.Length
    modifies bytes
    ensures bytes[..] == Overwrite(old(bytes[..]), offset, piece)
  {
    var i := 0;
    while i < |piece|
      invariant 0 <= i <= |piece|
      invariant forall x :: offset <= x < offset + i ==> bytes[x] == piece[x - offset]
      invariant forall x :: 0 <= x < bytes.Length && !(offset <= x < offset + i) ==> bytes[x] == old(bytes[x])
    {
      bytes[offset + i] := piece[i];
      i := i + 1;
    }
  }

  class Reassembly {
    const generation: u32
    const sequence: u64
    const fragmentCount: nat
    const totalLen: nat
    const slots: array<Option<Range>>
    const bytes: array<byte>
    var received: nat

    ghost predicate Valid()
      reads this, slots
    {
      && slots.Length == fragmentCount && bytes.Length == totalLen
      && forall k :: 0 <= k < slots.Length && slots[k].Some? ==> slots[k].value.length > 0
    }

    ghost function Value(): (p: Partial)
      reads this, slots, bytes
      requires Valid()
      ensures Shaped(p)
    {
      Partial(generation, sequence, fragmentCount, totalLen, slots[..], received, bytes[..])
    }

    constructor (generation: u32, sequence: u64, first: Fragment)
      ensures Valid() && Value() == Empty(generation, sequence, first)
      ensures fresh(slots) && fresh(bytes)
    {
      this.generation, this.sequence := generation, sequence;
      fragmentCount, totalLen, received := first.count, first.totalLen, 0;
      slots := new Option<Range>[first.count](_ => None);
      bytes := new byte[first.totalLen](_ => 0);
      new;
      assert slots[..] == seq(first.count, _ => None);
      assert bytes[..] == seq(first.totalLen, _ => 0);
    }

    method Insert(fragment: Fragment) returns (ok: bool)
      requires Valid() && fragment.payload != [] && End(fragment) <= totalLen
      modifies this`received, slots, bytes
      ensures Valid()
      ensures ok == FragmentSpec.Insert(old(Value()), fragment).Some?
      ensures Value() == if ok then FragmentSpec.Insert(old(Value()), fragment).value else old(Value())
    {
      if fragment.index >= slots.Length {
        return false;
      }
      var range := RangeOf(fragment);
      var existing := slots[fragment.index];
      if existing.Some? {
        ok := existing.value == range && bytes[fragment.offset..End(fragment)] == fragment.payload;
        return;
      }
      CopyInto(bytes, fragment.offset, fragment.payload);
      slots[fragment.index] := Some(range);
      received := received + 1;
      ok := true;
      assert slots[..] == old(slots[..])[fragment.index := Some(range)];
    }

    predicate IsComplete()
      reads this
    {
      received == fragmentCount
    }

    /** Collects the slots, sorts them by offset and walks them with a cursor. */
    method Finish() returns (r: Option<Bytes>)
      requires Valid()
      ensures r == if Finishes(Value()) then Some(bytes[..]) else None
    {
      var ranges: seq<Range> := [];
      var i := 0;
      while i < slots.Length
        invariant 0 <= i <= slots.Length && |ranges| == i && NonEmpty(ranges)
        invariant forall k :: 0 <= k < i ==> slots[k] == Some(ranges[k])
      {
        if slots[i].None? {
          return None;
        }
        ranges := ranges + [slots[i].value];
        i := i + 1;
      }
      assert Filled(slots[..]) == ranges by {
        FilledAll(slots[..]);
      }
      var sorted := SortByOffset(ranges);
      SortedWalkDecidesTiling(ranges, sorted, totalLen);
      var cursor := 0;
      i := 0;
      while i < |sorted|
        invariant 0 <= i <= |sorted|
        invariant cursor >= 0 && Walk(sorted, 0) == Walk(sorted[i..], cursor)
      {
        if sorted[i].offset != cursor {
          return None;
        }
        assert sorted[i..][1..] == sorted[i + 1..];
        cursor := cursor + sorted[i].length;
        i := i + 1;
      }
      r := if cursor != totalLen then None else Some(bytes[..]);
    }
  }

  class Reassembler {
    var state: Reassembly?
    var lastCompleted: Option<(u32, u64)>

    ghost function Repr(): set<object>
      reads this
    {
      {this} + if state == null then {} else {state, state.slots, state.bytes}
    }

    ghost predicate Valid()
      reads Repr()
    {
      state != null ==> state.Valid()
    }

    ghost function Value(): (s: State)
      reads Repr()
      requires Valid()
      ensures s.partial.Some? ==> Shaped(s.partial.value)
    {
      State(if state == null then None else Some(state.Value()), lastCompleted)
    }

    constructor ()
      ensures Valid() && Value() == CLEARED
    {
      state, lastCompleted := null, None;
    }

    method Clear()
      modifies this
      ensures Valid() && Value() == CLEARED
    {
      state, lastCompleted := null, None;
    }

    method Push(generation: u32, sequence: u64, payload: Bytes, config: BindingConfig) returns (reply: Reply)
      requires Valid()
      modifies Repr()
      ensures Valid() && fresh(Repr() - old(Repr()))
      ensures (Value(), reply) == FragmentSpec.Push(old(Value()), generation, sequence, payload, config)
    {
      hide Decode, Finishes, FragmentSpec.Insert;
      if lastCompleted.Some? && !Before(lastCompleted.value, (generation, sequence)) {
        return Done(IgnoredOld);
      }
      var decoded := Decode(payload, config);
      if decoded.None? {
        return Invalid;
      }
      var fragment := decoded.value;
      DecodedBounds(payload, config);
      if state != null && Before((generation, sequence), (state.generation, state.sequence)) {
        return Done(IgnoredOld);
      }
      var replace := state == null || (state.generation, state.sequence) != (generation, sequence);
      var replacedIncomplete := replace && state != null;
      var current;
      if replace {
        current := new Reassembly(generation, sequence, fragment);
        var first := current.Insert(fragment);
        InsertTwice(Empty(generation, sequence, fragment), fragment);
        assert first;
        state := current;
      } else {
        current := state;
      }
      if current.fragmentCount != fragment.count || current.totalLen != fragment.totalLen {
        return Invalid;
      }
      var ok := current.Insert(fragment);
      if !ok {
        return Invalid;
      }
      if !current.IsComplete() {
        return Done(Pending(replacedIncomplete));
      }
      state := null;
      lastCompleted := Some((current.generation, current.sequence));
      var whole := current.Finish();
      reply := if whole.None? then Invalid
               else Done(Complete(current.generation, current.sequence, whole.value, replacedIncomplete));
    }
  }

  lemma DecodedBounds(bytes: Bytes, config: BindingConfig)
    requires Decode(bytes, config).Some?
    ensures var f := Decode(bytes, config).value; f.payload != [] && End(f) <= f.totalLen && f.index < f.count
  {
  }

  /** A new group stores its first fragment and then meets it again as a duplicate. */
  lemma InsertTwice(p: Partial, f: Fragment)
    requires Shaped(p) && End(f) <= p.totalLen && f.index < |p.slots| && p.slots[f.index].None?
    ensures Insert(p, f).Some? && Shaped(Insert(p, f).value)
    ensures Insert(Insert(p, f).value, f) == Insert(p, f)
  {
    var q := Insert(p, f).value;
    assert q.bytes[f.offset..End(f)] == f.payload;
  }
}
