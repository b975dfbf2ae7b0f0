/**
  What the reassembler answers to any datagram in any reachable state, in terms of the completed
  pair, the pending group and its slots.
 */
module FragmentVerdicts {
  import opened Base
  import opened FragmentSpec
  import opened FragmentRun

  /** A later generation, or the same generation and a later sequence number. */
  predicate LaterPair(a: (u32, u64), b: (u32, u64)) {
    a.0 > b.0 || (a.0 == b.0 && a.1 > b.1)
  }

  function PairOf(p: Partial): (u32, u64) { (p.generation, p.sequence) }

  ghost predicate Full(slots: seq<Option<Range>>) {
    forall k :: 0 <= k < |slots| ==> slots[k] != None
  }

  /** A pending group still lacks a fragment, and its counter says how many it has. */
  ghost predicate Waiting(s: State) {
    s.partial.Some? ==> Counted(s.partial.value) && !Full(s.partial.value.slots)
  }

  lemma FullIsCounted(p: Partial)
    requires Counted(p)
    ensures Full(p.slots) <==> p.received == p.count
  {
    FilledBound(p.slots);
  }

  lemma StepStaysWaiting(s: State, e: Event, config: BindingConfig)
    requires Good(s) && Waiting(s)
    ensures Waiting(Step(s, e, config).0)
  {
    StepCounted(s, e, config);
    hide Insert, Finishes, Filled, Full, Counted;
    if e.Datagram? && Decode(e.bytes, config).Some? {
      var after := Step(s, e, config).0;
      if after.partial.Some? {
        FullIsCounted(after.partial.value);
        DecodedIndex(e.bytes, config);
        EmptyTakes(e.generation, e.sequence, Decode(e.bytes, config).value);
      }
    }
  }

  lemma DecodedIndex(bytes: Bytes, config: BindingConfig)
    requires Decode(bytes, config).Some?
    ensures var f := Decode(bytes, config).value; f.index < f.count && f.offset + |f.payload| <= f.totalLen
  {
  }

  lemma EmptyTakes(generation: u32, sequence: u64, f: Fragment)
    requires f.index < f.count && f.offset + |f.payload| <= f.totalLen
    ensures Insert(Empty(generation, sequence, f), f).Some?
  {
  }

  /** In every reachable state a pending group lacks a fragment. */
  lemma {:induction false} AlwaysWaiting(events: seq<Event>, config: BindingConfig)
    ensures Waiting(Final(events, config))
  {
    hide Step, Counted, Full;
    if events != [] {
      AlwaysWaiting(events[..|events| - 1], config);
      StepStaysWaiting(Final(events[..|events| - 1], config), events[|events| - 1], config);
    }
  }

  /* -------------------------------- The decision --------------------------------- */

  /** The fragment repeats one that is stored: same range, same bytes. */
  ghost predicate Repeats(p: Partial, f: Fragment) {
    && f.index < |p.slots| && p.slots[f.index] == Some(Range(f.offset, |f.payload|))
    && f.offset + |f.payload| <= |p.bytes| && p.bytes[f.offset..f.offset + |f.payload|] == f.payload
  }

  /** The group `p` with the fragment stored in its own slot and at its own offset, and nothing else touched. */
  ghost predicate Stores(p: Partial, f: Fragment, q: Partial) {
    && PairOf(q) == PairOf(p) && q.count == p.count && q.totalLen == p.totalLen
    && f.index < |p.slots| && q.slots == p.slots[f.index := Some(Range(f.offset, |f.payload|))]
    && |q.bytes| == |p.bytes| && f.offset + |f.payload| <= |p.bytes|
    && (forall x :: 0 <= x < |p.bytes| ==>
          q.bytes[x] == if f.offset <= x < f.offset + |f.payload| then f.payload[x - f.offset] else p.bytes[x])
  }

  /** A group for the fragment's pair with every slot free. */
  ghost predicate Blank(p: Partial, pair: (u32, u64), f: Fragment) {
    && PairOf(p) == pair && p.count == f.count && p.totalLen == f.totalLen
    && |p.slots| == p.count && |p.bytes| == p.totalLen
    && forall k :: 0 <= k < |p.slots| ==> p.slots[k] == None
  }

  /** Storing the fragment in `p`: pending while a slot is free, otherwise over, with the bytes if they tile. */
  ghost predicate Settled(s: State, p: Partial, f: Fragment, replaced: bool, after: State, reply: Reply) {
    exists q ::
      && Stores(p, f, q)
      && if !Full(q.slots) then after == State(Some(q), s.lastCompleted) && reply == Done(Pending(replaced))
         else
           && after == State(None, Some(PairOf(p)))
           && reply == if Tiles(Filled(q.slots), q.totalLen)
                       then Done(Complete(PairOf(p).0, PairOf(p).1, q.bytes, replaced)) else Invalid
  }

  /** Old pairs are ignored; anything malformed or contradicting what is stored is refused; the rest is stored. */
  ghost predicate Decided(s: State, pair: (u32, u64), f: Option<Fragment>, after: State, reply: Reply) {
    if s.lastCompleted.Some? && !LaterPair(pair, s.lastCompleted.value) then
      after == s && reply == Done(IgnoredOld)
    else if f.None? then after == s && reply == Invalid
    else if s.partial.Some? && LaterPair(PairOf(s.partial.value), pair) then after == s && reply == Done(IgnoredOld)
    else if s.partial.Some? && PairOf(s.partial.value) == pair then
      var p := s.partial.value;
      if p.count != f.value.count || p.totalLen != f.value.totalLen then after == s && reply == Invalid
      else if Repeats(p, f.value) then after == s && reply == Done(Pending(false))
      else if f.value.index >= |p.slots| || p.slots[f.value.index] != None then after == s && reply == Invalid
      else Settled(s, p, f.value, false, after, reply)
    else
      exists p :: Blank(p, pair, f.value) && Settled(s, p, f.value, s.partial.Some?, after, reply)
  }

  lemma OverwriteAt(bytes: Bytes, offset: nat, piece: Bytes)
    requires offset + |piece| <= |bytes|
    ensures forall x :: 0 <= x < |bytes| ==>
              Overwrite(bytes, offset, piece)[x]
              == if offset <= x < offset + |piece| then piece[x - offset] else bytes[x]
  {
  }

  lemma StoringSettles(s: State, p: Partial, f: Fragment, replaced: bool)
    requires Counted(p) && f.index < p.count && f.offset + |f.payload| <= p.totalLen && p.slots[f.index] == None
    ensures Insert(p, f).Some?
    ensures var (after, reply) := Settle(s, Insert(p, f).value, replaced);
            Settled(s, p, f, replaced, after, reply)
  {
    var q := Insert(p, f).value;
    OverwriteAt(p.bytes, f.offset, f.payload);
    assert Stores(p, f, q);
    InsertCounted(p, f);
    FullIsCounted(q);
    hide Stores, Insert, Counted, Filled, Tiles;
    assert Full(q.slots) ==> (Finishes(q) <==> Tiles(Filled(q.slots), q.totalLen));
  }

  lemma SameGroupDecides(s: State, f: Fragment)
    requires s.partial.Some? && Counted(s.partial.value) && !Full(s.partial.value.slots)
    requires f.index < f.count && f.offset + |f.payload| <= f.totalLen
    requires s.partial.value.count == f.count && s.partial.value.totalLen == f.totalLen
    ensures var p := s.partial.value;
            var (after, reply) := PushFragment(s, p.generation, p.sequence, f);
            if Repeats(p, f) then after == s && reply == Done(Pending(false))
            else if p.slots[f.index] != None then after == s && reply == Invalid
            else Settled(s, p, f, false, after, reply)
  {
    var p := s.partial.value;
    if p.slots[f.index] == None {
      StoringSettles(s, p, f, false);
    } else {
      FullIsCounted(p);
    }
    hide Settled, Finishes, Filled;
  }

  lemma NewGroupDecides(s: State, pair: (u32, u64), f: Fragment)
    requires Good(s) && (s.partial.Some? ==> PairOf(s.partial.value) != pair)
    requires f.index < f.count && f.offset + |f.payload| <= f.totalLen
    ensures var (after, reply) := PushFragment(s, pair.0, pair.1, f);
            exists p :: Blank(p, pair, f) && Settled(s, p, f, s.partial.Some?, after, reply)
  {
    var p := Empty(pair.0, pair.1, f);
    FilledNone(f.count);
    assert Counted(p) && Blank(p, pair, f);
    StoringSettles(s, p, f, s.partial.Some?);
    hide Settled, Finishes, Filled, Insert, Blank, Counted;
  }

  /** The decision, for every datagram in every reachable state. */
  lemma PushDecides(events: seq<Event>, generation: u32, sequence: u64, bytes: Bytes, config: BindingConfig)
    ensures var s := Final(events, config);
            var (after, reply) := Push(s, generation, sequence, bytes, config);
            Decided(s, (generation, sequence), Decode(bytes, config), after, reply)
  {
    hide PushFragment, Repeats, Settled, Blank, Decode, Counted, Full, Final;
    var s := Final(events, config);
    AlwaysWaiting(events, config);
    if Decode(bytes, config).Some? {
      var f := Decode(bytes, config).value;
      DecodedIndex(bytes, config);
      if s.partial.Some? && PairOf(s.partial.value) == (generation, sequence) {
        if s.partial.value.count == f.count && s.partial.value.totalLen == f.totalLen {
          CountedShape(s.partial.value);
          SameGroupDecides(s, f);
        } else {
          OtherShapeRefused(s, f);
        }
      } else {
        NewGroupDecides(s, (generation, sequence), f);
      }
    }
  }

  lemma CountedShape(p: Partial)
    requires Counted(p)
    ensures |p.slots| == p.count && |p.bytes| == p.totalLen
  {
  }

  lemma OtherShapeRefused(s: State, f: Fragment)
    requires Good(s) && s.partial.Some? && f.offset + |f.payload| <= f.totalLen
    requires s.partial.value.count != f.count || s.partial.value.totalLen != f.totalLen
    ensures PushFragment(s, s.partial.value.generation, s.partial.value.sequence, f) == (s, Invalid)
  {
  }
}

/** The sender: when a payload can be cut, into what, and what the caller learns from the answers. */
module SendVerdicts {
  import opened Base
  import opened FragmentSpec
  import opened Fragments

  lemma CountWithin(len: nat, chunk: nat, most: nat)
    requires chunk > 0 && len > 0
    ensures FragmentCount(len, chunk) <= most <==> len <= most * chunk
  {
    hide FragmentCount;
    FragmentCountBounds(len, chunk);
    var n := FragmentCount(len, chunk);
    if n <= most {
      TimesMonotone(n, most, chunk);
    } else {
      TimesMonotone(most, n - 1, chunk);
    }
  }

  /**
    A payload is cut into pieces that fill the link's datagrams after a header of 18 bytes. It must
    not be empty or beyond the reassembly limit, and must fit the allowed number of pieces, at
    most 65535; a link without datagrams is reported as such, all else as a payload limit.
   */
  lemma SizeVerdict(payload: Bytes, config: BindingConfig, maxPayload: Option<nat>)
    ensures var size := ChunkSize(payload, config, maxPayload);
            if payload == [] || |payload| > config.maxReassemblyBytes then size == Err(PayloadLimit)
            else if maxPayload == None then size == Err(DatagramsUnsupported)
            else if maxPayload.value <= 18
                    || |payload| > Min(config.maxFragments, 65535) * (maxPayload.value - 18)
            then size == Err(PayloadLimit)
            else size == Ok(maxPayload.value - 18)
  {
    hide FragmentCount;
    if payload != [] && maxPayload.Some? && maxPayload.value > HEADER_LEN {
      CountWithin(|payload|, maxPayload.value - 18, config.maxFragments);
      CountWithin(|payload|, maxPayload.value - 18, 65535);
    }
  }

  lemma {:induction false} CountIsMultiplicity(answers: seq<Option<SendOutcome>>, outcome: SendOutcome)
    ensures CountOf(answers, outcome) == multiset(answers)[Some(outcome)]
  {
    if answers != [] {
      var n := |answers| - 1;
      CountIsMultiplicity(answers[..n], outcome);
      assert answers == answers[..n] + [answers[n]];
    }
  }

  /** A link error or an unsupporting link ends in an error; otherwise each outcome is counted as often as it came. */
  lemma OutcomeVerdict(answers: seq<Option<SendOutcome>>)
    requires answers != []
    ensures var last := answers[|answers| - 1];
            match last
            case None => Verdict(answers) == Err(LinkError)
            case Some(outcome) =>
              if outcome == Unsupported then Verdict(answers) == Err(DatagramsUnsupported)
              else
                && Verdict(answers).Ok?
                && var batch := Verdict(answers).value;
                   && batch.fragments == |answers|
                   && batch.enqueued == multiset(answers)[Some(Enqueued)]
                   && batch.replaced == multiset(answers)[Some(ReplacedOlder)]
                   && batch.expired == multiset(answers)[Some(DroppedExpired)]
                   && batch.congested == multiset(answers)[Some(DroppedCongested)]
  {
    CountIsMultiplicity(answers, Enqueued);
    CountIsMultiplicity(answers, ReplacedOlder);
    CountIsMultiplicity(answers, DroppedExpired);
    CountIsMultiplicity(answers, DroppedCongested);
    hide CountOf;
  }
}
