/**
  The receiver undoes the sender's split: one group's fragments, in any order, with any
  duplicates, interleaved with any older traffic.
 */
module FragmentRoundTrip {
  import opened Base
  import opened FragmentSpec
  import opened FragmentCover
  import opened FragmentRun

  /** One group on the wire: the pair it is sent under and its fragments. */
  datatype Group = Group(generation: u32, sequence: u64, frags: seq<Fragment>) {
    function Pair(): (u32, u64) { (generation, sequence) }
  }

  /** A group whose payload the receiver is configured to hold. */
  ghost predicate Accepted(g: Group, payload: Bytes, config: BindingConfig) {
    Splits(g.frags, payload) && |g.frags| <= config.maxFragments && |payload| <= config.maxReassemblyBytes
  }

  ghost predicate Own(e: Event, g: Group, k: nat)
    requires k < |g.frags|
  {
    e == Datagram(g.generation, g.sequence, Encode(g.frags[k]))
  }

  predicate Older(e: Event, g: Group) {
    e.Datagram? && Before((e.generation, e.sequence), g.Pair())
  }

  ghost predicate Traffic(events: seq<Event>, g: Group) {
    forall i :: 0 <= i < |events| ==> Older(events[i], g) || IsOwn(events[i], g)
  }

  ghost predicate IsOwn(e: Event, g: Group) {
    exists k :: 0 <= k < |g.frags| && Own(e, g, k)
  }

  /** The numbers of the group's fragments that have arrived. */
  ghost function Arrived(events: seq<Event>, g: Group): (s: set<nat>)
    ensures forall k :: k in s ==> k < |g.frags|
  {
    set k: nat | k < |g.frags| && HasArrived(events, g, k)
  }

  ghost predicate HasArrived(events: seq<Event>, g: Group, k: nat)
    requires k < |g.frags|
  {
    exists i :: 0 <= i < |events| && Own(events[i], g, k)
  }

  /** No equal or newer pair has been completed or started. */
  predicate Quiet(s: State, pair: (u32, u64)) {
    && (s.lastCompleted.Some? ==> Before(s.lastCompleted.value, pair))
    && (s.partial.Some? ==> Before((s.partial.value.generation, s.partial.value.sequence), pair))
  }

  /** The partial group holds exactly the fragments numbered in `seen`. */
  ghost predicate Holds(p: Partial, g: Group, payload: Bytes, seen: set<nat>) {
    && p.generation == g.generation && p.sequence == g.sequence
    && p.count == |g.frags| && p.totalLen == |payload| && Shaped(p) && p.received == |seen|
    && (forall k :: k in seen ==> k < |g.frags|)
    && (forall k :: 0 <= k < |g.frags| ==> p.slots[k] == if k in seen then Some(RangeOf(g.frags[k])) else None)
    && (forall k :: k in seen ==> InPlace(p.bytes, payload, g.frags[k]))
  }

  ghost predicate InPlace(bytes: Bytes, payload: Bytes, f: Fragment) {
    End(f) <= |bytes| == |payload| && bytes[f.offset..End(f)] == payload[f.offset..End(f)]
  }

  ghost predicate Progress(s: State, g: Group, payload: Bytes, seen: set<nat>) {
    if seen == {} then Quiet(s, g.Pair())
    else if |seen| < |g.frags| then
      && s.partial.Some? && Holds(s.partial.value, g, payload, seen)
      && (s.lastCompleted.Some? ==> Before(s.lastCompleted.value, g.Pair()))
    else s == State(None, Some(g.Pair()))
  }

  lemma FragmentDecodes(g: Group, payload: Bytes, k: nat, config: BindingConfig)
    requires Accepted(g, payload, config) && k < |g.frags|
    ensures Decode(Encode(g.frags[k]), config) == Some(g.frags[k])
    ensures g.frags[k].index == k && g.frags[k].count == |g.frags| && g.frags[k].totalLen == |payload|
    ensures g.frags[k].payload != [] && End(g.frags[k]) <= |payload|
    ensures g.frags[k].payload == payload[g.frags[k].offset..End(g.frags[k])]
  {
    hide Decode, Encode;
    assert Piece(g.frags, payload, k);
    DecodeInvertsEncode(g.frags[k], config);
  }

  /** The ranges of a split, in order, walk from the start of the payload to its end. */
  lemma {:induction false} SplitWalks(frags: seq<Fragment>, payload: Bytes, k: nat, ranges: seq<Range>)
    requires Splits(frags, payload) && k <= |frags| && |ranges| == |frags| - k
    requires forall i :: 0 <= i < |ranges| ==> ranges[i] == RangeOf(frags[k + i])
    ensures Walk(ranges, if k == 0 then 0 else End(frags[k - 1])) == Some(|payload|)
    decreases |frags| - k
  {
    if k < |frags| {
      assert Piece(frags, payload, k);
      SplitWalks(frags, payload, k + 1, ranges[1..]);
    }
  }

  function Numbers(n: nat): (s: set<nat>)
    ensures |s| == n && forall k: nat :: k in s <==> k < n
  {
    if n == 0 then {} else Numbers(n - 1) + {n - 1}
  }

  lemma AllNumbers(seen: set<nat>, n: nat)
    requires forall k :: k in seen ==> k < n
    ensures |seen| <= n
    ensures |seen| == n ==> forall k: nat :: k < n ==> k in seen
  {
    SubsetSize(seen, Numbers(n));
    forall k: nat | |seen| == n && k < n
      ensures k in seen
    {
      if k !in seen {
        SubsetSize(seen, Numbers(n) - {k});
      }
    }
  }

  lemma OverwriteInPlace(bytes: Bytes, payload: Bytes, f: Fragment, other: Fragment)
    requires |bytes| == |payload| && End(f) <= |payload| && f.payload == payload[f.offset..End(f)]
    requires End(other) <= |payload| && (InPlace(bytes, payload, other) || other == f)
    ensures InPlace(Overwrite(bytes, f.offset, f.payload), payload, other)
  {
    var after := Overwrite(bytes, f.offset, f.payload);
    forall x | other.offset <= x < End(other)
      ensures after[x] == payload[x]
    {
      if f.offset <= x < End(f) {
        assert after[x] == f.payload[x - f.offset];
      } else {
        assert after[x] == bytes[x];
        InPlaceAt(bytes, payload, other, x);
      }
    }
  }

  lemma InsertHolds(p: Partial, g: Group, payload: Bytes, seen: set<nat>, k: nat, config: BindingConfig)
    requires Accepted(g, payload, config) && Holds(p, g, payload, seen) && k < |g.frags|
    ensures End(g.frags[k]) <= p.totalLen
    ensures Insert(p, g.frags[k]).Some? && Holds(Insert(p, g.frags[k]).value, g, payload, seen + {k})
  {
    hide Splits, Overwrite;
    FragmentDecodes(g, payload, k, config);
    var f := g.frags[k];
    if k in seen {
      assert seen + {k} == seen;
      assert InPlace(p.bytes, payload, f);
    } else {
      forall j | j in seen + {k}
        ensures InPlace(Overwrite(p.bytes, f.offset, f.payload), payload, g.frags[j])
      {
        FragmentDecodes(g, payload, j, config);
        OverwriteInPlace(p.bytes, payload, f, g.frags[j]);
      }
    }
  }

  /** With every fragment in place the ranges tile and the buffer is the payload. */
  lemma FullPartial(p: Partial, g: Group, payload: Bytes, seen: set<nat>, config: BindingConfig)
    requires Accepted(g, payload, config) && Holds(p, g, payload, seen) && |seen| == |g.frags|
    ensures Finishes(p) && p.bytes == payload
  {
    hide Splits, InPlace, Filled, Tiles;
    FullTiles(p, g, payload, seen, config);
    var ranges := Filled(p.slots);
    forall x | 0 <= x < |payload|
      ensures p.bytes[x] == payload[x]
    {
      CoveredOnce(ranges, |payload|, x);
      var k := CoveredBySome(ranges, x);
      assert k in seen;
      InPlaceAt(p.bytes, payload, g.frags[k], x);
    }
  }

  lemma CoveredOnce(ranges: seq<Range>, total: nat, x: nat)
    requires Tiles(ranges, total) && x < total
    ensures CoverCount(ranges, x) == 1
  {
  }

  /** With every fragment in place the slots are full, in order, and their ranges tile. */
  lemma FullTiles(p: Partial, g: Group, payload: Bytes, seen: set<nat>, config: BindingConfig)
    requires Accepted(g, payload, config) && Holds(p, g, payload, seen) && |seen| == |g.frags|
    ensures forall k :: 0 <= k < |g.frags| ==> k in seen
    ensures |p.slots| == |g.frags| && forall k :: 0 <= k < |p.slots| ==> p.slots[k].Some?
    ensures |Filled(p.slots)| == |g.frags|
    ensures forall k :: 0 <= k < |g.frags| ==> Filled(p.slots)[k] == RangeOf(g.frags[k])
    ensures Tiles(Filled(p.slots), |payload|)
  {
    hide Holds, Splits, Filled, Tiles, TilesFrom;
    FullSlots(p, g, payload, seen);
    FilledAll(p.slots);
    var ranges := Filled(p.slots);
    forall k | 0 <= k < |g.frags|
      ensures ranges[k] == RangeOf(g.frags[k])
    {
      assert p.slots[k].Some?;
    }
    SplitWalks(g.frags, payload, 0, ranges);
    TiledByWalk(ranges, |payload|);
  }

  lemma FullSlots(p: Partial, g: Group, payload: Bytes, seen: set<nat>)
    requires Holds(p, g, payload, seen) && |seen| == |g.frags|
    ensures |p.slots| == |g.frags|
    ensures forall k :: 0 <= k < |g.frags| ==> k in seen && p.slots[k] == Some(RangeOf(g.frags[k]))
  {
    hide InPlace;
    AllNumbers(seen, |g.frags|);
  }

  lemma TiledByWalk(ranges: seq<Range>, total: nat)
    requires Walk(ranges, 0) == Some(total)
    ensures Tiles(ranges, total)
  {
    WalkTiles(ranges, 0, total);
  }

  lemma InPlaceAt(bytes: Bytes, payload: Bytes, f: Fragment, x: nat)
    requires InPlace(bytes, payload, f) && f.offset <= x < End(f)
    ensures x < |bytes| == |payload| && bytes[x] == payload[x]
  {
    assert bytes[f.offset..End(f)][x - f.offset] == payload[f.offset..End(f)][x - f.offset];
  }

  /** What the receiver answers to one of the group's own fragments. */
  ghost predicate OwnReply(reply: Option<Reply>, g: Group, payload: Bytes, before: set<nat>, after: set<nat>,
                           replaced: bool)
  {
    reply == Some(Done(
      if |before| == |g.frags| then IgnoredOld
      else if |after| == |g.frags| then Complete(g.generation, g.sequence, payload, replaced)
      else Pending(replaced)))
  }

  lemma EmptyHolds(g: Group, payload: Bytes, k: nat, config: BindingConfig)
    requires Accepted(g, payload, config) && k < |g.frags|
    ensures Holds(Empty(g.generation, g.sequence, g.frags[k]), g, payload, {})
  {
    FragmentDecodes(g, payload, k, config);
  }

  lemma HoldsParts(p: Partial, g: Group, payload: Bytes, seen: set<nat>)
    requires Holds(p, g, payload, seen)
    ensures p.generation == g.generation && p.sequence == g.sequence && Shaped(p)
    ensures p.count == |g.frags| && p.totalLen == |payload| && p.received == |seen|
  {
  }

  lemma OwnStep(s: State, g: Group, payload: Bytes, seen: set<nat>, k: nat, config: BindingConfig)
    requires Good(s) && Accepted(g, payload, config) && k < |g.frags|
    requires (forall j :: j in seen ==> j < |g.frags|) && Progress(s, g, payload, seen)
    ensures var (after, reply) := Step(s, Datagram(g.generation, g.sequence, Encode(g.frags[k])), config);
            && Progress(after, g, payload, seen + {k})
            && OwnReply(reply, g, payload, seen, seen + {k}, seen == {} && s.partial.Some?)
  {
    hide Splits, Decode, Encode, Insert, Finishes, Holds, Overwrite, Empty;
    FragmentDecodes(g, payload, k, config);
    AllNumbers(seen, |g.frags|);
    AllNumbers(seen + {k}, |g.frags|);
    if |seen| == |g.frags| {
      assert seen + {k} == seen;
    } else {
      var f := g.frags[k];
      var p := if seen == {} then Empty(g.generation, g.sequence, f) else s.partial.value;
      EmptyHolds(g, payload, k, config);
      HoldsParts(p, g, payload, seen);
      InsertHolds(p, g, payload, seen, k, config);
      var q := Insert(p, f).value;
      HoldsParts(q, g, payload, seen + {k});
      if |seen + {k}| == |g.frags| {
        FullPartial(q, g, payload, seen + {k}, config);
      }
    }
  }

  /** Older traffic may still move a quiet reassembler, but never past the group. */
  lemma OlderStep(s: State, g: Group, payload: Bytes, seen: set<nat>, e: Event, config: BindingConfig)
    requires Good(s) && Older(e, g) && |seen| <= |g.frags|
    requires Progress(s, g, payload, seen)
    ensures var (after, reply) := Step(s, e, config);
            Progress(after, g, payload, seen) && (seen != {} ==> after == s && !Delivery(reply))
  {
    hide Decode, Finishes, Holds, Overwrite;
    if seen != {} && |seen| < |g.frags| {
      HoldsParts(s.partial.value, g, payload, seen);
    }
    if Decode(e.bytes, config).Some? {
      DecodedFits(e.bytes, config);
    }
  }

  lemma ArrivedOwn(events: seq<Event>, e: Event, g: Group, payload: Bytes, k: nat, config: BindingConfig)
    requires Accepted(g, payload, config) && k < |g.frags| && Own(e, g, k)
    ensures Arrived(events + [e], g) == Arrived(events, g) + {k}
  {
    hide Splits, Decode, Encode;
    var all := events + [e];
    FragmentDecodes(g, payload, k, config);
    forall j: nat | j < |g.frags|
      ensures j in Arrived(all, g) <==> j in Arrived(events, g) || j == k
    {
      FragmentDecodes(g, payload, j, config);
      if j in Arrived(events, g) {
        var i :| 0 <= i < |events| && Own(events[i], g, j);
        assert Own(all[i], g, j);
      }
      if j == k {
        assert Own(all[|events|], g, j);
      }
      if j in Arrived(all, g) {
        var i :| 0 <= i < |all| && Own(all[i], g, j);
        assert i < |events| ==> Own(events[i], g, j);
      }
    }
  }

  lemma ArrivedOlder(events: seq<Event>, e: Event, g: Group)
    requires Older(e, g)
    ensures Arrived(events + [e], g) == Arrived(events, g)
  {
    var all := events + [e];
    forall j: nat | j < |g.frags|
      ensures j in Arrived(all, g) <==> j in Arrived(events, g)
    {
      if j in Arrived(events, g) {
        var i :| 0 <= i < |events| && Own(events[i], g, j);
        assert Own(all[i], g, j);
      }
      if j in Arrived(all, g) {
        var i :| 0 <= i < |all| && Own(all[i], g, j);
        assert Own(events[i], g, j);
      }
    }
  }

  lemma FinalExtend(history: seq<Event>, traffic: seq<Event>, n: nat, config: BindingConfig)
    requires n < |traffic|
    ensures Final(history + traffic[..n + 1], config) == Step(Final(history + traffic[..n], config), traffic[n], config).0
    ensures ReplyAt(history + traffic, |history| + n, config)
         == Step(Final(history + traffic[..n], config), traffic[n], config).1
  {
    hide Step;
    var longer := history + traffic[..n + 1];
    assert longer[..|history| + n] == history + traffic[..n];
    assert longer[..|longer|] == longer;
    FinalStep(longer, |history| + n, config);
    assert (history + traffic)[..|history| + n] == history + traffic[..n];
  }

  lemma {:induction false} TrafficProgress(
    history: seq<Event>, traffic: seq<Event>, n: nat, g: Group, payload: Bytes, config: BindingConfig)
    requires Accepted(g, payload, config) && Traffic(traffic, g) && Quiet(Final(history, config), g.Pair())
    requires n <= |traffic|
    ensures Progress(Final(history + traffic[..n], config), g, payload, Arrived(traffic[..n], g))
    ensures |Arrived(traffic[..n], g)| <= |g.frags|
  {
    hide Step, Final, Holds, Splits, Own, Arrived;
    AllNumbers(Arrived(traffic[..n], g), |g.frags|);
    if n == 0 {
      NoneArrived(g);
      assert traffic[..0] == [] && history + [] == history;
    } else {
      TrafficProgress(history, traffic, n - 1, g, payload, config);
      FinalExtend(history, traffic, n - 1, config);
      assert traffic[..n] == traffic[..n - 1] + [traffic[n - 1]];
      var e := traffic[n - 1];
      var before := Final(history + traffic[..n - 1], config);
      var seen := Arrived(traffic[..n - 1], g);
      if Older(e, g) {
        OlderStep(before, g, payload, seen, e, config);
        ArrivedOlder(traffic[..n - 1], e, g);
      } else {
        var k: nat :| k < |g.frags| && Own(e, g, k);
        ArrivedOwn(traffic[..n - 1], e, g, payload, k, config);
        OwnIs(e, g, k);
        OwnStep(before, g, payload, seen, k, config);
      }
    }
  }

  lemma NoneArrived(g: Group)
    ensures Arrived([], g) == {}
  {
  }

  lemma OwnIs(e: Event, g: Group, k: nat)
    requires k < |g.frags| && Own(e, g, k)
    ensures e == Datagram(g.generation, g.sequence, Encode(g.frags[k]))
  {
  }

  /**
    Round trip. Start from any history that has not completed or started this pair or a newer one.
    Whatever order, repetition and older traffic follow, each of the group's own datagrams is
    answered `Pending` until every number has arrived, the one that completes the set delivers
    exactly the original payload, and every later copy is ignored.
   */
  lemma RoundTrip(
    history: seq<Event>, traffic: seq<Event>, n: nat, g: Group, payload: Bytes, config: BindingConfig)
    requires Accepted(g, payload, config) && Traffic(traffic, g) && Quiet(Final(history, config), g.Pair())
    requires n < |traffic| && IsOwn(traffic[n], g)
    ensures OwnReply(
              ReplyAt(history + traffic, |history| + n, config), g, payload,
              Arrived(traffic[..n], g), Arrived(traffic[..n + 1], g),
              Arrived(traffic[..n], g) == {} && Final(history + traffic[..n], config).partial.Some?)
  {
    hide Step, Final, Holds, Splits, Own, Arrived, OwnReply;
    TrafficProgress(history, traffic, n, g, payload, config);
    FinalExtend(history, traffic, n, config);
    var e := traffic[n];
    var k: nat :| k < |g.frags| && Own(e, g, k);
    OwnIs(e, g, k);
    assert traffic[..n + 1] == traffic[..n] + [e];
    ArrivedOwn(traffic[..n], e, g, payload, k, config);
    OwnStep(Final(history + traffic[..n], config), g, payload, Arrived(traffic[..n], g), k, config);
  }

  ghost predicate DeliversAt(history: seq<Event>, traffic: seq<Event>, n: nat, g: Group, config: BindingConfig)
    requires n < |traffic|
  {
    var reply := ReplyAt(history + traffic, |history| + n, config);
    Delivery(reply) && (reply.value.outcome.generation, reply.value.outcome.sequence) == g.Pair()
  }

  /** As soon as every fragment has arrived, the group has been delivered, and only once. */
  lemma {:induction false} DeliveredExactlyOnce(
    history: seq<Event>, traffic: seq<Event>, g: Group, payload: Bytes, config: BindingConfig) returns (n: nat)
    requires Accepted(g, payload, config) && Traffic(traffic, g) && Quiet(Final(history, config), g.Pair())
    requires |Arrived(traffic, g)| == |g.frags|
    ensures n < |traffic| && DeliversAt(history, traffic, n, g, config)
    ensures ReplyAt(history + traffic, |history| + n, config).value.outcome.payload == payload
    ensures forall m :: 0 <= m < |traffic| && DeliversAt(history, traffic, m, g, config) ==> m == n
  {
    hide Final, Step, Splits, Holds, Own, Arrived, ReplyAt, Older;
    n := FirstFull(traffic, g, payload, config);
    assert traffic[..|traffic|] == traffic;
    RoundTripAtFull(history, traffic, n, g, payload, config);
    forall m | 0 <= m < |traffic| && DeliversAt(history, traffic, m, g, config)
      ensures m == n
    {
      if m != n {
        var all := history + traffic;
        var i, j := |history| + Min(m, n), |history| + Max(m, n);
        forall x | i <= x <= j
          ensures all[x].Datagram?
        {
          assert all[x] == traffic[x - |history|];
          TrafficIsDatagrams(traffic[x - |history|], g);
        }
        CompletedPairsIncrease(all, i, j, config);
      }
    }
  }

  lemma TrafficIsDatagrams(e: Event, g: Group)
    requires Older(e, g) || IsOwn(e, g)
    ensures e.Datagram?
  {
  }

  /** The datagram with which the last missing number arrived. */
  lemma {:induction false} FirstFull(traffic: seq<Event>, g: Group, payload: Bytes, config: BindingConfig) returns (n: nat)
    requires Accepted(g, payload, config) && Traffic(traffic, g) && |Arrived(traffic, g)| == |g.frags|
    ensures n < |traffic| && IsOwn(traffic[n], g)
    ensures |Arrived(traffic[..n], g)| != |g.frags| && |Arrived(traffic[..n + 1], g)| == |g.frags|
  {
    hide Splits, Own, Arrived, Older, IsOwn;
    AtLeastOne(g, payload, config);
    NoneArrived(g);
    n := |traffic| - 1;
    assert traffic == traffic[..n] + [traffic[n]] && traffic[..n + 1] == traffic;
    if |Arrived(traffic[..n], g)| == |g.frags| {
      n := FirstFull(traffic[..n], g, payload, config);
      assert traffic[..|traffic| - 1][..n] == traffic[..n];
      assert traffic[..|traffic| - 1][..n + 1] == traffic[..n + 1];
    } else if Older(traffic[n], g) {
      ArrivedOlder(traffic[..n], traffic[n], g);
    }
  }

  lemma AtLeastOne(g: Group, payload: Bytes, config: BindingConfig)
    requires Accepted(g, payload, config)
    ensures |g.frags| > 0
  {
  }

  lemma RoundTripAtFull(
    history: seq<Event>, traffic: seq<Event>, n: nat, g: Group, payload: Bytes, config: BindingConfig)
    requires Accepted(g, payload, config) && Traffic(traffic, g) && Quiet(Final(history, config), g.Pair())
    requires n < |traffic| && IsOwn(traffic[n], g)
    requires |Arrived(traffic[..n], g)| != |g.frags| && |Arrived(traffic[..n + 1], g)| == |g.frags|
    ensures DeliversAt(history, traffic, n, g, config)
    ensures ReplyAt(history + traffic, |history| + n, config).value.outcome.payload == payload
  {
    hide Final, Step, Splits, Holds, Own, Arrived, ReplyAt, Older;
    RoundTrip(history, traffic, n, g, payload, config);
  }

  /** Cutting a payload into chunks gives a group every receiver configured for it accepts. */
  lemma SenderGroupAccepted(generation: u32, sequence: u64, payload: Bytes, chunk: nat, config: BindingConfig)
    requires Sendable(payload, chunk)
    requires |payload| <= config.maxReassemblyBytes && FragmentCount(|payload|, chunk) <= config.maxFragments
    ensures Accepted(Group(generation, sequence, Split(payload, chunk)), payload, config)
  {
    hide Splits;
    SplitSplits(payload, chunk);
  }
}
