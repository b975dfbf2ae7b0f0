/**
  Fragments on the wire and the reassembler as a value (`fragment.rs`). The classes in module
  `Fragments` implement these functions in place.
 */
module FragmentSpec {
  import opened Base
  import opened Wire

  /** `NTF1`, wire version, reserved zero. */
  const PREAMBLE: Bytes := [0x4E, 0x54, 0x46, 0x31, 1, 0]
  const HEADER_LEN: nat := 18

  datatype BindingConfig = BindingConfig(maxReassemblyBytes: nat, maxFragments: nat)

  datatype Fragment = Fragment(index: u16, count: u16, offset: u32, totalLen: u32, payload: Bytes)

  function Encode(f: Fragment): (b: Bytes)
    ensures |b| == HEADER_LEN + |f.payload|
  {
    PREAMBLE + Put16(f.index) + Put16(f.count) + Put32(f.offset) + Put32(f.totalLen) + f.payload
  }

  predicate WellFormed(f: Fragment, config: BindingConfig) {
    && f.payload != []
    && f.index < f.count <= config.maxFragments
    && f.totalLen <= config.maxReassemblyBytes
    && f.offset + |f.payload| <= f.totalLen
  }

  function Decode(bytes: Bytes, config: BindingConfig): Option<Fragment> {
    if |bytes| <= HEADER_LEN || bytes[..6] != PREAMBLE then None
    else
      var f := Fragment(Get16(bytes[6..8]), Get16(bytes[8..10]), Get32(bytes[10..14]), Get32(bytes[14..18]),
                        bytes[18..]);
      if || f.count == 0 || f.count > config.maxFragments || f.index >= f.count
         || f.totalLen == 0 || f.totalLen > config.maxReassemblyBytes
         || f.offset + |f.payload| > f.totalLen
      then None
      else Some(f)
  }

  lemma EncodedParts(f: Fragment)
    ensures var b := Encode(f);
            && b[..6] == PREAMBLE && b[6..8] == Put16(f.index) && b[8..10] == Put16(f.count)
            && b[10..14] == Put32(f.offset) && b[14..18] == Put32(f.totalLen) && b[18..] == f.payload
  {
  }

  /** The header is a bijection between well-formed fragments and the datagrams that decode. */
  lemma DecodeInvertsEncode(f: Fragment, config: BindingConfig)
    ensures Decode(Encode(f), config) == if WellFormed(f, config) then Some(f) else None
  {
    EncodedParts(f);
    GetPut16(f.index);
    GetPut16(f.count);
    GetPut32(f.offset);
    GetPut32(f.totalLen);
  }

  lemma EncodeInvertsDecode(bytes: Bytes, config: BindingConfig)
    requires Decode(bytes, config).Some?
    ensures WellFormed(Decode(bytes, config).value, config)
    ensures Encode(Decode(bytes, config).value) == bytes
  {
    PutGet16(bytes[6..8]);
    PutGet16(bytes[8..10]);
    PutGet32(bytes[10..14]);
    PutGet32(bytes[14..18]);
    assert bytes == bytes[..6] + bytes[6..8] + bytes[8..10] + bytes[10..14] + bytes[14..18] + bytes[18..];
  }

  /* --------------------------------- Splitting ---------------------------------- */

  function FragmentCount(len: nat, chunk: nat): nat
    requires chunk > 0
  {
    (len + chunk - 1) / chunk
  }

  lemma DivisionBrackets(a: nat, d: nat)
    requires d > 0
    ensures (a / d) * d <= a < (a / d) * d + d
  {
  }

  lemma FragmentCountBounds(len: nat, chunk: nat)
    requires chunk > 0 && len > 0
    ensures var n := FragmentCount(len, chunk);
            1 <= n <= len && (n - 1) * chunk < len <= n * chunk
  {
    var n := FragmentCount(len, chunk);
    DivisionBrackets(len + chunk - 1, chunk);
    if n > 0 {
      TimesStep(n - 1, chunk);
      TimesMonotone(1, chunk, n - 1);
    }
  }

  lemma ChunkWithin(len: nat, chunk: nat, k: nat)
    requires chunk > 0 && len > 0 && k < FragmentCount(len, chunk)
    ensures k * chunk < len
    ensures (k + 1) * chunk == k * chunk + chunk
    ensures k + 1 < FragmentCount(len, chunk) ==> (k + 1) * chunk < len
    ensures k + 1 == FragmentCount(len, chunk) ==> len <= (k + 1) * chunk
  {
    FragmentCountBounds(len, chunk);
    var n := FragmentCount(len, chunk);
    TimesMonotone(k, n - 1, chunk);
    TimesStep(k, chunk);
    if k + 1 < n {
      TimesMonotone(k + 1, n - 1, chunk);
    }
  }

  /** A payload the sender can number and address. */
  predicate Sendable(payload: Bytes, chunk: nat) {
    && chunk > 0 && 0 < |payload| <= U32_MAX
    && FragmentCount(|payload|, chunk) <= U16_MAX
  }

  function FragmentAt(payload: Bytes, chunk: nat, k: nat): Fragment
    requires Sendable(payload, chunk) && k < FragmentCount(|payload|, chunk)
  {
    ChunkWithin(|payload|, chunk, k);
    var offset := k * chunk;
    Fragment(k, FragmentCount(|payload|, chunk), offset, |payload|, payload[offset..Min(offset + chunk, |payload|)])
  }

  /** What the sender puts on the wire, chunk by chunk. */
  function Split(payload: Bytes, chunk: nat): (frags: seq<Fragment>)
    requires Sendable(payload, chunk)
    ensures |frags| == FragmentCount(|payload|, chunk)
  {
    seq(FragmentCount(|payload|, chunk),
        k requires 0 <= k < FragmentCount(|payload|, chunk) => FragmentAt(payload, chunk, k))
  }

  function End(f: Fragment): nat { f.offset + |f.payload| }

  /** Consecutive non-empty pieces of `payload`, numbered in order. */
  ghost predicate Splits(frags: seq<Fragment>, payload: Bytes) {
    && 0 < |frags| <= U16_MAX && |payload| <= U32_MAX
    && (forall k :: 0 <= k < |frags| ==> Piece(frags, payload, k))
    && End(frags[|frags| - 1]) == |payload|
  }

  ghost predicate Piece(frags: seq<Fragment>, payload: Bytes, k: nat)
    requires k < |frags|
  {
    var f := frags[k];
    && f.index == k && f.count == |frags| && f.totalLen == |payload|
    && f.offset == (if k == 0 then 0 else End(frags[k - 1]))
    && f.payload != [] && End(f) <= |payload| && f.payload == payload[f.offset..End(f)]
  }

  lemma FragmentEnds(payload: Bytes, chunk: nat, k: nat)
    requires Sendable(payload, chunk) && k < FragmentCount(|payload|, chunk)
    ensures var f := FragmentAt(payload, chunk, k);
            && f.index == k && f.offset == k * chunk && f.payload != [] && |f.payload| <= chunk
            && End(f) <= |payload| && f.payload == payload[f.offset..End(f)]
            && (k + 1 < FragmentCount(|payload|, chunk) ==> End(f) == (k + 1) * chunk)
            && (k + 1 == FragmentCount(|payload|, chunk) ==> End(f) == |payload|)
  {
    hide FragmentCount;
    ChunkWithin(|payload|, chunk, k);
  }

  lemma SomeFragments(len: nat, chunk: nat)
    requires chunk > 0 && len > 0
    ensures 1 <= FragmentCount(len, chunk) <= len
  {
    FragmentCountBounds(len, chunk);
  }

  lemma SplitPiece(payload: Bytes, chunk: nat, k: nat)
    requires Sendable(payload, chunk) && k < FragmentCount(|payload|, chunk)
    ensures Piece(Split(payload, chunk), payload, k) && |Split(payload, chunk)[k].payload| <= chunk
  {
    hide FragmentCount;
    FragmentEnds(payload, chunk, k);
    if k > 0 {
      FragmentEnds(payload, chunk, k - 1);
    }
  }

  lemma SplitSplits(payload: Bytes, chunk: nat)
    requires Sendable(payload, chunk)
    ensures Splits(Split(payload, chunk), payload)
    ensures forall k :: 0 <= k < |Split(payload, chunk)| ==> |Split(payload, chunk)[k].payload| <= chunk
  {
    hide FragmentCount, Piece;
    var frags := Split(payload, chunk);
    SomeFragments(|payload|, chunk);
    forall k | 0 <= k < |frags|
      ensures Piece(frags, payload, k) && |frags[k].payload| <= chunk
    {
      SplitPiece(payload, chunk, k);
    }
    FragmentEnds(payload, chunk, |frags| - 1);
  }

  /* -------------------------------- Reassembling -------------------------------- */

  datatype Range = Range(offset: nat, length: nat)

  datatype Partial = Partial(
    generation: u32, sequence: u64, count: nat, totalLen: nat, slots: seq<Option<Range>>, received: nat, bytes: Bytes)

  datatype State = State(partial: Option<Partial>, lastCompleted: Option<(u32, u64)>)

  datatype Outcome =
    | Pending(replacedIncomplete: bool)
    | Complete(generation: u32, sequence: u64, payload: Bytes, replacedIncomplete: bool)
    | IgnoredOld

  datatype Reply = Done(outcome: Outcome) | Invalid

  const CLEARED: State := State(None, None)

  /** Generation first, then sequence. */
  predicate Before(a: (u32, u64), b: (u32, u64)) {
    a.0 < b.0 || (a.0 == b.0 && a.1 < b.1)
  }

  function RangeOf(f: Fragment): Range { Range(f.offset, |f.payload|) }

  function Overwrite(bytes: Bytes, offset: nat, piece: Bytes): (r: Bytes)
    requires offset + |piece| <= |bytes|
    ensures |r| == |bytes|
  {
    bytes[..offset] + piece + bytes[offset + |piece|..]
  }

  predicate Shaped(p: Partial) {
    |p.slots| == p.count && |p.bytes| == p.totalLen
  }

  /** Filling a slot, refusing a second fragment for it that differs. */
  function Insert(p: Partial, f: Fragment): Option<Partial>
    requires Shaped(p) && f.offset + |f.payload| <= p.totalLen
  {
    if f.index >= |p.slots| then None
    else if p.slots[f.index].Some? then
      if p.slots[f.index].value != RangeOf(f) || p.bytes[f.offset..f.offset + |f.payload|] != f.payload then None
      else Some(p)
    else
      Some(p.(bytes := Overwrite(p.bytes, f.offset, f.payload),
              slots := p.slots[f.index := Some(RangeOf(f))],
              received := p.received + 1))
  }

  function Empty(generation: u32, sequence: u64, f: Fragment): Partial {
    Partial(generation, sequence, f.count, f.totalLen, seq(f.count, _ => None), 0, seq(f.totalLen, _ => 0))
  }

  /** How many of the ranges contain position `x`. */
  ghost function CoverCount(ranges: seq<Range>, x: nat): nat {
    if ranges == [] then 0
    else (if Covers(ranges[0], x) then 1 else 0) + CoverCount(ranges[1..], x)
  }

  predicate Covers(r: Range, x: nat) {
    r.offset <= x < r.offset + r.length
  }

  /** Every position in `from..total` lies in exactly one range, and no range reaches outside. */
  ghost predicate TilesFrom(ranges: seq<Range>, from: nat, total: nat) {
    forall x: nat :: CoverCount(ranges, x) == if from <= x < total then 1 else 0
  }

  ghost predicate Tiles(ranges: seq<Range>, total: nat) {
    TilesFrom(ranges, 0, total)
  }

  function Filled(slots: seq<Option<Range>>): seq<Range> {
    if slots == [] then []
    else (if slots[0].Some? then [slots[0].value] else []) + Filled(slots[1..])
  }

  ghost predicate Finishes(p: Partial) {
    (forall k :: 0 <= k < |p.slots| ==> p.slots[k].Some?) && Tiles(Filled(p.slots), p.totalLen)
  }

  ghost predicate Stale(s: State, generation: u32, sequence: u64) {
    || (s.lastCompleted.Some? && !Before(s.lastCompleted.value, (generation, sequence)))
    || (s.partial.Some? && Before((generation, sequence), (s.partial.value.generation, s.partial.value.sequence)))
  }

  /** The state and reply after the fragment has been stored in partial `p`. */
  ghost function Settle(s: State, p: Partial, replaced: bool): (State, Reply) {
    if p.received != p.count then (s.(partial := Some(p)), Done(Pending(replaced)))
    else
      (State(None, Some((p.generation, p.sequence))),
       if Finishes(p) then Done(Complete(p.generation, p.sequence, p.bytes, replaced)) else Invalid)
  }

  ghost function PushFragment(s: State, generation: u32, sequence: u64, f: Fragment): (State, Reply)
    requires s.partial.Some? ==> Shaped(s.partial.value)
    requires f.offset + |f.payload| <= f.totalLen
  {
    var same := s.partial.Some? && (s.partial.value.generation, s.partial.value.sequence) == (generation, sequence);
    var replaced := !same && s.partial.Some?;
    var p := if same then s.partial.value else Empty(generation, sequence, f);
    if same && (p.count != f.count || p.totalLen != f.totalLen) then (s, Invalid)
    else
      var stored := Insert(p, f);
      if stored.None? then (if same then s else s.(partial := Some(p)), Invalid)
      else Settle(s, stored.value, replaced)
  }

  /**
    One received datagram. The completed pair is recorded before the ranges are checked, so a
    group whose ranges do not tile is over even though nothing is delivered.
   */
  ghost function Push(s: State, generation: u32, sequence: u64, bytes: Bytes, config: BindingConfig): (State, Reply)
    requires s.partial.Some? ==> Shaped(s.partial.value)
  {
    if s.lastCompleted.Some? && !Before(s.lastCompleted.value, (generation, sequence)) then (s, Done(IgnoredOld))
    else
      var f := Decode(bytes, config);
      if f.None? then (s, Invalid)
      else if Stale(s, generation, sequence) then (s, Done(IgnoredOld))
      else PushFragment(s, generation, sequence, f.value)
  }
}
