/** Bit sets of capabilities and the protocol descriptions that carry them (`control.rs`, `handshake.rs`). */
module Capabilities {
  import opened Base
  import opened Identity

  /* -------------------------------- Bit operations ------------------------------ */

  /** `a & b` on unsigned words. */
  function BitAnd(a: nat, b: nat): (r: nat)
    ensures r <= a && r <= b
  {
    if a == 0 || b == 0 then 0
    else (if a % 2 == 1 && b % 2 == 1 then 1 else 0) + 2 * BitAnd(a / 2, b / 2)
  }

  /** `!b` on 64-bit words. */
  function BitNot64(b: u64): u64 { U64_MAX - b }

  /** Every bit of `a` is a bit of `b`. */
  predicate BitsWithin(a: nat, b: nat) {
    a == 0 || ((a % 2 == 1 ==> b % 2 == 1) && BitsWithin(a / 2, b / 2))
  }

  /** All ones in the low `k` bits. */
  ghost function Mask(k: nat): nat {
    if k == 0 then 0 else 1 + 2 * Mask(k - 1)
  }

  lemma MaskByte(k: nat)
    ensures Mask(k + 8) == 256 * Mask(k) + 255
  {
    assert Mask(k + 2) == 4 * Mask(k) + 3;
    assert Mask(k + 4) == 4 * Mask(k + 2) + 3;
    assert Mask(k + 6) == 4 * Mask(k + 4) + 3;
    assert Mask(k + 8) == 4 * Mask(k + 6) + 3;
  }

  lemma Mask32()
    ensures Mask(32) == U32_MAX
  {
    assert Mask(0) == 0;
    MaskByte(0);
    MaskByte(8);
    MaskByte(16);
    MaskByte(24);
  }

  lemma Mask64()
    ensures Mask(64) == U64_MAX
  {
    hide Mask;
    Mask32();
    MaskByte(32);
    MaskByte(40);
    MaskByte(48);
    MaskByte(56);
  }

  lemma {:induction false} AndNotIsWithin(k: nat, a: nat, b: nat)
    requires a <= Mask(k) && b <= Mask(k)
    ensures BitAnd(a, Mask(k) - b) == 0 <==> BitsWithin(a, b)
  {
    if k > 0 && a > 0 {
      var m := Mask(k) - b;
      assert m % 2 == 1 - b % 2 && m / 2 == Mask(k - 1) - b / 2;
      AndNotIsWithin(k - 1, a / 2, b / 2);
      if m == 0 {
        assert b / 2 == Mask(k - 1);
        AndNotIsWithin(k - 1, a / 2, Mask(k - 1));
      }
    }
  }

  lemma {:induction false} AndWithin(a: nat, b: nat)
    ensures BitsWithin(BitAnd(a, b), a) && BitsWithin(BitAnd(a, b), b)
  {
    if a > 0 && b > 0 {
      AndWithin(a / 2, b / 2);
    }
  }

  /** Bit `n` of a word. */
  predicate Bit(word: nat, n: nat) {
    if n == 0 then word % 2 == 1 else Bit(word / 2, n - 1)
  }

  lemma {:induction false} NoBits(n: nat)
    ensures !Bit(0, n)
  {
    if n > 0 {
      NoBits(n - 1);
    }
  }

  /** `a & b` has exactly the bits both have. */
  lemma {:induction false} AndIsBoth(a: nat, b: nat, n: nat)
    ensures Bit(BitAnd(a, b), n) <==> Bit(a, n) && Bit(b, n)
  {
    NoBits(n);
    if n > 0 && a > 0 && b > 0 {
      AndIsBoth(a / 2, b / 2, n - 1);
    }
  }

  /** A word is its bits. */
  lemma {:induction false} BitsDecide(a: nat, b: nat)
    requires forall n: nat :: Bit(a, n) <==> Bit(b, n)
    ensures a == b
    decreases a + b
  {
    if a > 0 || b > 0 {
      assert Bit(a, 0) <==> Bit(b, 0);
      forall n: nat
        ensures Bit(a / 2, n) <==> Bit(b / 2, n)
      {
        assert Bit(a, n + 1) <==> Bit(b, n + 1);
      }
      BitsDecide(a / 2, b / 2);
    }
  }

  lemma {:induction false} WithinGives(a: nat, b: nat, n: nat)
    requires BitsWithin(a, b)
    ensures Bit(a, n) ==> Bit(b, n)
  {
    if a == 0 {
      NoBits(n);
    } else if n > 0 {
      WithinGives(a / 2, b / 2, n - 1);
    }
  }

  /** Every bit of `a` is a bit of `b`, position by position. */
  ghost predicate Covered(a: nat, b: nat) {
    forall n: nat :: Bit(a, n) ==> Bit(b, n)
  }

  lemma {:induction false} CoveredIsWithin(a: nat, b: nat)
    requires Covered(a, b)
    ensures BitsWithin(a, b)
  {
    if a > 0 {
      assert Bit(a, 0) ==> Bit(b, 0);
      forall n: nat | Bit(a / 2, n)
        ensures Bit(b / 2, n)
      {
        assert Bit(a, n + 1) ==> Bit(b, n + 1);
      }
      CoveredIsWithin(a / 2, b / 2);
    }
  }

  lemma WithinIsCovered(a: nat, b: nat)
    ensures BitsWithin(a, b) <==> Covered(a, b)
  {
    if BitsWithin(a, b) {
      forall n: nat
        ensures Bit(a, n) ==> Bit(b, n)
      {
        WithinGives(a, b, n);
      }
    } else if Covered(a, b) {
      CoveredIsWithin(a, b);
    }
  }

  /* ------------------------------ Link capabilities ----------------------------- */

  const COMPACT_CHANNEL_ID: u64 := 1
  const TYPED_CONTROL: u64 := 32

  predicate Contains(caps: u64, capability: u64) {
    BitAnd(caps, capability) == capability
  }

  predicate SubsetOf(a: u64, b: u64) {
    BitAnd(a, BitNot64(b)) == 0
  }

  /** The mask test decides inclusion bit by bit. */
  lemma SubsetIsInclusion(a: u64, b: u64)
    ensures SubsetOf(a, b) <==> BitsWithin(a, b)
    ensures SubsetOf(a, b) <==> Covered(a, b)
  {
    hide BitsWithin, BitAnd;
    Mask64();
    AndNotIsWithin(64, a, b);
    WithinIsCovered(a, b);
  }

  /** A word contains compact channels when bit 0 is set, and typed control when bit 5 is. */
  lemma ContainsIsBit(caps: u64)
    ensures Contains(caps, COMPACT_CHANNEL_ID) <==> Bit(caps, 0)
    ensures Contains(caps, TYPED_CONTROL) <==> Bit(caps, 5)
  {
    hide BitAnd;
    AndWithOne(caps);
    AndWithPower(caps, 16);
    AndWithPower(caps / 2, 8);
    AndWithPower(caps / 4, 4);
    AndWithPower(caps / 8, 2);
    AndWithPower(caps / 16, 1);
    AndWithOne(caps / 32);
    assert caps / 2 / 2 == caps / 4 && caps / 4 / 2 == caps / 8 && caps / 8 / 2 == caps / 16;
    assert caps / 16 / 2 == caps / 32;
    assert Bit(caps / 8, 2) == Bit(caps / 32, 0);
    assert Bit(caps / 2, 4) == Bit(caps / 8, 2);
  }

  lemma AndWithOne(a: nat)
    ensures BitAnd(a, 1) == a % 2
  {
    assert BitAnd(a / 2, 0) == 0;
  }

  lemma AndWithPower(a: nat, p: nat)
    requires p > 0
    ensures BitAnd(a, 2 * p) == 2 * BitAnd(a / 2, p)
  {
    assert (2 * p) / 2 == p;
  }

  lemma IntersectionIsSubset(a: u64, b: u64)
    ensures SubsetOf(BitAnd(a, b), a) && SubsetOf(BitAnd(a, b), b)
  {
    AndWithin(a, b);
    SubsetIsInclusion(BitAnd(a, b), a);
    SubsetIsInclusion(BitAnd(a, b), b);
  }

  /* ---------------------------- Protocol capabilities --------------------------- */

  const MAX_PROTOCOL_CAPABILITY_WORDS: nat := 8

  datatype ProtocolCapabilitySet = ProtocolCapabilitySet(protocolId: Id16, words: seq<u64>) {
    predicate IsBounded() {
      |words| <= MAX_PROTOCOL_CAPABILITY_WORDS
    }

    function Intersect(other: ProtocolCapabilitySet): Option<ProtocolCapabilitySet> {
      if protocolId == other.protocolId then
        Some(ProtocolCapabilitySet(protocolId, AndWords(words, other.words)))
      else None
    }

    predicate IsSubsetOf(other: ProtocolCapabilitySet) {
      && protocolId == other.protocolId
      && forall k :: 0 <= k < |words| ==> SubsetOf(words[k], WordAt(other.words, k))
    }
  }

  function WordAt(words: seq<u64>, k: nat): u64 {
    if k < |words| then words[k] else 0
  }

  function AndWords(a: seq<u64>, b: seq<u64>): (r: seq<u64>)
    ensures |r| == Min(|a|, |b|)
    ensures forall k :: 0 <= k < |r| ==> r[k] == BitAnd(a[k], b[k])
  {
    seq(Min(|a|, |b|), k requires 0 <= k < Min(|a|, |b|) => BitAnd(a[k], b[k]))
  }

  /** An intersection grants only what both sides offered, and stays bounded if either side was. */
  lemma IntersectGrantsNothingNew(a: ProtocolCapabilitySet, b: ProtocolCapabilitySet)
    requires a.Intersect(b).Some?
    ensures var c := a.Intersect(b).value;
            && c.IsSubsetOf(a) && c.IsSubsetOf(b)
            && (a.IsBounded() || b.IsBounded() ==> c.IsBounded())
  {
    var c := a.Intersect(b).value;
    forall k | 0 <= k < |c.words|
      ensures SubsetOf(c.words[k], WordAt(a.words, k)) && SubsetOf(c.words[k], WordAt(b.words, k))
    {
      IntersectionIsSubset(a.words[k], b.words[k]);
    }
  }

  /* ---------------------------- Protocol descriptions --------------------------- */

  datatype ProtocolDebugIdentity = ProtocolDebugIdentity(authority: Bytes, name: Bytes)

  predicate ComponentByte(b: byte) {
    0x61 <= b <= 0x7A || 0x30 <= b <= 0x39 || b == 0x2D || b == 0x5F
  }

  /** Lower-case letters, digits, `-` and `_`, at least one. */
  predicate Component(s: Bytes) {
    s != [] && forall b :: b in s ==> ComponentByte(b)
  }

  /** Components separated by single dots. */
  predicate Dotted(s: Bytes) {
    && s != [] && s[0] != 0x2E && s[|s| - 1] != 0x2E
    && (forall b :: b in s ==> ComponentByte(b) || b == 0x2E)
    && forall i :: 0 < i < |s| ==> !(s[i - 1] == 0x2E && s[i] == 0x2E)
  }

  predicate Canonical(identity: ProtocolDebugIdentity) {
    Dotted(identity.authority) && Component(identity.name)
  }

  /**
    The 128-bit identifier derived from an authority and a name. The digest itself is not
    modelled: every statement holds for any such function.
   */
  type Derive = (Bytes, Bytes) -> Id16

  datatype SchemaRef = SchemaRef(id: Id16, revision: u32, fingerprint: Id32)

  datatype ProtocolOffer = ProtocolOffer(
    stableId: Id16, debugIdentity: Option<ProtocolDebugIdentity>, versions: VersionRange,
    schema: SchemaRef, capabilities: ProtocolCapabilitySet)

  datatype ProtocolSelection = ProtocolSelection(
    stableId: Id16, version: ProtocolVersion, schema: SchemaRef, capabilities: ProtocolCapabilitySet)

  /** Both sides name the protocol and the names differ. */
  predicate DebugConflict(a: Option<ProtocolDebugIdentity>, b: Option<ProtocolDebugIdentity>) {
    a.Some? && b.Some? && a != b
  }
}
