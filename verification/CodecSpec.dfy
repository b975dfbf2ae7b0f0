/**
  Primitive readers and writers of the control codec (`control.rs`). A reader takes what it needs
  off the front of the remaining bytes; for each one, reading what was written gives the value back
  and writing what was read gives the bytes back.
 */
module CodecSpec {
  import opened Base
  import opened Wire
  import opened Identity
  import opened Capabilities

  const MAX_CONTROL_PROTOCOLS: nat := 32
  const MAX_CONTROL_DEBUG_COMPONENT_BYTES: nat := 128

  datatype CodecError =
    | ModeMismatch | UnsupportedVersion | UnknownOpcode | Truncated | LimitExceeded | InvalidPayload | OpcodeMismatch
    | TrailingBytes

  datatype Parse<+T> = Got(value: T, rest: Bytes) | Bad(error: CodecError)

  /* ------------------------------------ Fixed width ----------------------------------- */

  function Take(b: Bytes, n: nat): (p: Parse<Bytes>)
    ensures p.Got? ==> |p.value| == n && b == p.value + p.rest
  {
    if |b| < n then Bad(Truncated) else Got(b[..n], b[n..])
  }

  lemma TakeGives(v: Bytes, rest: Bytes)
    ensures Take(v + rest, |v|) == Got(v, rest)
  {
    assert (v + rest)[..|v|] == v && (v + rest)[|v|..] == rest;
  }

  function ReadU8(b: Bytes): Parse<byte> {
    if b == [] then Bad(Truncated) else Got(b[0], b[1..])
  }

  function ReadU16(b: Bytes): Parse<u16> {
    if |b| < 2 then Bad(Truncated) else Got(Get16(b[..2]), b[2..])
  }

  function ReadU32(b: Bytes): Parse<u32> {
    if |b| < 4 then Bad(Truncated) else Got(Get32(b[..4]), b[4..])
  }

  function ReadU64(b: Bytes): Parse<u64> {
    if |b| < 8 then Bad(Truncated) else Got(Get64(b[..8]), b[8..])
  }

  function ReadId16(b: Bytes): Parse<Id16> {
    if |b| < 16 then Bad(Truncated) else Got(b[..16], b[16..])
  }

  function ReadId32(b: Bytes): Parse<Id32> {
    if |b| < 32 then Bad(Truncated) else Got(b[..32], b[32..])
  }

  lemma U8Gives(v: byte, rest: Bytes)
    ensures ReadU8([v] + rest) == Got(v, rest)
  {
    assert ([v] + rest)[1..] == rest;
  }

  lemma U16Gives(v: u16, rest: Bytes)
    ensures ReadU16(Put16(v) + rest) == Got(v, rest)
  {
    hide Put16, Get16;
    TakeGives(Put16(v), rest);
    GetPut16(v);
  }

  lemma U32Gives(v: u32, rest: Bytes)
    ensures ReadU32(Put32(v) + rest) == Got(v, rest)
  {
    hide Put32, Get32;
    TakeGives(Put32(v), rest);
    GetPut32(v);
  }

  lemma U64Gives(v: u64, rest: Bytes)
    ensures ReadU64(Put64(v) + rest) == Got(v, rest)
  {
    hide Put64, Get64;
    TakeGives(Put64(v), rest);
    GetPut64(v);
  }

  lemma Id16Gives(v: Id16, rest: Bytes)
    ensures ReadId16(v + rest) == Got(v, rest)
  {
    TakeGives(v, rest);
  }

  lemma Id32Gives(v: Id32, rest: Bytes)
    ensures ReadId32(v + rest) == Got(v, rest)
  {
    TakeGives(v, rest);
  }

  lemma U8Came(b: Bytes)
    ensures ReadU8(b).Got? ==> b == [ReadU8(b).value] + ReadU8(b).rest
  {
  }

  lemma U16Came(b: Bytes)
    ensures ReadU16(b).Got? ==> b == Put16(ReadU16(b).value) + ReadU16(b).rest
  {
    hide Put16, Get16;
    if |b| >= 2 {
      PutGet16(b[..2]);
    }
  }

  lemma U32Came(b: Bytes)
    ensures ReadU32(b).Got? ==> b == Put32(ReadU32(b).value) + ReadU32(b).rest
  {
    hide Put32, Get32;
    if |b| >= 4 {
      PutGet32(b[..4]);
    }
  }

  lemma U64Came(b: Bytes)
    ensures ReadU64(b).Got? ==> b == Put64(ReadU64(b).value) + ReadU64(b).rest
  {
    hide Put64, Get64;
    if |b| >= 8 {
      PutGet64(b[..8]);
    }
  }

  lemma Id16Came(b: Bytes)
    ensures ReadId16(b).Got? ==> b == ReadId16(b).value + ReadId16(b).rest
  {
  }

  lemma Id32Came(b: Bytes)
    ensures ReadId32(b).Got? ==> b == ReadId32(b).value + ReadId32(b).rest
  {
  }

  /* -------------------------------------- Versions ------------------------------------- */

  function WriteVersion(v: ProtocolVersion): (b: Bytes)
    ensures |b| == 4
  {
    Put16(v.major) + Put16(v.minor)
  }

  function ReadVersion(b: Bytes): Parse<ProtocolVersion> {
    var major := ReadU16(b);
    if major.Bad? then Bad(major.error)
    else
      var minor := ReadU16(major.rest);
      if minor.Bad? then Bad(minor.error) else Got(ProtocolVersion(major.value, minor.value), minor.rest)
  }

  lemma VersionGives(v: ProtocolVersion, rest: Bytes)
    ensures ReadVersion(WriteVersion(v) + rest) == Got(v, rest)
  {
    hide ReadU16, Put16;
    assert WriteVersion(v) + rest == Put16(v.major) + (Put16(v.minor) + rest);
    U16Gives(v.major, Put16(v.minor) + rest);
    U16Gives(v.minor, rest);
  }

  lemma VersionCame(b: Bytes)
    ensures ReadVersion(b).Got? ==> b == WriteVersion(ReadVersion(b).value) + ReadVersion(b).rest
  {
    hide ReadU16, Put16;
    if ReadVersion(b).Got? {
      U16Came(b);
      U16Came(ReadU16(b).rest);
    }
  }

  function WriteRange(v: VersionRange): (b: Bytes)
    ensures |b| == 8
  {
    WriteVersion(v.minimum) + WriteVersion(v.maximum)
  }

  function ReadRange(b: Bytes): Parse<VersionRange> {
    var minimum := ReadVersion(b);
    if minimum.Bad? then Bad(minimum.error)
    else
      var maximum := ReadVersion(minimum.rest);
      if maximum.Bad? then Bad(maximum.error)
      else
        var v := VersionRange(minimum.value, maximum.value);
        if !v.IsValid() then Bad(InvalidPayload) else Got(v, maximum.rest)
  }

  lemma RangeGives(v: VersionRange, rest: Bytes)
    requires v.IsValid()
    ensures ReadRange(WriteRange(v) + rest) == Got(v, rest)
  {
    hide ReadVersion, WriteVersion;
    assert WriteRange(v) + rest == WriteVersion(v.minimum) + (WriteVersion(v.maximum) + rest);
    VersionGives(v.minimum, WriteVersion(v.maximum) + rest);
    VersionGives(v.maximum, rest);
  }

  lemma RangeCame(b: Bytes)
    ensures ReadRange(b).Got? ==>
              ReadRange(b).value.IsValid() && b == WriteRange(ReadRange(b).value) + ReadRange(b).rest
  {
    hide ReadVersion, WriteVersion;
    if ReadRange(b).Got? {
      VersionCame(b);
      VersionCame(ReadVersion(b).rest);
    }
  }

  /* -------------------------------------- Schemas -------------------------------------- */

  function WriteSchema(s: SchemaRef): (b: Bytes)
    ensures |b| == 52
  {
    s.id + Put32(s.revision) + s.fingerprint
  }

  function ReadSchema(b: Bytes): Parse<SchemaRef> {
    var id := ReadId16(b);
    if id.Bad? then Bad(id.error)
    else
      var revision := ReadU32(id.rest);
      if revision.Bad? then Bad(revision.error)
      else
        var fingerprint := ReadId32(revision.rest);
        if fingerprint.Bad? then Bad(fingerprint.error)
        else if revision.value == 0 then Bad(InvalidPayload)
        else Got(SchemaRef(id.value, revision.value, fingerprint.value), fingerprint.rest)
  }

  lemma SchemaGives(s: SchemaRef, rest: Bytes)
    requires s.revision != 0
    ensures ReadSchema(WriteSchema(s) + rest) == Got(s, rest)
  {
    hide ReadId16, ReadId32, ReadU32, Put32;
    assert WriteSchema(s) + rest == s.id + (Put32(s.revision) + (s.fingerprint + rest));
    Id16Gives(s.id, Put32(s.revision) + (s.fingerprint + rest));
    U32Gives(s.revision, s.fingerprint + rest);
    Id32Gives(s.fingerprint, rest);
  }

  lemma SchemaCame(b: Bytes)
    ensures ReadSchema(b).Got? ==>
              ReadSchema(b).value.revision != 0 && b == WriteSchema(ReadSchema(b).value) + ReadSchema(b).rest
  {
    hide ReadId16, ReadId32, ReadU32, Put32;
    if ReadSchema(b).Got? {
      Id16Came(b);
      U32Came(ReadId16(b).rest);
      Id32Came(ReadU32(ReadId16(b).rest).rest);
    }
  }

  /* ----------------------------------- Capabilities ------------------------------------ */

  function WriteWords(words: seq<u64>): (b: Bytes)
    ensures |b| == 8 * |words|
  {
    if words == [] then [] else Put64(words[0]) + WriteWords(words[1..])
  }

  function ReadWords(b: Bytes, n: nat): Parse<seq<u64>> {
    if n == 0 then Got([], b)
    else
      var first := ReadU64(b);
      if first.Bad? then Bad(first.error)
      else
        var others := ReadWords(first.rest, n - 1);
        if others.Bad? then others else Got([first.value] + others.value, others.rest)
  }

  lemma {:induction false} WordsGive(words: seq<u64>, rest: Bytes)
    ensures ReadWords(WriteWords(words) + rest, |words|) == Got(words, rest)
  {
    hide ReadU64, Put64;
    if words == [] {
      assert WriteWords(words) + rest == rest;
    } else {
      assert WriteWords(words) + rest == Put64(words[0]) + (WriteWords(words[1..]) + rest);
      U64Gives(words[0], WriteWords(words[1..]) + rest);
      WordsGive(words[1..], rest);
      assert words == [words[0]] + words[1..];
    }
  }

  lemma {:induction false} WordsCame(b: Bytes, n: nat)
    ensures ReadWords(b, n).Got? ==>
              |ReadWords(b, n).value| == n && b == WriteWords(ReadWords(b, n).value) + ReadWords(b, n).rest
    decreases n
  {
    hide ReadU64, Put64;
    if ReadWords(b, n).Got? {
      if n > 0 {
        U64Came(b);
        WordsCame(ReadU64(b).rest, n - 1);
        var words := ReadWords(b, n).value;
        assert words[1..] == ReadWords(ReadU64(b).rest, n - 1).value;
        assert WriteWords(words) == Put64(words[0]) + WriteWords(words[1..]);
      }
    }
  }

  function ReadCount(b: Bytes, maximum: nat): Parse<byte> {
    var count := ReadU8(b);
    if count.Got? && count.value > maximum then Bad(LimitExceeded) else count
  }

  function WriteCapabilities(c: ProtocolCapabilitySet): (b: Bytes)
    requires c.IsBounded()
    ensures |b| == 17 + 8 * |c.words|
  {
    c.protocolId + [|c.words|] + WriteWords(c.words)
  }

  function ReadCapabilities(b: Bytes): Parse<ProtocolCapabilitySet> {
    var id := ReadId16(b);
    if id.Bad? then Bad(id.error)
    else
      var count := ReadCount(id.rest, MAX_PROTOCOL_CAPABILITY_WORDS);
      if count.Bad? then Bad(count.error)
      else
        var words := ReadWords(count.rest, count.value);
        if words.Bad? then Bad(words.error) else Got(ProtocolCapabilitySet(id.value, words.value), words.rest)
  }

  lemma CapabilitiesGive(c: ProtocolCapabilitySet, rest: Bytes)
    requires c.IsBounded()
    ensures ReadCapabilities(WriteCapabilities(c) + rest) == Got(c, rest)
  {
    hide ReadId16, ReadU8, ReadWords, WriteWords;
    var words := WriteWords(c.words);
    assert WriteCapabilities(c) + rest == c.protocolId + ([|c.words|] + (words + rest));
    Id16Gives(c.protocolId, [|c.words|] + (words + rest));
    U8Gives(|c.words|, words + rest);
    WordsGive(c.words, rest);
  }

  lemma CapabilitiesCame(b: Bytes)
    ensures ReadCapabilities(b).Got? ==>
              ReadCapabilities(b).value.IsBounded()
              && b == WriteCapabilities(ReadCapabilities(b).value) + ReadCapabilities(b).rest
  {
    hide ReadId16, ReadU8, ReadWords, WriteWords;
    if ReadCapabilities(b).Got? {
      Id16Came(b);
      U8Came(ReadId16(b).rest);
      var count := ReadU8(ReadId16(b).rest);
      WordsCame(count.rest, count.value);
    }
  }

  /* ------------------------------------- Strings --------------------------------------- */

  predicate Tail(b: byte) { 0x80 <= b <= 0xBF }

  /** How many bytes the well-formed UTF-8 character at the front occupies; zero if there is none. */
  function Utf8Width(s: Bytes): nat
    requires s != []
  {
    if s[0] <= 0x7F then 1
    else if 0xC2 <= s[0] <= 0xDF && |s| >= 2 && Tail(s[1]) then 2
    else if || (s[0] == 0xE0 && |s| >= 3 && 0xA0 <= s[1] <= 0xBF && Tail(s[2]))
            || (0xE1 <= s[0] <= 0xEC && |s| >= 3 && Tail(s[1]) && Tail(s[2]))
            || (s[0] == 0xED && |s| >= 3 && 0x80 <= s[1] <= 0x9F && Tail(s[2]))
            || (0xEE <= s[0] <= 0xEF && |s| >= 3 && Tail(s[1]) && Tail(s[2]))
    then 3
    else if || (s[0] == 0xF0 && |s| >= 4 && 0x90 <= s[1] <= 0xBF && Tail(s[2]) && Tail(s[3]))
            || (0xF1 <= s[0] <= 0xF3 && |s| >= 4 && Tail(s[1]) && Tail(s[2]) && Tail(s[3]))
            || (s[0] == 0xF4 && |s| >= 4 && 0x80 <= s[1] <= 0x8F && Tail(s[2]) && Tail(s[3]))
    then 4
    else 0
  }

  predicate Utf8(s: Bytes) {
    s == [] || (Utf8Width(s) > 0 && Utf8(s[Utf8Width(s)..]))
  }

  lemma {:induction false} AsciiIsUtf8(s: Bytes)
    requires forall k :: 0 <= k < |s| ==> s[k] <= 0x7F
    ensures Utf8(s)
  {
    if s != [] {
      AsciiIsUtf8(s[1..]);
    }
  }

  predicate StringFits(s: Bytes) { 0 < |s| <= MAX_CONTROL_DEBUG_COMPONENT_BYTES }

  function WriteString(s: Bytes): (b: Bytes)
    requires StringFits(s)
    ensures |b| == 2 + |s|
  {
    Put16(|s|) + s
  }

  function ReadString(b: Bytes): Parse<Bytes> {
    var len := ReadU16(b);
    if len.Bad? then Bad(len.error)
    else if len.value == 0 || len.value > MAX_CONTROL_DEBUG_COMPONENT_BYTES then Bad(LimitExceeded)
    else
      var s := Take(len.rest, len.value);
      if s.Got? && !Utf8(s.value) then Bad(InvalidPayload) else s
  }

  lemma StringGives(s: Bytes, rest: Bytes)
    requires StringFits(s) && Utf8(s)
    ensures ReadString(WriteString(s) + rest) == Got(s, rest)
  {
    hide ReadU16, Put16, Utf8, Take;
    assert WriteString(s) + rest == Put16(|s|) + (s + rest);
    U16Gives(|s|, s + rest);
    TakeGives(s, rest);
  }

  lemma StringCame(b: Bytes)
    ensures ReadString(b).Got? ==>
              StringFits(ReadString(b).value) && b == WriteString(ReadString(b).value) + ReadString(b).rest
  {
    hide ReadU16, Put16, Utf8;
    if ReadString(b).Got? {
      U16Came(b);
    }
  }

  /* --------------------------------- Debug identities ---------------------------------- */

  predicate IdentityFits(i: ProtocolDebugIdentity) { StringFits(i.authority) && StringFits(i.name) }

  function WriteIdentity(i: Option<ProtocolDebugIdentity>): (b: Bytes)
    requires i.Some? ==> IdentityFits(i.value)
    ensures |b| <= 261
  {
    if i.None? then [0] else [1] + WriteString(i.value.authority) + WriteString(i.value.name)
  }

  function ReadIdentity(b: Bytes): Parse<Option<ProtocolDebugIdentity>> {
    var tag := ReadU8(b);
    if tag.Bad? then Bad(tag.error)
    else if tag.value == 0 then Got(None, tag.rest)
    else if tag.value != 1 then Bad(InvalidPayload)
    else
      var authority := ReadString(tag.rest);
      if authority.Bad? then Bad(authority.error)
      else
        var name := ReadString(authority.rest);
        if name.Bad? then Bad(name.error)
        else Got(Some(ProtocolDebugIdentity(authority.value, name.value)), name.rest)
  }

  lemma CanonicalIsUtf8(i: ProtocolDebugIdentity)
    requires Canonical(i)
    ensures Utf8(i.authority) && Utf8(i.name)
  {
    forall k | 0 <= k < |i.authority|
      ensures i.authority[k] <= 0x7F
    {
      assert i.authority[k] in i.authority;
    }
    forall k | 0 <= k < |i.name|
      ensures i.name[k] <= 0x7F
    {
      assert i.name[k] in i.name;
    }
    AsciiIsUtf8(i.authority);
    AsciiIsUtf8(i.name);
  }

  lemma IdentityGives(i: Option<ProtocolDebugIdentity>, rest: Bytes)
    requires i.Some? ==> IdentityFits(i.value) && Canonical(i.value)
    ensures ReadIdentity(WriteIdentity(i) + rest) == Got(i, rest)
  {
    hide ReadU8, ReadString, WriteString, Utf8, Canonical;
    if i.Some? {
      CanonicalIsUtf8(i.value);
      var name := WriteString(i.value.name);
      var authority := WriteString(i.value.authority);
      assert WriteIdentity(i) + rest == [1] + (authority + (name + rest));
      U8Gives(1, authority + (name + rest));
      StringGives(i.value.authority, name + rest);
      StringGives(i.value.name, rest);
    } else {
      U8Gives(0, rest);
    }
  }

  lemma IdentityCame(b: Bytes)
    ensures ReadIdentity(b).Got? ==>
              var i := ReadIdentity(b).value;
              (i.Some? ==> IdentityFits(i.value)) && b == WriteIdentity(i) + ReadIdentity(b).rest
  {
    hide ReadU8, ReadString, WriteString, StringFits;
    if ReadIdentity(b).Got? {
      U8Came(b);
      var rest := ReadU8(b).rest;
      if ReadU8(b).value == 1 {
        StringCame(rest);
        StringCame(ReadString(rest).rest);
      }
    }
  }
}
