/** The control codec as the imperative code runs it (`control.rs`): a growing buffer and a cursor. */
module ControlCodec {
  import opened Base
  import opened Wire
  import opened Identity
  import opened Capabilities
  import opened CodecSpec
  import opened ControlSpec
  import opened ControlCodecSpec
  import HandshakeSpec

  /* -------------------------------------- Writer --------------------------------------- */

  class Writer {
    var bytes: Bytes

    constructor (start: Bytes)
      ensures bytes == start
    {
      bytes := start;
    }

    method Append(more: Bytes)
      modifies this
      ensures bytes == old(bytes) + more
    {
      bytes := bytes + more;
    }

    method Count(n: nat, maximum: nat) returns (error: Option<CodecError>)
      requires maximum <= 0xFF
      modifies this
      ensures error == if n > maximum then Some(LimitExceeded) else None
      ensures bytes == if n > maximum then old(bytes) else old(bytes) + [n]
    {
      if n > maximum || n > 0xFF {
        return Some(LimitExceeded);
      }
      Append([n]);
      return None;
    }

    method Version(v: ProtocolVersion)
      modifies this
      ensures bytes == old(bytes) + WriteVersion(v)
    {
      hide Put16;
      Append(Put16(v.major));
      Append(Put16(v.minor));
    }

    method Range(v: VersionRange)
      modifies this
      ensures bytes == old(bytes) + WriteRange(v)
    {
      hide WriteVersion;
      Version(v.minimum);
      Version(v.maximum);
    }

    method Schema(s: SchemaRef)
      modifies this
      ensures bytes == old(bytes) + WriteSchema(s)
    {
      hide Put32;
      Append(s.id);
      Append(Put32(s.revision));
      Append(s.fingerprint);
    }

    method Words(words: seq<u64>)
      modifies this
      ensures bytes == old(bytes) + WriteWords(words)
    {
      hide Put64, WriteWords;
      var i := 0;
      WordsFrom(words, |words|);
      assert words[0..] == words;
      while i < |words|
        invariant 0 <= i <= |words| && old(bytes) + WriteWords(words) == bytes + WriteWords(words[i..])
      {
        WordsFrom(words, i);
        Append(Put64(words[i]));
        i := i + 1;
      }
    }

    method Capabilities(c: ProtocolCapabilitySet) returns (error: Option<CodecError>)
      modifies this
      ensures error == if c.IsBounded() then None else Some(LimitExceeded)
      ensures error.None? ==> bytes == old(bytes) + WriteCapabilities(c)
    {
      hide WriteWords;
      Append(c.protocolId);
      error := Count(|c.words|, MAX_PROTOCOL_CAPABILITY_WORDS);
      if error.Some? {
        return;
      }
      Words(c.words);
    }

    method Text(s: Bytes) returns (error: Option<CodecError>)
      modifies this
      ensures error == if StringFits(s) then None else Some(LimitExceeded)
      ensures error.None? ==> bytes == old(bytes) + WriteString(s)
    {
      hide Put16;
      if s == [] || |s| > MAX_CONTROL_DEBUG_COMPONENT_BYTES {
        return Some(LimitExceeded);
      }
      Append(Put16(|s|));
      Append(s);
      return None;
    }

    method DebugIdentity(i: Option<ProtocolDebugIdentity>) returns (error: Option<CodecError>)
      requires i.Some? ==> Canonical(i.value)
      modifies this
      ensures error == if i.None? || IdentityFits(i.value) then None else Some(LimitExceeded)
      ensures error.None? ==> bytes == old(bytes) + WriteIdentity(i)
    {
      hide WriteString, StringFits, Canonical;
      if i.None? {
        Append([0]);
        return None;
      }
      Append([1]);
      error := Text(i.value.authority);
      if error.Some? {
        return;
      }
      error := Text(i.value.name);
    }

    /** One offer after its checks; the set of ids already written is the caller's. */
    method Offer(o: ProtocolOffer, derive: Derive) returns (error: Option<CodecError>)
      requires OfferOk(o, derive)
      modifies this
      ensures error == if OfferFits(o) then None else Some(LimitExceeded)
      ensures error.None? ==> bytes == old(bytes) + WriteOffer(o)
    {
      hide WriteIdentity, WriteRange, WriteSchema, WriteCapabilities, IdentityFits, Canonical,
        ProtocolCapabilitySet.IsBounded;
      Append(o.stableId);
      error := DebugIdentity(o.debugIdentity);
      if error.Some? {
        return;
      }
      Range(o.versions);
      Schema(o.schema);
      error := Capabilities(o.capabilities);
    }

    method Selection(s: ProtocolSelection) returns (error: Option<CodecError>)
      modifies this
      ensures error == if SelectionFits(s) then None else Some(LimitExceeded)
      ensures error.None? ==> bytes == old(bytes) + WriteSelection(s)
    {
      hide WriteVersion, WriteSchema, WriteCapabilities, ProtocolCapabilitySet.IsBounded;
      Append(s.stableId);
      Version(s.version);
      Schema(s.schema);
      error := Capabilities(s.capabilities);
    }

    method Offers(offers: seq<ProtocolOffer>, derive: Derive) returns (error: Option<CodecError>)
      modifies this
      ensures error == PayloadError(OfferProtocols(offers), derive)
      ensures error.None? ==> bytes == old(bytes) + WritePayload(OfferProtocols(offers), derive)
    {
      hide WriteOffer, OfferOk, OfferFits, OffersError, WriteOffers, HasOffer;
      NoOffers(offers, derive);
      error := Count(|offers|, MAX_CONTROL_PROTOCOLS);
      if error.Some? {
        return;
      }
      ghost var start := bytes;
      var ids: set<Id16> := {};
      var i := 0;
      while i < |offers|
        invariant 0 <= i <= |offers| && error.None? && OffersError(offers, i, derive).None?
        invariant forall id :: id in ids <==> HasOffer(offers[..i], id)
        invariant bytes == start + WriteOffers(offers, i, derive)
      {
        var o := offers[i];
        assert offers[..i + 1] == offers[..i] + [o];
        HasOfferNext(offers[..i], o);
        NextOffer(offers, i, derive);
        i := i + 1;
        if o.stableId in ids || !OfferOk(o, derive) {
          OffersErrorSticks(offers, i, derive);
          return Some(InvalidPayload);
        }
        ids := ids + {o.stableId};
        error := Offer(o, derive);
        if error.Some? {
          OffersErrorSticks(offers, i, derive);
          return;
        }
      }
    }

    method Selections(selections: seq<ProtocolSelection>, derive: Derive) returns (error: Option<CodecError>)
      modifies this
      ensures error == PayloadError(SelectProtocols(selections), derive)
      ensures error.None? ==> bytes == old(bytes) + WritePayload(SelectProtocols(selections), derive)
    {
      hide WriteSelection, SelectionOk, SelectionFits, SelectionsError, WriteSelections, HasSelection;
      NoSelections(selections);
      error := Count(|selections|, MAX_CONTROL_PROTOCOLS);
      if error.Some? {
        return;
      }
      ghost var start := bytes;
      var ids: set<Id16> := {};
      var i := 0;
      while i < |selections|
        invariant 0 <= i <= |selections| && error.None? && SelectionsError(selections, i).None?
        invariant forall id :: id in ids <==> HasSelection(selections[..i], id)
        invariant bytes == start + WriteSelections(selections, i)
      {
        var s := selections[i];
        assert selections[..i + 1] == selections[..i] + [s];
        HasSelectionNext(selections[..i], s);
        NextSelection(selections, i);
        i := i + 1;
        if s.stableId in ids || !SelectionOk(s) {
          SelectionsErrorSticks(selections, i);
          return Some(InvalidPayload);
        }
        ids := ids + {s.stableId};
        error := Selection(s);
        if error.Some? {
          SelectionsErrorSticks(selections, i);
          return;
        }
      }
    }
  }

  lemma WordsFrom(words: seq<u64>, i: nat)
    requires i <= |words|
    ensures WriteWords(words[i..]) == if i == |words| then [] else Put64(words[i]) + WriteWords(words[i + 1..])
  {
    if i < |words| {
      assert words[i..][1..] == words[i + 1..];
    }
  }

  lemma NoOffers(offers: seq<ProtocolOffer>, derive: Derive)
    ensures OffersError(offers, 0, derive).None? && WriteOffers(offers, 0, derive) == []
    ensures forall id :: !HasOffer(offers[..0], id)
  {
  }

  lemma NextOffer(offers: seq<ProtocolOffer>, i: nat, derive: Derive)
    requires i < |offers| && OffersError(offers, i, derive).None?
    ensures OffersError(offers, i + 1, derive) == OfferError(offers[..i], offers[i], derive)
    ensures OffersError(offers, i + 1, derive).None? ==>
              OfferFits(offers[i])
              && WriteOffers(offers, i + 1, derive) == WriteOffers(offers, i, derive) + WriteOffer(offers[i])
  {
  }

  lemma NoSelections(selections: seq<ProtocolSelection>)
    ensures SelectionsError(selections, 0).None? && WriteSelections(selections, 0) == []
    ensures forall id :: !HasSelection(selections[..0], id)
  {
  }

  lemma NextSelection(selections: seq<ProtocolSelection>, i: nat)
    requires i < |selections| && SelectionsError(selections, i).None?
    ensures SelectionsError(selections, i + 1) == SelectionError(selections[..i], selections[i])
    ensures SelectionsError(selections, i + 1).None? ==>
              SelectionFits(selections[i])
              && WriteSelections(selections, i + 1) == WriteSelections(selections, i) + WriteSelection(selections[i])
  {
  }

  lemma HasOfferNext(offers: seq<ProtocolOffer>, o: ProtocolOffer)
    ensures forall id :: HasOffer(offers + [o], id) <==> HasOffer(offers, id) || id == o.stableId
  {
    forall id
      ensures HasOffer(offers + [o], id) <==> HasOffer(offers, id) || id == o.stableId
    {
      var all := offers + [o];
      if HasOffer(offers, id) {
        var k :| 0 <= k < |offers| && offers[k].stableId == id;
        assert all[k].stableId == id;
      }
      if id == o.stableId {
        assert all[|offers|].stableId == id;
      }
    }
  }

  lemma HasSelectionNext(selections: seq<ProtocolSelection>, s: ProtocolSelection)
    ensures forall id :: HasSelection(selections + [s], id) <==> HasSelection(selections, id) || id == s.stableId
  {
    forall id
      ensures HasSelection(selections + [s], id) <==> HasSelection(selections, id) || id == s.stableId
    {
      var all := selections + [s];
      if HasSelection(selections, id) {
        var k :| 0 <= k < |selections| && selections[k].stableId == id;
        assert all[k].stableId == id;
      }
      if id == s.stableId {
        assert all[|selections|].stableId == id;
      }
    }
  }

  lemma {:induction false} OffersErrorSticks(offers: seq<ProtocolOffer>, n: nat, derive: Derive)
    requires n <= |offers| && OffersError(offers, n, derive).Some?
    ensures OffersError(offers, |offers|, derive) == OffersError(offers, n, derive)
    decreases |offers| - n
  {
    hide OfferError;
    if n < |offers| {
      OffersErrorSticks(offers, n + 1, derive);
    }
  }

  lemma {:induction false} SelectionsErrorSticks(selections: seq<ProtocolSelection>, n: nat)
    requires n <= |selections| && SelectionsError(selections, n).Some?
    ensures SelectionsError(selections, |selections|) == SelectionsError(selections, n)
    decreases |selections| - n
  {
    hide SelectionError;
    if n < |selections| {
      SelectionsErrorSticks(selections, n + 1);
    }
  }

  method EncodeHello(writer: Writer, p: Payload)
    requires p.Hello?
    modifies writer
    ensures writer.bytes == old(writer.bytes) + WriteHello(p)
  {
    hide WriteRange, Put64;
    writer.Append(p.identity.peerId);
    writer.Append(p.identity.endpointId);
    writer.Append(p.identity.connectionId);
    writer.Range(p.linkVersions);
    writer.Append(Put64(p.linkCapabilities));
    writer.Append([AuthToWire(p.requestedAuth)]);
  }

  method EncodeOpen(writer: Writer, p: Payload)
    requires p.OpenChannel?
    modifies writer
    ensures writer.bytes == old(writer.bytes) + WriteOpen(p)
  {
    hide Put16, Put32;
    writer.Append(p.protocolId);
    writer.Append(Put16(p.protocolChannelId));
    writer.Append(Put32(p.requestedChannelId));
    writer.Append(Put32(p.capacity));
  }

  method EncodeAccept(writer: Writer, p: Payload)
    requires p.AcceptChannel?
    modifies writer
    ensures writer.bytes == old(writer.bytes) + WriteAccept(p)
  {
    hide Put16, Put32;
    writer.Append(p.protocolId);
    writer.Append(Put16(p.protocolChannelId));
    writer.Append(Put32(p.sessionChannelId));
  }

  method EncodeError(writer: Writer, p: Payload)
    requires p.Error?
    modifies writer
    ensures writer.bytes == old(writer.bytes) + WriteError(p)
  {
    hide Put16, DomainToWire, RetryToWire, OpcodeToWire;
    writer.Append([DomainToWire(p.domain)]);
    writer.Append(Put16(p.code));
    writer.Append(Put16(OperationToWire(p.operation)));
    writer.Append([RetryToWire(p.retryability)]);
  }

  method EncodePayload(writer: Writer, p: Payload, derive: Derive) returns (error: Option<CodecError>)
    modifies writer
    ensures error == PayloadError(p, derive)
    ensures error.None? ==> writer.bytes == old(writer.bytes) + WritePayload(p, derive)
  {
    hide OffersError, SelectionsError, WriteOffers, WriteSelections, WriteHello, WriteOpen, WriteAccept, WriteError,
      Put16, Put32, Put64;
    error := None;
    match p {
      case Hello(_, versions, _, _) =>
        if !versions.IsValid() {
          return Some(InvalidPayload);
        }
        EncodeHello(writer, p);
      case OfferProtocols(offers) => error := writer.Offers(offers, derive);
      case SelectProtocols(selections) => error := writer.Selections(selections, derive);
      case OpenChannel(_, channel, session, capacity) =>
        if channel == 0 || session == 0 || capacity == 0 {
          return Some(InvalidPayload);
        }
        EncodeOpen(writer, p);
      case AcceptChannel(_, channel, session) =>
        if channel == 0 || session == 0 {
          return Some(InvalidPayload);
        }
        EncodeAccept(writer, p);
      case CloseChannel(session) =>
        if session == 0 {
          return Some(InvalidPayload);
        }
        writer.Append(Put32(session));
      case Ping(nonce) => writer.Append(Put64(nonce));
      case Pong(nonce) => writer.Append(Put64(nonce));
      case BeginDrain(deadline) => writer.Append(Put32(deadline));
      case CloseSession(reason) => writer.Append(Put16(reason));
      case Error(_, _, _, _) => EncodeError(writer, p);
    }
  }

  /** Writes the header with a zero length, then the payload, then goes back and fills the length in. */
  method EncodeControlEnvelope(typed: bool, e: ControlEnvelope, derive: Derive)
    returns (r: Result<Bytes, CodecError>)
    ensures r == Encode(typed, e, derive)
  {
    hide PayloadError, WritePayload, WriteHeader, OpcodeOf;
    if !typed {
      return Err(ModeMismatch);
    }
    if e.wireVersion != TYPED_CONTROL_WIRE_VERSION {
      return Err(UnsupportedVersion);
    }
    if e.opcode != OpcodeOf(e.payload) {
      return Err(OpcodeMismatch);
    }
    var writer := new Writer(CONTROL_MAGIC + Put16(e.wireVersion) + Put16(OpcodeToWire(e.opcode))
                             + Put16(FlagsToWire(e.response)) + Put64(e.requestId) + WriteSession(e.sessionId)
                             + Put32(0));
    ghost var blank := writer.bytes;
    assert blank == WriteHeader(HeaderOf(e, 0)) by {
      BlankHeader(e);
    }
    var error := EncodePayload(writer, e.payload, derive);
    if error.Some? {
      return Err(error.value);
    }
    var payloadLen := |writer.bytes| - CONTROL_HEADER_BYTES;
    if payloadLen > MAX_CONTROL_PAYLOAD_BYTES {
      return Err(LimitExceeded);
    }
    LengthFilledIn(e, payloadLen, WritePayload(e.payload, derive));
    writer.bytes := writer.bytes[..CONTROL_HEADER_BYTES - 4] + Put32(payloadLen) + writer.bytes[CONTROL_HEADER_BYTES..];
    return Ok(writer.bytes);
  }

  lemma BlankHeader(e: ControlEnvelope)
    requires e.wireVersion == TYPED_CONTROL_WIRE_VERSION
    ensures WriteHeader(HeaderOf(e, 0)) == CONTROL_MAGIC + Put16(e.wireVersion) + Put16(OpcodeToWire(e.opcode))
              + Put16(FlagsToWire(e.response)) + Put64(e.requestId) + WriteSession(e.sessionId) + Put32(0)
  {
    hide Put16, Put32, Put64, OpcodeToWire, WriteSession;
  }

  lemma LengthFilledIn(e: ControlEnvelope, payloadLen: u32, payload: Bytes)
    ensures var w := WriteHeader(HeaderOf(e, 0)) + payload;
            w[..CONTROL_HEADER_BYTES - 4] + Put32(payloadLen) + w[CONTROL_HEADER_BYTES..]
            == WriteHeader(HeaderOf(e, payloadLen)) + payload
  {
    hide Put16, Put32, Put64, OpcodeToWire, WriteSession;
    var fixed := CONTROL_MAGIC + Put16(TYPED_CONTROL_WIRE_VERSION) + Put16(OpcodeToWire(e.opcode))
                 + Put16(FlagsToWire(e.response)) + Put64(e.requestId) + WriteSession(e.sessionId);
    var w := WriteHeader(HeaderOf(e, 0)) + payload;
    assert w[..CONTROL_HEADER_BYTES - 4] == fixed && w[CONTROL_HEADER_BYTES..] == payload;
  }

  /* -------------------------------------- Reader --------------------------------------- */

  /** A read agrees with the parser: same value and remaining bytes, or same error. */
  ghost predicate Follows<T>(p: Parse<T>, r: Result<T, CodecError>, rest: Bytes) {
    match p
    case Got(value, left) => r == Ok(value) && rest == left
    case Bad(error) => r == Err(error)
  }

  class Reader {
    const bytes: Bytes
    var position: nat

    ghost predicate Valid()
      reads this
    {
      position <= |bytes|
    }

    ghost function Rest(): Bytes
      reads this
      requires Valid()
    {
      bytes[position..]
    }

    constructor (bytes: Bytes)
      ensures Valid() && Rest() == bytes && this.bytes == bytes
    {
      this.bytes, position := bytes, 0;
    }

    function Remaining(): (n: nat)
      reads this
      requires Valid()
      ensures n == |Rest()|
    {
      |bytes| - position
    }

    method Take(len: nat) returns (r: Result<Bytes, CodecError>)
      requires Valid()
      modifies this`position
      ensures Valid() && Follows(CodecSpec.Take(old(Rest()), len), r, Rest())
    {
      var end := position + len;
      if end > |bytes| {
        return Err(Truncated);
      }
      r := Ok(bytes[position..end]);
      assert bytes[position..][..len] == bytes[position..end];
      assert bytes[position..][len..] == bytes[end..];
      position := end;
    }

    method U8() returns (r: Result<byte, CodecError>)
      requires Valid()
      modifies this`position
      ensures Valid() && Follows(ReadU8(old(Rest())), r, Rest())
    {
      var taken := Take(1);
      if taken.Err? {
        return Err(taken.error);
      }
      return Ok(taken.value[0]);
    }

    method U16() returns (r: Result<u16, CodecError>)
      requires Valid()
      modifies this`position
      ensures Valid() && Follows(ReadU16(old(Rest())), r, Rest())
    {
      hide Get16;
      var taken := Take(2);
      if taken.Err? {
        return Err(taken.error);
      }
      return Ok(Get16(taken.value));
    }

    method U32() returns (r: Result<u32, CodecError>)
      requires Valid()
      modifies this`position
      ensures Valid() && Follows(ReadU32(old(Rest())), r, Rest())
    {
      hide Get32;
      var taken := Take(4);
      if taken.Err? {
        return Err(taken.error);
      }
      return Ok(Get32(taken.value));
    }

    method U64() returns (r: Result<u64, CodecError>)
      requires Valid()
      modifies this`position
      ensures Valid() && Follows(ReadU64(old(Rest())), r, Rest())
    {
      hide Get64;
      var taken := Take(8);
      if taken.Err? {
        return Err(taken.error);
      }
      return Ok(Get64(taken.value));
    }

    method Array16() returns (r: Result<Id16, CodecError>)
      requires Valid()
      modifies this`position
      ensures Valid() && Follows(ReadId16(old(Rest())), r, Rest())
    {
      var taken := Take(16);
      if taken.Err? {
        return Err(taken.error);
      }
      return Ok(taken.value);
    }

    method Array32() returns (r: Result<Id32, CodecError>)
      requires Valid()
      modifies this`position
      ensures Valid() && Follows(ReadId32(old(Rest())), r, Rest())
    {
      var taken := Take(32);
      if taken.Err? {
        return Err(taken.error);
      }
      return Ok(taken.value);
    }

    method BoundedCount(maximum: nat) returns (r: Result<byte, CodecError>)
      requires Valid()
      modifies this`position
      ensures Valid() && Follows(ReadCount(old(Rest()), maximum), r, Rest())
    {
      r := U8();
      if r.Ok? && r.value > maximum {
        return Err(LimitExceeded);
      }
    }

    method Version() returns (r: Result<ProtocolVersion, CodecError>)
      requires Valid()
      modifies this`position
      ensures Valid() && Follows(ReadVersion(old(Rest())), r, Rest())
    {
      hide ReadU16;
      var major := U16();
      if major.Err? {
        return Err(major.error);
      }
      var minor := U16();
      if minor.Err? {
        return Err(minor.error);
      }
      return Ok(ProtocolVersion(major.value, minor.value));
    }

    method Range() returns (r: Result<VersionRange, CodecError>)
      requires Valid()
      modifies this`position
      ensures Valid() && Follows(ReadRange(old(Rest())), r, Rest())
    {
      hide ReadVersion;
      var minimum := Version();
      if minimum.Err? {
        return Err(minimum.error);
      }
      var maximum := Version();
      if maximum.Err? {
        return Err(maximum.error);
      }
      var range := VersionRange(minimum.value, maximum.value);
      return if !range.IsValid() then Err(InvalidPayload) else Ok(range);
    }

    method Schema() returns (r: Result<SchemaRef, CodecError>)
      requires Valid()
      modifies this`position
      ensures Valid() && Follows(ReadSchema(old(Rest())), r, Rest())
    {
      hide ReadId16, ReadU32, ReadId32;
      var id := Array16();
      if id.Err? {
        return Err(id.error);
      }
      var revision := U32();
      if revision.Err? {
        return Err(revision.error);
      }
      var fingerprint := Array32();
      if fingerprint.Err? {
        return Err(fingerprint.error);
      }
      return if revision.value == 0 then Err(InvalidPayload)
        else Ok(SchemaRef(id.value, revision.value, fingerprint.value));
    }

    method Capabilities() returns (r: Result<ProtocolCapabilitySet, CodecError>)
      requires Valid()
      modifies this`position
      ensures Valid() && Follows(ReadCapabilities(old(Rest())), r, Rest())
    {
      hide ReadId16, ReadCount, ReadU64;
      var id := Array16();
      if id.Err? {
        return Err(id.error);
      }
      var count := BoundedCount(MAX_PROTOCOL_CAPABILITY_WORDS);
      if count.Err? {
        return Err(count.error);
      }
      ghost var start := Rest();
      var words: seq<u64> := [];
      var i := 0;
      PrependNothing(ReadWords(start, count.value));
      while i < count.value
        invariant 0 <= i <= count.value && Valid()
        invariant ReadWords(start, count.value) == Prepend(words, ReadWords(Rest(), count.value - i))
      {
        PrependMore(words, Rest(), count.value - i);
        var word := U64();
        if word.Err? {
          return Err(word.error);
        }
        words := words + [word.value];
        i := i + 1;
      }
      assert words + [] == words;
      return Ok(ProtocolCapabilitySet(id.value, words));
    }

    method Text() returns (r: Result<Bytes, CodecError>)
      requires Valid()
      modifies this`position
      ensures Valid() && Follows(ReadString(old(Rest())), r, Rest())
    {
      hide ReadU16, Utf8;
      var len := U16();
      if len.Err? {
        return Err(len.error);
      }
      if len.value == 0 || len.value > MAX_CONTROL_DEBUG_COMPONENT_BYTES {
        return Err(LimitExceeded);
      }
      r := Take(len.value);
      if r.Ok? && !Utf8(r.value) {
        return Err(InvalidPayload);
      }
    }

    method DebugIdentity() returns (r: Result<Option<ProtocolDebugIdentity>, CodecError>)
      requires Valid()
      modifies this`position
      ensures Valid() && Follows(ReadIdentity(old(Rest())), r, Rest())
    {
      hide ReadU8, ReadString;
      var tag := U8();
      if tag.Err? {
        return Err(tag.error);
      }
      if tag.value == 0 {
        return Ok(None);
      }
      if tag.value != 1 {
        return Err(InvalidPayload);
      }
      var authority := Text();
      if authority.Err? {
        return Err(authority.error);
      }
      var name := Text();
      if name.Err? {
        return Err(name.error);
      }
      return Ok(Some(ProtocolDebugIdentity(authority.value, name.value)));
    }

    method Offer() returns (r: Result<ProtocolOffer, CodecError>)
      requires Valid()
      modifies this`position
      ensures Valid() && Follows(ReadOffer(old(Rest())), r, Rest())
    {
      hide ReadId16, ReadIdentity, ReadRange, ReadSchema, ReadCapabilities;
      var id := Array16();
      if id.Err? {
        return Err(id.error);
      }
      var identity := DebugIdentity();
      if identity.Err? {
        return Err(identity.error);
      }
      var versions := Range();
      if versions.Err? {
        return Err(versions.error);
      }
      var schema := Schema();
      if schema.Err? {
        return Err(schema.error);
      }
      var capabilities := Capabilities();
      if capabilities.Err? {
        return Err(capabilities.error);
      }
      return Ok(ProtocolOffer(id.value, identity.value, versions.value, schema.value, capabilities.value));
    }

    method Selection() returns (r: Result<ProtocolSelection, CodecError>)
      requires Valid()
      modifies this`position
      ensures Valid() && Follows(ReadSelection(old(Rest())), r, Rest())
    {
      hide ReadId16, ReadVersion, ReadSchema, ReadCapabilities;
      var id := Array16();
      if id.Err? {
        return Err(id.error);
      }
      var version := Version();
      if version.Err? {
        return Err(version.error);
      }
      var schema := Schema();
      if schema.Err? {
        return Err(schema.error);
      }
      var capabilities := Capabilities();
      if capabilities.Err? {
        return Err(capabilities.error);
      }
      return Ok(ProtocolSelection(id.value, version.value, schema.value, capabilities.value));
    }

    method Offers(derive: Derive) returns (r: Result<Payload, CodecError>)
      requires Valid()
      modifies this`position
      ensures Valid() && Follows(ReadOfferList(old(Rest()), derive), r, Rest())
    {
      hide ReadCount, ReadOffer, NamesId;
      var count := BoundedCount(MAX_CONTROL_PROTOCOLS);
      if count.Err? {
        return Err(count.error);
      }
      ghost var start := Rest();
      var offers: seq<ProtocolOffer> := [];
      var ids: set<Id16> := {};
      var i := 0;
      while i < count.value
        invariant 0 <= i <= count.value && Valid()
        invariant forall id :: id in ids <==> HasOffer(offers, id)
        invariant ReadOffers(start, count.value, [], derive) == ReadOffers(Rest(), count.value - i, offers, derive)
      {
        var next := Offer();
        if next.Err? {
          return Err(next.error);
        }
        var o := next.value;
        if o.stableId in ids || o.capabilities.protocolId != o.stableId
           || (o.debugIdentity.Some? && !NamesId(o.debugIdentity.value, o.stableId, derive)) {
          return Err(InvalidPayload);
        }
        HasOfferNext(offers, o);
        ids := ids + {o.stableId};
        offers := offers + [o];
        i := i + 1;
      }
      return Ok(OfferProtocols(offers));
    }

    method Selections() returns (r: Result<Payload, CodecError>)
      requires Valid()
      modifies this`position
      ensures Valid() && Follows(ReadSelectionList(old(Rest())), r, Rest())
    {
      hide ReadCount, ReadSelection;
      var count := BoundedCount(MAX_CONTROL_PROTOCOLS);
      if count.Err? {
        return Err(count.error);
      }
      ghost var start := Rest();
      var selections: seq<ProtocolSelection> := [];
      var ids: set<Id16> := {};
      var i := 0;
      while i < count.value
        invariant 0 <= i <= count.value && Valid()
        invariant forall id :: id in ids <==> HasSelection(selections, id)
        invariant ReadSelections(start, count.value, []) == ReadSelections(Rest(), count.value - i, selections)
      {
        var next := Selection();
        if next.Err? {
          return Err(next.error);
        }
        var s := next.value;
        if s.stableId in ids || s.capabilities.protocolId != s.stableId {
          return Err(InvalidPayload);
        }
        HasSelectionNext(selections, s);
        ids := ids + {s.stableId};
        selections := selections + [s];
        i := i + 1;
      }
      return Ok(SelectProtocols(selections));
    }
  }

  /** The words read so far in front of those still to come. */
  ghost function Prepend(words: seq<u64>, p: Parse<seq<u64>>): Parse<seq<u64>> {
    match p
    case Got(more, rest) => Got(words + more, rest)
    case Bad(error) => Bad(error)
  }

  lemma PrependNothing(p: Parse<seq<u64>>)
    ensures Prepend([], p) == p
  {
    if p.Got? {
      assert [] + p.value == p.value;
    }
  }

  lemma PrependMore(words: seq<u64>, b: Bytes, n: nat)
    requires n > 0
    ensures var first := ReadU64(b);
            Prepend(words, ReadWords(b, n)) ==
              if first.Bad? then Bad(first.error)
              else Prepend(words + [first.value], ReadWords(first.rest, n - 1))
  {
    hide ReadU64;
    var first := ReadU64(b);
    if first.Got? && ReadWords(first.rest, n - 1).Got? {
      var more := ReadWords(first.rest, n - 1).value;
      assert words + ([first.value] + more) == words + [first.value] + more;
    }
  }

  method DecodePayload(opcode: Opcode, reader: Reader, derive: Derive) returns (r: Result<Payload, CodecError>)
    requires reader.Valid()
    modifies reader`position
    ensures reader.Valid() && Follows(ReadPayload(opcode, old(reader.Rest()), derive), r, reader.Rest())
  {
    hide ReadHello, ReadOfferList, ReadSelectionList, ReadOpen, ReadAccept, ReadError, ReadU16, ReadU32, ReadU64;
    match opcode {
      case HelloOp => r := DecodeHello(reader);
      case ProtocolOfferOp => r := reader.Offers(derive);
      case ProtocolSelectOp => r := reader.Selections();
      case OpenChannelOp => r := DecodeOpen(reader);
      case ChannelAcceptedOp => r := DecodeAccept(reader);
      case CloseChannelOp =>
        var session := reader.U32();
        r := if session.Err? then Err(session.error)
             else if session.value == 0 then Err(InvalidPayload) else Ok(CloseChannel(session.value));
      case PingOp =>
        var nonce := reader.U64();
        r := if nonce.Err? then Err(nonce.error) else Ok(Ping(nonce.value));
      case PongOp =>
        var nonce := reader.U64();
        r := if nonce.Err? then Err(nonce.error) else Ok(Pong(nonce.value));
      case BeginDrainOp =>
        var deadline := reader.U32();
        r := if deadline.Err? then Err(deadline.error) else Ok(BeginDrain(deadline.value));
      case CloseSessionOp =>
        var reason := reader.U16();
        r := if reason.Err? then Err(reason.error) else Ok(CloseSession(reason.value));
      case ErrorOp => r := DecodeError(reader);
    }
  }

  method DecodeHello(reader: Reader) returns (r: Result<Payload, CodecError>)
    requires reader.Valid()
    modifies reader`position
    ensures reader.Valid() && Follows(ReadHello(old(reader.Rest())), r, reader.Rest())
  {
    hide ReadId32, ReadId16, ReadRange, ReadU64, ReadU8;
    var peer := reader.Array32();
    if peer.Err? {
      return Err(peer.error);
    }
    var endpoint := reader.Array16();
    if endpoint.Err? {
      return Err(endpoint.error);
    }
    var connection := reader.Array16();
    if connection.Err? {
      return Err(connection.error);
    }
    var versions := reader.Range();
    if versions.Err? {
      return Err(versions.error);
    }
    var capabilities := reader.U64();
    if capabilities.Err? {
      return Err(capabilities.error);
    }
    var auth := reader.U8();
    if auth.Err? {
      return Err(auth.error);
    }
    if auth.value > 1 {
      return Err(InvalidPayload);
    }
    return Ok(Hello(Identity(peer.value, endpoint.value, connection.value), versions.value, capabilities.value,
                    if auth.value == 0 then HandshakeSpec.FirstPairing else HandshakeSpec.TrustedReconnect));
  }

  method DecodeOpen(reader: Reader) returns (r: Result<Payload, CodecError>)
    requires reader.Valid()
    modifies reader`position
    ensures reader.Valid() && Follows(ReadOpen(old(reader.Rest())), r, reader.Rest())
  {
    hide ReadId16, ReadU16, ReadU32;
    var id := reader.Array16();
    if id.Err? {
      return Err(id.error);
    }
    var channel := reader.U16();
    if channel.Err? {
      return Err(channel.error);
    }
    var session := reader.U32();
    if session.Err? {
      return Err(session.error);
    }
    var capacity := reader.U32();
    if capacity.Err? {
      return Err(capacity.error);
    }
    return if channel.value == 0 || session.value == 0 || capacity.value == 0 then Err(InvalidPayload)
      else Ok(OpenChannel(id.value, channel.value, session.value, capacity.value));
  }

  method DecodeAccept(reader: Reader) returns (r: Result<Payload, CodecError>)
    requires reader.Valid()
    modifies reader`position
    ensures reader.Valid() && Follows(ReadAccept(old(reader.Rest())), r, reader.Rest())
  {
    hide ReadId16, ReadU16, ReadU32;
    var id := reader.Array16();
    if id.Err? {
      return Err(id.error);
    }
    var channel := reader.U16();
    if channel.Err? {
      return Err(channel.error);
    }
    var session := reader.U32();
    if session.Err? {
      return Err(session.error);
    }
    return if channel.value == 0 || session.value == 0 then Err(InvalidPayload)
      else Ok(AcceptChannel(id.value, channel.value, session.value));
  }

  method DecodeError(reader: Reader) returns (r: Result<Payload, CodecError>)
    requires reader.Valid()
    modifies reader`position
    ensures reader.Valid() && Follows(ReadError(old(reader.Rest())), r, reader.Rest())
  {
    hide ReadU8, ReadU16, DomainFromWire, OpcodeFromWire, RetryFromWire;
    var domain := reader.U8();
    if domain.Err? {
      return Err(domain.error);
    }
    if DomainFromWire(domain.value).None? {
      return Err(InvalidPayload);
    }
    var code := reader.U16();
    if code.Err? {
      return Err(code.error);
    }
    var operation := reader.U16();
    if operation.Err? {
      return Err(operation.error);
    }
    if operation.value != U16_MAX && OpcodeFromWire(operation.value).None? {
      return Err(UnknownOpcode);
    }
    var retry := reader.U8();
    if retry.Err? {
      return Err(retry.error);
    }
    if RetryFromWire(retry.value).None? {
      return Err(InvalidPayload);
    }
    return Ok(Error(DomainFromWire(domain.value).value, code.value,
                    if operation.value == U16_MAX then None else OpcodeFromWire(operation.value),
                    RetryFromWire(retry.value).value));
  }

  method DecodeHeader(reader: Reader) returns (r: Result<Header, CodecError>)
    requires reader.Valid()
    modifies reader`position
    ensures reader.Valid() && Follows(ReadHeader(old(reader.Rest())), r, reader.Rest())
  {
    hide ReadU16, ReadU64, ReadU32, ReadSession, OpcodeFromWire;
    if reader.Remaining() < CONTROL_HEADER_BYTES {
      return Err(Truncated);
    }
    var magic := reader.Take(4);
    if magic != Ok(CONTROL_MAGIC) {
      return Err(InvalidPayload);
    }
    var version := reader.U16();
    if version.Err? {
      return Err(version.error);
    }
    if version.value != TYPED_CONTROL_WIRE_VERSION {
      return Err(UnsupportedVersion);
    }
    var opcode := reader.U16();
    if opcode.Err? {
      return Err(opcode.error);
    }
    if OpcodeFromWire(opcode.value).None? {
      return Err(UnknownOpcode);
    }
    var flags := reader.U16();
    if flags.Err? {
      return Err(flags.error);
    }
    if flags.value > 1 {
      return Err(InvalidPayload);
    }
    var request := reader.U64();
    if request.Err? {
      return Err(request.error);
    }
    var session := DecodeSession(reader);
    if session.Err? {
      return Err(session.error);
    }
    var len := reader.U32();
    if len.Err? {
      return Err(len.error);
    }
    if len.value > MAX_CONTROL_PAYLOAD_BYTES {
      return Err(LimitExceeded);
    }
    return Ok(Header(OpcodeFromWire(opcode.value).value, flags.value == 1, request.value, session.value, len.value));
  }

  method DecodeSession(reader: Reader) returns (r: Result<Option<Id16>, CodecError>)
    requires reader.Valid()
    modifies reader`position
    ensures reader.Valid() && Follows(ReadSession(old(reader.Rest())), r, reader.Rest())
  {
    hide ReadU8, ReadId16;
    var present := reader.U8();
    if present.Err? {
      return Err(present.error);
    }
    var id := reader.Array16();
    if id.Err? {
      return Err(id.error);
    }
    if present.value == 0 && id.value == ZERO_ID {
      return Ok(None);
    }
    return if present.value == 1 then Ok(Some(id.value)) else Err(InvalidPayload);
  }

  lemma TakeAll(b: Bytes)
    ensures CodecSpec.Take(b, |b|) == Got(b, [])
  {
    assert b[..|b|] == b && b[|b|..] == [];
  }

  method DecodeControlEnvelope(typed: bool, wire: Bytes, derive: Derive)
    returns (r: Result<ControlEnvelope, CodecError>)
    ensures r == Decode(typed, wire, derive)
  {
    hide ReadHeader, ReadPayload, CodecSpec.Take, OpcodeOf;
    if !typed {
      return Err(ModeMismatch);
    }
    var reader := new Reader(wire);
    var header := DecodeHeader(reader);
    if header.Err? {
      return Err(header.error);
    }
    var h := header.value;
    if reader.Remaining() < h.payloadLen {
      return Err(Truncated);
    }
    if reader.Remaining() != h.payloadLen {
      return Err(TrailingBytes);
    }
    TakeAll(reader.Rest());
    var body := reader.Take(h.payloadLen);
    var payloadReader := new Reader(body.value);
    var payload := DecodePayload(h.opcode, payloadReader, derive);
    if payload.Err? {
      return Err(payload.error);
    }
    if payloadReader.Remaining() != 0 {
      return Err(TrailingBytes);
    }
    return Ok(ControlEnvelope(TYPED_CONTROL_WIRE_VERSION, h.opcode, h.requestId, h.sessionId, h.response, payload.value));
  }
}
