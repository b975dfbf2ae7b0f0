/** Control payloads and envelopes on the wire (`control.rs`). */
module ControlSpec {
  import opened Base
  import opened Identity
  import opened Capabilities
  import opened CodecSpec

  const MAX_CONTROL_PAYLOAD_BYTES: nat := 0x1_0000
  const TYPED_CONTROL_WIRE_VERSION: u16 := 1
  /** `MLCT`. */
  const CONTROL_MAGIC: Bytes := [0x4D, 0x4C, 0x43, 0x54]
  const CONTROL_HEADER_BYTES: nat := 39

  /* ------------------------------------- Opcodes --------------------------------------- */

  datatype Opcode =
    | HelloOp | ProtocolOfferOp | ProtocolSelectOp | OpenChannelOp | ChannelAcceptedOp | CloseChannelOp | PingOp
    | PongOp | BeginDrainOp | CloseSessionOp | ErrorOp

  function OpcodeToWire(o: Opcode): u16 {
    match o
    case HelloOp => 0x0001
    case ProtocolOfferOp => 0x0002
    case ProtocolSelectOp => 0x0003
    case OpenChannelOp => 0x0010
    case ChannelAcceptedOp => 0x0011
    case CloseChannelOp => 0x0012
    case PingOp => 0x0020
    case PongOp => 0x0021
    case BeginDrainOp => 0x0022
    case CloseSessionOp => 0x0023
    case ErrorOp => 0x00FF
  }

  function OpcodeFromWire(w: u16): Option<Opcode> {
    if w == 0x0001 then Some(HelloOp)
    else if w == 0x0002 then Some(ProtocolOfferOp)
    else if w == 0x0003 then Some(ProtocolSelectOp)
    else if w == 0x0010 then Some(OpenChannelOp)
    else if w == 0x0011 then Some(ChannelAcceptedOp)
    else if w == 0x0012 then Some(CloseChannelOp)
    else if w == 0x0020 then Some(PingOp)
    else if w == 0x0021 then Some(PongOp)
    else if w == 0x0022 then Some(BeginDrainOp)
    else if w == 0x0023 then Some(CloseSessionOp)
    else if w == 0x00FF then Some(ErrorOp)
    else None
  }

  lemma OpcodeRoundTrip(o: Opcode, w: u16)
    ensures OpcodeFromWire(w) == Some(o) <==> w == OpcodeToWire(o)
    ensures OpcodeToWire(o) != U16_MAX
  {
  }

  datatype ErrorDomain = ControlDomain | ProtocolDomain | ChannelDomain | SecurityDomain | ResourceDomain

  function DomainToWire(d: ErrorDomain): byte {
    match d
    case ControlDomain => 0
    case ProtocolDomain => 1
    case ChannelDomain => 2
    case SecurityDomain => 3
    case ResourceDomain => 4
  }

  function DomainFromWire(b: byte): Option<ErrorDomain> {
    if b == 0 then Some(ControlDomain)
    else if b == 1 then Some(ProtocolDomain)
    else if b == 2 then Some(ChannelDomain)
    else if b == 3 then Some(SecurityDomain)
    else if b == 4 then Some(ResourceDomain)
    else None
  }

  lemma DomainRoundTrip(d: ErrorDomain, b: byte)
    ensures DomainFromWire(b) == Some(d) <==> b == DomainToWire(d)
  {
  }

  datatype Retryability = Never | RetryAfterBackoff | Reconnect

  function RetryToWire(r: Retryability): byte {
    match r
    case Never => 0
    case RetryAfterBackoff => 1
    case Reconnect => 2
  }

  function RetryFromWire(b: byte): Option<Retryability> {
    if b == 0 then Some(Never) else if b == 1 then Some(RetryAfterBackoff) else if b == 2 then Some(Reconnect) else None
  }

  lemma RetryRoundTrip(r: Retryability, b: byte)
    ensures RetryFromWire(b) == Some(r) <==> b == RetryToWire(r)
  {
  }

  /* -------------------------------------- Offers --------------------------------------- */

  function WriteOffer(o: ProtocolOffer): (b: Bytes)
    requires OfferFits(o)
    ensures |b| <= 418
  {
    o.stableId + WriteIdentity(o.debugIdentity) + WriteRange(o.versions) + WriteSchema(o.schema)
      + WriteCapabilities(o.capabilities)
  }

  predicate OfferFits(o: ProtocolOffer) {
    (o.debugIdentity.Some? ==> IdentityFits(o.debugIdentity.value)) && o.capabilities.IsBounded()
  }

  function ReadOffer(b: Bytes): Parse<ProtocolOffer> {
    var id := ReadId16(b);
    if id.Bad? then Bad(id.error)
    else
      var identity := ReadIdentity(id.rest);
      if identity.Bad? then Bad(identity.error)
      else
        var versions := ReadRange(identity.rest);
        if versions.Bad? then Bad(versions.error)
        else
          var schema := ReadSchema(versions.rest);
          if schema.Bad? then Bad(schema.error)
          else
            var capabilities := ReadCapabilities(schema.rest);
            if capabilities.Bad? then Bad(capabilities.error)
            else
              Got(ProtocolOffer(id.value, identity.value, versions.value, schema.value, capabilities.value),
                  capabilities.rest)
  }

  /** The conditions on a single offer that both directions check. */
  predicate OfferOk(o: ProtocolOffer, derive: Derive) {
    && o.versions.IsValid() && o.schema.revision != 0 && o.capabilities.protocolId == o.stableId
    && (o.debugIdentity.Some? ==> NamesId(o.debugIdentity.value, o.stableId, derive))
  }

  predicate NamesId(i: ProtocolDebugIdentity, id: Id16, derive: Derive) {
    Canonical(i) && derive(i.authority, i.name) == id
  }

  predicate HasOffer(offers: seq<ProtocolOffer>, id: Id16) {
    exists k :: 0 <= k < |offers| && offers[k].stableId == id
  }

  lemma OfferGives(o: ProtocolOffer, rest: Bytes, derive: Derive)
    requires OfferFits(o) && OfferOk(o, derive)
    ensures ReadOffer(WriteOffer(o) + rest) == Got(o, rest)
  {
    hide ReadId16, ReadIdentity, ReadRange, ReadSchema, ReadCapabilities, WriteIdentity, WriteRange, WriteSchema,
      WriteCapabilities, Canonical;
    var e := WriteCapabilities(o.capabilities) + rest;
    var d := WriteSchema(o.schema) + e;
    var c := WriteRange(o.versions) + d;
    var a := WriteIdentity(o.debugIdentity) + c;
    assert WriteOffer(o) + rest == o.stableId + a;
    Id16Gives(o.stableId, a);
    IdentityGives(o.debugIdentity, c);
    RangeGives(o.versions, d);
    SchemaGives(o.schema, e);
    CapabilitiesGive(o.capabilities, rest);
  }

  lemma OfferCame(b: Bytes)
    ensures ReadOffer(b).Got? ==>
              var o := ReadOffer(b).value;
              && OfferFits(o) && o.versions.IsValid() && o.schema.revision != 0
              && b == WriteOffer(o) + ReadOffer(b).rest
  {
    hide ReadId16, ReadIdentity, ReadRange, ReadSchema, ReadCapabilities, WriteIdentity, WriteRange, WriteSchema,
      WriteCapabilities, IdentityFits;
    if ReadOffer(b).Got? {
      Id16Came(b);
      var r1 := ReadId16(b).rest;
      IdentityCame(r1);
      var r2 := ReadIdentity(r1).rest;
      RangeCame(r2);
      var r3 := ReadRange(r2).rest;
      SchemaCame(r3);
      CapabilitiesCame(ReadSchema(r3).rest);
    }
  }

  /** What is wrong with the next offer, given those already written. */
  function OfferError(earlier: seq<ProtocolOffer>, o: ProtocolOffer, derive: Derive): Option<CodecError> {
    if HasOffer(earlier, o.stableId) || !OfferOk(o, derive) then Some(InvalidPayload)
    else if !OfferFits(o) then Some(LimitExceeded)
    else None
  }

  function OffersError(offers: seq<ProtocolOffer>, n: nat, derive: Derive): Option<CodecError>
    requires n <= |offers|
  {
    if n == 0 then None
    else if OffersError(offers, n - 1, derive).Some? then OffersError(offers, n - 1, derive)
    else OfferError(offers[..n - 1], offers[n - 1], derive)
  }

  /** The first `n` offers, back to back. */
  function WriteOffers(offers: seq<ProtocolOffer>, n: nat, derive: Derive): (b: Bytes)
    requires n <= |offers| && OffersError(offers, n, derive).None?
    ensures |b| <= 418 * n
  {
    if n == 0 then [] else WriteOffers(offers, n - 1, derive) + WriteOffer(offers[n - 1])
  }

  function ReadOffers(b: Bytes, n: nat, sofar: seq<ProtocolOffer>, derive: Derive): Parse<seq<ProtocolOffer>>
    decreases n
  {
    if n == 0 then Got(sofar, b)
    else
      var o := ReadOffer(b);
      if o.Bad? then Bad(o.error)
      else if || HasOffer(sofar, o.value.stableId) || o.value.capabilities.protocolId != o.value.stableId
              || (o.value.debugIdentity.Some? && !NamesId(o.value.debugIdentity.value, o.value.stableId, derive))
      then Bad(InvalidPayload)
      else ReadOffers(o.rest, n - 1, sofar + [o.value], derive)
  }

  lemma {:induction false} OffersErrorPrefix(offers: seq<ProtocolOffer>, n: nat, m: nat, derive: Derive)
    requires n <= m <= |offers| && OffersError(offers, m, derive).None?
    ensures OffersError(offers, n, derive).None?
    ensures n < m ==> OfferError(offers[..n], offers[n], derive).None?
    decreases m
  {
    hide OfferError;
    if n < m {
      OffersErrorPrefix(offers, n, m - 1, derive);
    }
  }

  /** The bytes of offers `n..` of the list. */
  function OffersFrom(offers: seq<ProtocolOffer>, n: nat): Bytes
    requires n <= |offers| && forall k :: n <= k < |offers| ==> OfferFits(offers[k])
    decreases |offers| - n
  {
    if n == |offers| then [] else WriteOffer(offers[n]) + OffersFrom(offers, n + 1)
  }

  lemma AllOffersFit(offers: seq<ProtocolOffer>, derive: Derive)
    requires OffersError(offers, |offers|, derive).None?
    ensures forall k :: 0 <= k < |offers| ==> OfferFits(offers[k])
  {
    hide OffersError;
    forall k | 0 <= k < |offers|
      ensures OfferFits(offers[k])
    {
      OffersErrorPrefix(offers, k, |offers|, derive);
    }
  }

  lemma {:induction false} OffersSplit(offers: seq<ProtocolOffer>, n: nat, derive: Derive)
    requires n <= |offers| && OffersError(offers, |offers|, derive).None?
    requires forall k :: 0 <= k < |offers| ==> OfferFits(offers[k])
    ensures OffersError(offers, n, derive).None?
    ensures WriteOffers(offers, |offers|, derive) == WriteOffers(offers, n, derive) + OffersFrom(offers, n)
    decreases |offers| - n
  {
    hide OfferError, OfferFits, WriteOffer;
    OffersErrorPrefix(offers, n, |offers|, derive);
    if n < |offers| {
      OffersSplit(offers, n + 1, derive);
      assert WriteOffers(offers, n + 1, derive) == WriteOffers(offers, n, derive) + WriteOffer(offers[n]);
      assert OffersFrom(offers, n) == WriteOffer(offers[n]) + OffersFrom(offers, n + 1);
    }
  }

  lemma OffersWhole(offers: seq<ProtocolOffer>, derive: Derive)
    requires OffersError(offers, |offers|, derive).None?
    ensures forall k :: 0 <= k < |offers| ==> OfferFits(offers[k])
    ensures WriteOffers(offers, |offers|, derive) == OffersFrom(offers, 0)
  {
    hide OfferError, OfferFits, WriteOffer;
    AllOffersFit(offers, derive);
    OffersSplit(offers, 0, derive);
    assert WriteOffers(offers, 0, derive) + OffersFrom(offers, 0) == OffersFrom(offers, 0);
  }

  lemma OffersFromStep(offers: seq<ProtocolOffer>, n: nat)
    requires n <= |offers| && forall k :: 0 <= k < |offers| ==> OfferFits(offers[k])
    ensures OffersFrom(offers, n) == if n == |offers| then [] else WriteOffer(offers[n]) + OffersFrom(offers, n + 1)
  {
  }

  lemma {:induction false} OffersGive(offers: seq<ProtocolOffer>, n: nat, rest: Bytes, derive: Derive)
    requires n <= |offers| && OffersError(offers, |offers|, derive).None?
    requires forall k :: 0 <= k < |offers| ==> OfferFits(offers[k])
    ensures ReadOffers(OffersFrom(offers, n) + rest, |offers| - n, offers[..n], derive) == Got(offers, rest)
    decreases |offers| - n
  {
    hide OffersError, ReadOffer, WriteOffer, OfferFits, HasOffer, OffersFrom, NamesId;
    OffersFromStep(offers, n);
    if n == |offers| {
      assert offers[..n] == offers && OffersFrom(offers, n) + rest == rest;
    } else {
      OffersErrorPrefix(offers, n, |offers|, derive);
      OffersGive(offers, n + 1, rest, derive);
      assert OffersFrom(offers, n) + rest == WriteOffer(offers[n]) + (OffersFrom(offers, n + 1) + rest);
      OfferGives(offers[n], OffersFrom(offers, n + 1) + rest, derive);
      assert offers[..n] + [offers[n]] == offers[..n + 1];
    }
  }

  lemma ExtendsOffers(sofar: seq<ProtocolOffer>, o: ProtocolOffer, derive: Derive)
    requires OffersError(sofar, |sofar|, derive).None? && OfferError(sofar, o, derive).None?
    ensures OffersError(sofar + [o], |sofar| + 1, derive).None?
    ensures WriteOffers(sofar + [o], |sofar| + 1, derive) == WriteOffers(sofar, |sofar|, derive) + WriteOffer(o)
  {
    hide OfferError, WriteOffer;
    SameOffers(sofar, o, |sofar|, derive);
    assert (sofar + [o])[..|sofar|] == sofar;
  }

  lemma {:induction false} SameOffers(sofar: seq<ProtocolOffer>, o: ProtocolOffer, n: nat, derive: Derive)
    requires n <= |sofar| && OffersError(sofar, n, derive).None?
    ensures OffersError(sofar + [o], n, derive).None?
    ensures WriteOffers(sofar + [o], n, derive) == WriteOffers(sofar, n, derive)
  {
    hide OfferError, WriteOffer;
    if n > 0 {
      SameOffers(sofar, o, n - 1, derive);
      assert (sofar + [o])[..n - 1] == sofar[..n - 1];
    }
  }

  lemma {:induction false} OffersCame(b: Bytes, n: nat, sofar: seq<ProtocolOffer>, derive: Derive)
    requires OffersError(sofar, |sofar|, derive).None?
    ensures var p := ReadOffers(b, n, sofar, derive);
            p.Got? ==>
              && |p.value| == |sofar| + n && OffersError(p.value, |p.value|, derive).None?
              && WriteOffers(sofar, |sofar|, derive) + b == WriteOffers(p.value, |p.value|, derive) + p.rest
    decreases n
  {
    hide OffersError, ReadOffer, WriteOffer, WriteOffers, OfferFits, HasOffer, NamesId;
    if n > 0 && ReadOffer(b).Got? {
      var o := ReadOffer(b).value;
      OfferCame(b);
      if OfferError(sofar, o, derive).None? {
        ExtendsOffers(sofar, o, derive);
        OffersCame(ReadOffer(b).rest, n - 1, sofar + [o], derive);
        assert WriteOffers(sofar, |sofar|, derive) + b
            == WriteOffers(sofar + [o], |sofar| + 1, derive) + ReadOffer(b).rest;
      }
    }
  }

  /* ------------------------------------ Selections ------------------------------------- */

  predicate SelectionFits(s: ProtocolSelection) { s.capabilities.IsBounded() }

  predicate SelectionOk(s: ProtocolSelection) {
    s.schema.revision != 0 && s.capabilities.protocolId == s.stableId
  }

  predicate HasSelection(selections: seq<ProtocolSelection>, id: Id16) {
    exists k :: 0 <= k < |selections| && selections[k].stableId == id
  }

  function WriteSelection(s: ProtocolSelection): (b: Bytes)
    requires SelectionFits(s)
    ensures |b| <= 153
  {
    s.stableId + WriteVersion(s.version) + WriteSchema(s.schema) + WriteCapabilities(s.capabilities)
  }

  function ReadSelection(b: Bytes): Parse<ProtocolSelection> {
    var id := ReadId16(b);
    if id.Bad? then Bad(id.error)
    else
      var version := ReadVersion(id.rest);
      if version.Bad? then Bad(version.error)
      else
        var schema := ReadSchema(version.rest);
        if schema.Bad? then Bad(schema.error)
        else
          var capabilities := ReadCapabilities(schema.rest);
          if capabilities.Bad? then Bad(capabilities.error)
          else Got(ProtocolSelection(id.value, version.value, schema.value, capabilities.value), capabilities.rest)
  }

  lemma SelectionGives(s: ProtocolSelection, rest: Bytes)
    requires SelectionFits(s) && SelectionOk(s)
    ensures ReadSelection(WriteSelection(s) + rest) == Got(s, rest)
  {
    hide ReadId16, ReadVersion, ReadSchema, ReadCapabilities, WriteVersion, WriteSchema, WriteCapabilities;
    var e := WriteCapabilities(s.capabilities) + rest;
    var d := WriteSchema(s.schema) + e;
    var c := WriteVersion(s.version) + d;
    assert WriteSelection(s) + rest == s.stableId + c;
    Id16Gives(s.stableId, c);
    VersionGives(s.version, d);
    SchemaGives(s.schema, e);
    CapabilitiesGive(s.capabilities, rest);
  }

  lemma SelectionCame(b: Bytes)
    ensures ReadSelection(b).Got? ==>
              var s := ReadSelection(b).value;
              SelectionFits(s) && s.schema.revision != 0 && b == WriteSelection(s) + ReadSelection(b).rest
  {
    hide ReadId16, ReadVersion, ReadSchema, ReadCapabilities, WriteVersion, WriteSchema, WriteCapabilities;
    if ReadSelection(b).Got? {
      Id16Came(b);
      var r1 := ReadId16(b).rest;
      VersionCame(r1);
      var r2 := ReadVersion(r1).rest;
      SchemaCame(r2);
      CapabilitiesCame(ReadSchema(r2).rest);
    }
  }

  /** What is wrong with the next selection, given those already written. */
  function SelectionError(earlier: seq<ProtocolSelection>, s: ProtocolSelection): Option<CodecError> {
    if HasSelection(earlier, s.stableId) || !SelectionOk(s) then Some(InvalidPayload)
    else if !SelectionFits(s) then Some(LimitExceeded)
    else None
  }

  function SelectionsError(selections: seq<ProtocolSelection>, n: nat): Option<CodecError>
    requires n <= |selections|
  {
    if n == 0 then None
    else if SelectionsError(selections, n - 1).Some? then SelectionsError(selections, n - 1)
    else SelectionError(selections[..n - 1], selections[n - 1])
  }

  /** The first `n` selections, back to back. */
  function WriteSelections(selections: seq<ProtocolSelection>, n: nat): (b: Bytes)
    requires n <= |selections| && SelectionsError(selections, n).None?
    ensures |b| <= 153 * n
  {
    if n == 0 then [] else WriteSelections(selections, n - 1) + WriteSelection(selections[n - 1])
  }

  function ReadSelections(b: Bytes, n: nat, sofar: seq<ProtocolSelection>): Parse<seq<ProtocolSelection>>
    decreases n
  {
    if n == 0 then Got(sofar, b)
    else
      var s := ReadSelection(b);
      if s.Bad? then Bad(s.error)
      else if HasSelection(sofar, s.value.stableId) || s.value.capabilities.protocolId != s.value.stableId then
        Bad(InvalidPayload)
      else ReadSelections(s.rest, n - 1, sofar + [s.value])
  }

  lemma {:induction false} SelectionsErrorPrefix(selections: seq<ProtocolSelection>, n: nat, m: nat)
    requires n <= m <= |selections| && SelectionsError(selections, m).None?
    ensures SelectionsError(selections, n).None?
    ensures n < m ==> SelectionError(selections[..n], selections[n]).None?
    decreases m
  {
    hide SelectionError;
    if n < m {
      SelectionsErrorPrefix(selections, n, m - 1);
    }
  }

  /** The bytes of selections `n..` of the list. */
  function SelectionsFrom(selections: seq<ProtocolSelection>, n: nat): Bytes
    requires n <= |selections| && forall k :: n <= k < |selections| ==> SelectionFits(selections[k])
    decreases |selections| - n
  {
    if n == |selections| then [] else WriteSelection(selections[n]) + SelectionsFrom(selections, n + 1)
  }

  lemma AllSelectionsFit(selections: seq<ProtocolSelection>)
    requires SelectionsError(selections, |selections|).None?
    ensures forall k :: 0 <= k < |selections| ==> SelectionFits(selections[k])
  {
    hide SelectionsError;
    forall k | 0 <= k < |selections|
      ensures SelectionFits(selections[k])
    {
      SelectionsErrorPrefix(selections, k, |selections|);
    }
  }

  lemma {:induction false} SelectionsSplit(selections: seq<ProtocolSelection>, n: nat)
    requires n <= |selections| && SelectionsError(selections, |selections|).None?
    requires forall k :: 0 <= k < |selections| ==> SelectionFits(selections[k])
    ensures SelectionsError(selections, n).None?
    ensures WriteSelections(selections, |selections|) == WriteSelections(selections, n) + SelectionsFrom(selections, n)
    decreases |selections| - n
  {
    hide SelectionError, SelectionFits, WriteSelection;
    SelectionsErrorPrefix(selections, n, |selections|);
    if n < |selections| {
      SelectionsSplit(selections, n + 1);
      assert WriteSelections(selections, n + 1) == WriteSelections(selections, n) + WriteSelection(selections[n]);
      assert SelectionsFrom(selections, n) == WriteSelection(selections[n]) + SelectionsFrom(selections, n + 1);
    }
  }

  lemma SelectionsWhole(selections: seq<ProtocolSelection>)
    requires SelectionsError(selections, |selections|).None?
    ensures forall k :: 0 <= k < |selections| ==> SelectionFits(selections[k])
    ensures WriteSelections(selections, |selections|) == SelectionsFrom(selections, 0)
  {
    hide SelectionError, SelectionFits, WriteSelection;
    AllSelectionsFit(selections);
    SelectionsSplit(selections, 0);
    assert WriteSelections(selections, 0) + SelectionsFrom(selections, 0) == SelectionsFrom(selections, 0);
  }

  lemma SelectionsFromStep(selections: seq<ProtocolSelection>, n: nat)
    requires n <= |selections| && forall k :: 0 <= k < |selections| ==> SelectionFits(selections[k])
    ensures SelectionsFrom(selections, n) ==
              if n == |selections| then [] else WriteSelection(selections[n]) + SelectionsFrom(selections, n + 1)
  {
  }

  lemma {:induction false} SelectionsGive(selections: seq<ProtocolSelection>, n: nat, rest: Bytes)
    requires n <= |selections| && SelectionsError(selections, |selections|).None?
    requires forall k :: 0 <= k < |selections| ==> SelectionFits(selections[k])
    ensures ReadSelections(SelectionsFrom(selections, n) + rest, |selections| - n, selections[..n])
         == Got(selections, rest)
    decreases |selections| - n
  {
    hide SelectionsError, ReadSelection, WriteSelection, SelectionFits, HasSelection, SelectionsFrom;
    SelectionsFromStep(selections, n);
    if n == |selections| {
      assert selections[..n] == selections && SelectionsFrom(selections, n) + rest == rest;
    } else {
      SelectionsErrorPrefix(selections, n, |selections|);
      SelectionsGive(selections, n + 1, rest);
      assert SelectionsFrom(selections, n) + rest
          == WriteSelection(selections[n]) + (SelectionsFrom(selections, n + 1) + rest);
      SelectionGives(selections[n], SelectionsFrom(selections, n + 1) + rest);
      assert selections[..n] + [selections[n]] == selections[..n + 1];
    }
  }

  lemma ExtendsSelections(sofar: seq<ProtocolSelection>, s: ProtocolSelection)
    requires SelectionsError(sofar, |sofar|).None? && SelectionError(sofar, s).None?
    ensures SelectionsError(sofar + [s], |sofar| + 1).None?
    ensures WriteSelections(sofar + [s], |sofar| + 1) == WriteSelections(sofar, |sofar|) + WriteSelection(s)
  {
    hide SelectionError, WriteSelection;
    SameSelections(sofar, s, |sofar|);
    assert (sofar + [s])[..|sofar|] == sofar;
  }

  lemma {:induction false} SameSelections(sofar: seq<ProtocolSelection>, s: ProtocolSelection, n: nat)
    requires n <= |sofar| && SelectionsError(sofar, n).None?
    ensures SelectionsError(sofar + [s], n).None?
    ensures WriteSelections(sofar + [s], n) == WriteSelections(sofar, n)
  {
    hide SelectionError, WriteSelection;
    if n > 0 {
      SameSelections(sofar, s, n - 1);
      assert (sofar + [s])[..n - 1] == sofar[..n - 1];
    }
  }

  lemma {:induction false} SelectionsCame(b: Bytes, n: nat, sofar: seq<ProtocolSelection>)
    requires SelectionsError(sofar, |sofar|).None?
    ensures var p := ReadSelections(b, n, sofar);
            p.Got? ==>
              && |p.value| == |sofar| + n && SelectionsError(p.value, |p.value|).None?
              && WriteSelections(sofar, |sofar|) + b == WriteSelections(p.value, |p.value|) + p.rest
    decreases n
  {
    hide SelectionsError, ReadSelection, WriteSelection, WriteSelections, SelectionFits, HasSelection;
    if n > 0 && ReadSelection(b).Got? {
      var s := ReadSelection(b).value;
      SelectionCame(b);
      if SelectionError(sofar, s).None? {
        ExtendsSelections(sofar, s);
        SelectionsCame(ReadSelection(b).rest, n - 1, sofar + [s]);
        assert WriteSelections(sofar, |sofar|) + b
            == WriteSelections(sofar + [s], |sofar| + 1) + ReadSelection(b).rest;
      }
    }
  }
}
