/** Every control payload and the envelope around it: a bijection on what the codec accepts. */
module ControlCodecSpec {
  import opened Base
  import opened Wire
  import opened Identity
  import opened Capabilities
  import opened CodecSpec
  import opened ControlSpec
  import HandshakeSpec

  /** A remote error's message is local text and does not travel. */
  datatype Payload =
    | Hello(identity: Identity, linkVersions: VersionRange, linkCapabilities: u64, requestedAuth: HandshakeSpec.AuthPath)
    | OfferProtocols(offers: seq<ProtocolOffer>)
    | SelectProtocols(selections: seq<ProtocolSelection>)
    | OpenChannel(protocolId: Id16, protocolChannelId: u16, requestedChannelId: u32, capacity: u32)
    | AcceptChannel(protocolId: Id16, protocolChannelId: u16, sessionChannelId: u32)
    | CloseChannel(sessionChannelId: u32)
    | Ping(nonce: u64)
    | Pong(nonce: u64)
    | BeginDrain(deadlineMillis: u32)
    | CloseSession(reasonCode: u16)
    | Error(domain: ErrorDomain, code: u16, operation: Option<Opcode>, retryability: Retryability)

  function OpcodeOf(p: Payload): Opcode {
    match p
    case Hello(_, _, _, _) => HelloOp
    case OfferProtocols(_) => ProtocolOfferOp
    case SelectProtocols(_) => ProtocolSelectOp
    case OpenChannel(_, _, _, _) => OpenChannelOp
    case AcceptChannel(_, _, _) => ChannelAcceptedOp
    case CloseChannel(_) => CloseChannelOp
    case Ping(_) => PingOp
    case Pong(_) => PongOp
    case BeginDrain(_) => BeginDrainOp
    case CloseSession(_) => CloseSessionOp
    case Error(_, _, _, _) => ErrorOp
  }

  /** Why the writer refuses a payload. */
  function PayloadError(p: Payload, derive: Derive): Option<CodecError> {
    match p
    case Hello(_, versions, _, _) => if versions.IsValid() then None else Some(InvalidPayload)
    case OfferProtocols(offers) =>
      if |offers| > MAX_CONTROL_PROTOCOLS then Some(LimitExceeded) else OffersError(offers, |offers|, derive)
    case SelectProtocols(selections) =>
      if |selections| > MAX_CONTROL_PROTOCOLS then Some(LimitExceeded) else SelectionsError(selections, |selections|)
    case OpenChannel(_, channel, session, capacity) =>
      if channel == 0 || session == 0 || capacity == 0 then Some(InvalidPayload) else None
    case AcceptChannel(_, channel, session) => if channel == 0 || session == 0 then Some(InvalidPayload) else None
    case CloseChannel(session) => if session == 0 then Some(InvalidPayload) else None
    case _ => None
  }

  /* -------------------------------------- Hello ---------------------------------------- */

  function AuthToWire(a: HandshakeSpec.AuthPath): byte { if a == HandshakeSpec.FirstPairing then 0 else 1 }

  function WriteHello(p: Payload): (b: Bytes)
    requires p.Hello?
    ensures |b| == 81
  {
    p.identity.peerId + p.identity.endpointId + p.identity.connectionId + WriteRange(p.linkVersions)
      + Put64(p.linkCapabilities) + [AuthToWire(p.requestedAuth)]
  }

  function ReadHello(b: Bytes): Parse<Payload> {
    var peer := ReadId32(b);
    if peer.Bad? then Bad(peer.error)
    else
      var endpoint := ReadId16(peer.rest);
      if endpoint.Bad? then Bad(endpoint.error)
      else
        var connection := ReadId16(endpoint.rest);
        if connection.Bad? then Bad(connection.error)
        else
          var versions := ReadRange(connection.rest);
          if versions.Bad? then Bad(versions.error)
          else
            var capabilities := ReadU64(versions.rest);
            if capabilities.Bad? then Bad(capabilities.error)
            else
              var auth := ReadU8(capabilities.rest);
              if auth.Bad? then Bad(auth.error)
              else if auth.value > 1 then Bad(InvalidPayload)
              else
                Got(Hello(Identity(peer.value, endpoint.value, connection.value), versions.value,
                          capabilities.value,
                          if auth.value == 0 then HandshakeSpec.FirstPairing else HandshakeSpec.TrustedReconnect),
                    auth.rest)
  }

  lemma HelloGives(p: Payload, rest: Bytes)
    requires p.Hello? && p.linkVersions.IsValid()
    ensures ReadHello(WriteHello(p) + rest) == Got(p, rest)
  {
    hide ReadId32, ReadId16, ReadRange, WriteRange, ReadU64, Put64, ReadU8;
    var f := [AuthToWire(p.requestedAuth)] + rest;
    var e := Put64(p.linkCapabilities) + f;
    var d := WriteRange(p.linkVersions) + e;
    var c := p.identity.connectionId + d;
    var a := p.identity.endpointId + c;
    assert WriteHello(p) + rest == p.identity.peerId + a;
    Id32Gives(p.identity.peerId, a);
    Id16Gives(p.identity.endpointId, c);
    Id16Gives(p.identity.connectionId, d);
    RangeGives(p.linkVersions, e);
    U64Gives(p.linkCapabilities, f);
    U8Gives(AuthToWire(p.requestedAuth), rest);
  }

  lemma HelloCame(b: Bytes)
    ensures ReadHello(b).Got? ==>
              var p := ReadHello(b).value;
              p.Hello? && p.linkVersions.IsValid() && b == WriteHello(p) + ReadHello(b).rest
  {
    hide ReadId32, ReadId16, ReadRange, WriteRange, ReadU64, Put64, ReadU8;
    if ReadHello(b).Got? {
      Id32Came(b);
      var r1 := ReadId32(b).rest;
      Id16Came(r1);
      var r2 := ReadId16(r1).rest;
      Id16Came(r2);
      var r3 := ReadId16(r2).rest;
      RangeCame(r3);
      var r4 := ReadRange(r3).rest;
      U64Came(r4);
      U8Came(ReadU64(r4).rest);
    }
  }

  /* ------------------------------------- Channels -------------------------------------- */

  function WriteOpen(p: Payload): (b: Bytes)
    requires p.OpenChannel?
    ensures |b| == 26
  {
    p.protocolId + Put16(p.protocolChannelId) + Put32(p.requestedChannelId) + Put32(p.capacity)
  }

  function ReadOpen(b: Bytes): Parse<Payload> {
    var id := ReadId16(b);
    if id.Bad? then Bad(id.error)
    else
      var channel := ReadU16(id.rest);
      if channel.Bad? then Bad(channel.error)
      else
        var session := ReadU32(channel.rest);
        if session.Bad? then Bad(session.error)
        else
          var capacity := ReadU32(session.rest);
          if capacity.Bad? then Bad(capacity.error)
          else if channel.value == 0 || session.value == 0 || capacity.value == 0 then Bad(InvalidPayload)
          else Got(OpenChannel(id.value, channel.value, session.value, capacity.value), capacity.rest)
  }

  lemma OpenGives(p: Payload, rest: Bytes)
    requires p.OpenChannel? && p.protocolChannelId != 0 && p.requestedChannelId != 0 && p.capacity != 0
    ensures ReadOpen(WriteOpen(p) + rest) == Got(p, rest)
  {
    hide ReadId16, ReadU16, ReadU32, Put16, Put32;
    var d := Put32(p.capacity) + rest;
    var c := Put32(p.requestedChannelId) + d;
    var a := Put16(p.protocolChannelId) + c;
    assert WriteOpen(p) + rest == p.protocolId + a;
    Id16Gives(p.protocolId, a);
    U16Gives(p.protocolChannelId, c);
    U32Gives(p.requestedChannelId, d);
    U32Gives(p.capacity, rest);
  }

  lemma OpenCame(b: Bytes)
    ensures ReadOpen(b).Got? ==>
              var p := ReadOpen(b).value;
              && p.OpenChannel? && p.protocolChannelId != 0 && p.requestedChannelId != 0 && p.capacity != 0
              && b == WriteOpen(p) + ReadOpen(b).rest
  {
    hide ReadId16, ReadU16, ReadU32, Put16, Put32;
    if ReadOpen(b).Got? {
      Id16Came(b);
      var r1 := ReadId16(b).rest;
      U16Came(r1);
      var r2 := ReadU16(r1).rest;
      U32Came(r2);
      U32Came(ReadU32(r2).rest);
    }
  }

  function WriteAccept(p: Payload): (b: Bytes)
    requires p.AcceptChannel?
    ensures |b| == 22
  {
    p.protocolId + Put16(p.protocolChannelId) + Put32(p.sessionChannelId)
  }

  function ReadAccept(b: Bytes): Parse<Payload> {
    var id := ReadId16(b);
    if id.Bad? then Bad(id.error)
    else
      var channel := ReadU16(id.rest);
      if channel.Bad? then Bad(channel.error)
      else
        var session := ReadU32(channel.rest);
        if session.Bad? then Bad(session.error)
        else if channel.value == 0 || session.value == 0 then Bad(InvalidPayload)
        else Got(AcceptChannel(id.value, channel.value, session.value), session.rest)
  }

  lemma AcceptGives(p: Payload, rest: Bytes)
    requires p.AcceptChannel? && p.protocolChannelId != 0 && p.sessionChannelId != 0
    ensures ReadAccept(WriteAccept(p) + rest) == Got(p, rest)
  {
    hide ReadId16, ReadU16, ReadU32, Put16, Put32;
    var c := Put32(p.sessionChannelId) + rest;
    var a := Put16(p.protocolChannelId) + c;
    assert WriteAccept(p) + rest == p.protocolId + a;
    Id16Gives(p.protocolId, a);
    U16Gives(p.protocolChannelId, c);
    U32Gives(p.sessionChannelId, rest);
  }

  lemma AcceptCame(b: Bytes)
    ensures ReadAccept(b).Got? ==>
              var p := ReadAccept(b).value;
              && p.AcceptChannel? && p.protocolChannelId != 0 && p.sessionChannelId != 0
              && b == WriteAccept(p) + ReadAccept(b).rest
  {
    hide ReadId16, ReadU16, ReadU32, Put16, Put32;
    if ReadAccept(b).Got? {
      Id16Came(b);
      var r1 := ReadId16(b).rest;
      U16Came(r1);
      U32Came(ReadU16(r1).rest);
    }
  }

  /* -------------------------------------- Errors --------------------------------------- */

  function OperationToWire(o: Option<Opcode>): u16 { if o.None? then U16_MAX else OpcodeToWire(o.value) }

  function WriteError(p: Payload): (b: Bytes)
    requires p.Error?
    ensures |b| == 6
  {
    [DomainToWire(p.domain)] + Put16(p.code) + Put16(OperationToWire(p.operation)) + [RetryToWire(p.retryability)]
  }

  function ReadError(b: Bytes): Parse<Payload> {
    var domain := ReadU8(b);
    if domain.Bad? then Bad(domain.error)
    else if DomainFromWire(domain.value).None? then Bad(InvalidPayload)
    else
      var code := ReadU16(domain.rest);
      if code.Bad? then Bad(code.error)
      else
        var operation := ReadU16(code.rest);
        if operation.Bad? then Bad(operation.error)
        else if operation.value != U16_MAX && OpcodeFromWire(operation.value).None? then Bad(UnknownOpcode)
        else
          var retry := ReadU8(operation.rest);
          if retry.Bad? then Bad(retry.error)
          else if RetryFromWire(retry.value).None? then Bad(InvalidPayload)
          else
            Got(Error(DomainFromWire(domain.value).value, code.value,
                      if operation.value == U16_MAX then None else OpcodeFromWire(operation.value),
                      RetryFromWire(retry.value).value),
                retry.rest)
  }

  lemma ErrorGives(p: Payload, rest: Bytes)
    requires p.Error?
    ensures ReadError(WriteError(p) + rest) == Got(p, rest)
  {
    hide ReadU8, ReadU16, Put16, DomainToWire, DomainFromWire, RetryToWire, RetryFromWire, OpcodeToWire,
      OpcodeFromWire;
    var d := [RetryToWire(p.retryability)] + rest;
    var c := Put16(OperationToWire(p.operation)) + d;
    var a := Put16(p.code) + c;
    assert WriteError(p) + rest == [DomainToWire(p.domain)] + a;
    U8Gives(DomainToWire(p.domain), a);
    U16Gives(p.code, c);
    U16Gives(OperationToWire(p.operation), d);
    U8Gives(RetryToWire(p.retryability), rest);
    DomainRoundTrip(p.domain, DomainToWire(p.domain));
    RetryRoundTrip(p.retryability, RetryToWire(p.retryability));
    if p.operation.Some? {
      OpcodeRoundTrip(p.operation.value, OpcodeToWire(p.operation.value));
    }
  }

  lemma ErrorCame(b: Bytes)
    ensures ReadError(b).Got? ==> ReadError(b).value.Error? && b == WriteError(ReadError(b).value) + ReadError(b).rest
  {
    hide ReadU8, ReadU16, Put16, DomainToWire, DomainFromWire, RetryToWire, RetryFromWire, OpcodeToWire,
      OpcodeFromWire;
    if ReadError(b).Got? {
      var p := ReadError(b).value;
      U8Came(b);
      var r1 := ReadU8(b).rest;
      U16Came(r1);
      var r2 := ReadU16(r1).rest;
      U16Came(r2);
      var r3 := ReadU16(r2).rest;
      U8Came(r3);
      DomainRoundTrip(p.domain, ReadU8(b).value);
      RetryRoundTrip(p.retryability, ReadU8(r3).value);
      if p.operation.Some? {
        OpcodeRoundTrip(p.operation.value, ReadU16(r2).value);
      }
    }
  }

  /* -------------------------------------- Lists ---------------------------------------- */

  function ReadOfferList(b: Bytes, derive: Derive): Parse<Payload> {
    var count := ReadCount(b, MAX_CONTROL_PROTOCOLS);
    if count.Bad? then Bad(count.error)
    else
      var offers := ReadOffers(count.rest, count.value, [], derive);
      if offers.Bad? then Bad(offers.error) else Got(OfferProtocols(offers.value), offers.rest)
  }

  function ReadSelectionList(b: Bytes): Parse<Payload> {
    var count := ReadCount(b, MAX_CONTROL_PROTOCOLS);
    if count.Bad? then Bad(count.error)
    else
      var selections := ReadSelections(count.rest, count.value, []);
      if selections.Bad? then Bad(selections.error) else Got(SelectProtocols(selections.value), selections.rest)
  }

  lemma OfferListGives(offers: seq<ProtocolOffer>, rest: Bytes, derive: Derive)
    requires |offers| <= MAX_CONTROL_PROTOCOLS && OffersError(offers, |offers|, derive).None?
    ensures ReadOfferList([|offers|] + WriteOffers(offers, |offers|, derive) + rest, derive)
         == Got(OfferProtocols(offers), rest)
  {
    hide ReadU8, OffersError, OfferFits, ReadOffers, WriteOffers, OffersFrom;
    var body := WriteOffers(offers, |offers|, derive);
    assert [|offers|] + body + rest == [|offers|] + (body + rest);
    U8Gives(|offers|, body + rest);
    OffersWhole(offers, derive);
    OffersGive(offers, 0, rest, derive);
    assert offers[..0] == [];
  }

  lemma SelectionListGives(selections: seq<ProtocolSelection>, rest: Bytes)
    requires |selections| <= MAX_CONTROL_PROTOCOLS && SelectionsError(selections, |selections|).None?
    ensures ReadSelectionList([|selections|] + WriteSelections(selections, |selections|) + rest)
         == Got(SelectProtocols(selections), rest)
  {
    hide ReadU8, SelectionsError, SelectionFits, ReadSelections, WriteSelections, SelectionsFrom;
    var body := WriteSelections(selections, |selections|);
    assert [|selections|] + body + rest == [|selections|] + (body + rest);
    U8Gives(|selections|, body + rest);
    SelectionsWhole(selections);
    SelectionsGive(selections, 0, rest);
    assert selections[..0] == [];
  }

  lemma NoOffersWritten(derive: Derive)
    ensures OffersError([], 0, derive).None? && WriteOffers([], 0, derive) == []
  {
  }

  lemma NoSelectionsWritten()
    ensures SelectionsError([], 0).None? && WriteSelections([], 0) == []
  {
  }

  lemma OfferListCame(b: Bytes, derive: Derive)
    ensures var p := ReadOfferList(b, derive);
            p.Got? ==>
              && p.value.OfferProtocols? && |p.value.offers| <= MAX_CONTROL_PROTOCOLS
              && OffersError(p.value.offers, |p.value.offers|, derive).None?
              && b == [|p.value.offers|] + WriteOffers(p.value.offers, |p.value.offers|, derive) + p.rest
  {
    hide ReadU8, ReadOffers, OffersError, WriteOffers;
    NoOffersWritten(derive);
    if ReadOfferList(b, derive).Got? {
      U8Came(b);
      OffersCame(ReadU8(b).rest, ReadU8(b).value, [], derive);
      assert [] + ReadU8(b).rest == ReadU8(b).rest;
    }
  }

  lemma SelectionListCame(b: Bytes)
    ensures var p := ReadSelectionList(b);
            p.Got? ==>
              && p.value.SelectProtocols? && |p.value.selections| <= MAX_CONTROL_PROTOCOLS
              && SelectionsError(p.value.selections, |p.value.selections|).None?
              && b == [|p.value.selections|] + WriteSelections(p.value.selections, |p.value.selections|) + p.rest
  {
    hide ReadU8, ReadSelections, SelectionsError, WriteSelections;
    NoSelectionsWritten();
    if ReadSelectionList(b).Got? {
      U8Came(b);
      SelectionsCame(ReadU8(b).rest, ReadU8(b).value, []);
      assert [] + ReadU8(b).rest == ReadU8(b).rest;
    }
  }

  /* ------------------------------------- Payloads -------------------------------------- */

  const LARGEST_PAYLOAD: nat := 13377

  /** No payload comes near the frame limit: the largest offers 32 protocols with every field full. */
  function WritePayload(p: Payload, derive: Derive): (b: Bytes)
    requires PayloadError(p, derive).None?
    ensures |b| <= LARGEST_PAYLOAD
  {
    match p
    case Hello(_, _, _, _) => WriteHello(p)
    case OfferProtocols(offers) => [|offers|] + WriteOffers(offers, |offers|, derive)
    case SelectProtocols(selections) => [|selections|] + WriteSelections(selections, |selections|)
    case OpenChannel(_, _, _, _) => WriteOpen(p)
    case AcceptChannel(_, _, _) => WriteAccept(p)
    case CloseChannel(session) => Put32(session)
    case Ping(nonce) => Put64(nonce)
    case Pong(nonce) => Put64(nonce)
    case BeginDrain(deadline) => Put32(deadline)
    case CloseSession(reason) => Put16(reason)
    case Error(_, _, _, _) => WriteError(p)
  }

  function ReadClose(b: Bytes): Parse<Payload> {
    var session := ReadU32(b);
    if session.Bad? then Bad(session.error)
    else if session.value == 0 then Bad(InvalidPayload)
    else Got(CloseChannel(session.value), session.rest)
  }

  function ReadNonce(b: Bytes, pong: bool): Parse<Payload> {
    var nonce := ReadU64(b);
    if nonce.Bad? then Bad(nonce.error) else Got(if pong then Pong(nonce.value) else Ping(nonce.value), nonce.rest)
  }

  function ReadDrain(b: Bytes): Parse<Payload> {
    var deadline := ReadU32(b);
    if deadline.Bad? then Bad(deadline.error) else Got(BeginDrain(deadline.value), deadline.rest)
  }

  function ReadCloseSession(b: Bytes): Parse<Payload> {
    var reason := ReadU16(b);
    if reason.Bad? then Bad(reason.error) else Got(CloseSession(reason.value), reason.rest)
  }

  function ReadPayload(opcode: Opcode, b: Bytes, derive: Derive): Parse<Payload> {
    match opcode
    case HelloOp => ReadHello(b)
    case ProtocolOfferOp => ReadOfferList(b, derive)
    case ProtocolSelectOp => ReadSelectionList(b)
    case OpenChannelOp => ReadOpen(b)
    case ChannelAcceptedOp => ReadAccept(b)
    case CloseChannelOp => ReadClose(b)
    case PingOp => ReadNonce(b, false)
    case PongOp => ReadNonce(b, true)
    case BeginDrainOp => ReadDrain(b)
    case CloseSessionOp => ReadCloseSession(b)
    case ErrorOp => ReadError(b)
  }

  lemma PayloadGives(p: Payload, derive: Derive)
    requires PayloadError(p, derive).None?
    ensures ReadPayload(OpcodeOf(p), WritePayload(p, derive), derive) == Got(p, [])
  {
    hide ReadHello, ReadOfferList, ReadSelectionList, ReadOpen, ReadAccept, ReadError, ReadU16, ReadU32, ReadU64,
      WriteHello, WriteOpen, WriteAccept, WriteError, Put16, Put32, Put64, OffersError, SelectionsError, WriteOffers,
      WriteSelections;
    assert WritePayload(p, derive) + [] == WritePayload(p, derive);
    match p {
      case Hello(_, _, _, _) => HelloGives(p, []);
      case OfferProtocols(offers) => OfferListGives(offers, [], derive);
      case SelectProtocols(selections) => SelectionListGives(selections, []);
      case OpenChannel(_, _, _, _) => OpenGives(p, []);
      case AcceptChannel(_, _, _) => AcceptGives(p, []);
      case CloseChannel(session) => U32Gives(session, []);
      case Ping(nonce) => U64Gives(nonce, []);
      case Pong(nonce) => U64Gives(nonce, []);
      case BeginDrain(deadline) => U32Gives(deadline, []);
      case CloseSession(reason) => U16Gives(reason, []);
      case Error(_, _, _, _) => ErrorGives(p, []);
    }
  }

  lemma PayloadCame(opcode: Opcode, b: Bytes, derive: Derive)
    ensures var p := ReadPayload(opcode, b, derive);
            p.Got? ==>
              && OpcodeOf(p.value) == opcode && PayloadError(p.value, derive).None?
              && b == WritePayload(p.value, derive) + p.rest
  {
    hide ReadHello, ReadOfferList, ReadSelectionList, ReadOpen, ReadAccept, ReadError, ReadU16, ReadU32, ReadU64,
      WriteHello, WriteOpen, WriteAccept, WriteError, Put16, Put32, Put64, OffersError, SelectionsError, WriteOffers,
      WriteSelections;
    match opcode {
      case HelloOp => HelloCame(b);
      case ProtocolOfferOp => OfferListCame(b, derive);
      case ProtocolSelectOp => SelectionListCame(b);
      case OpenChannelOp => OpenCame(b);
      case ChannelAcceptedOp => AcceptCame(b);
      case CloseChannelOp => U32Came(b);
      case PingOp => U64Came(b);
      case PongOp => U64Came(b);
      case BeginDrainOp => U32Came(b);
      case CloseSessionOp => U16Came(b);
      case ErrorOp => ErrorCame(b);
    }
  }

  /* ------------------------------------- Envelope -------------------------------------- */

  datatype ControlEnvelope = ControlEnvelope(
    wireVersion: u16, opcode: Opcode, requestId: u64, sessionId: Option<Id16>, response: bool, payload: Payload)

  datatype Header = Header(opcode: Opcode, response: bool, requestId: u64, sessionId: Option<Id16>, payloadLen: u32)

  const ZERO_ID: Id16 := [0, 0, 0, 0, 0, 0, 0, 0, 0, 0, 0, 0, 0, 0, 0, 0]

  function WriteSession(id: Option<Id16>): (b: Bytes)
    ensures |b| == 17
  {
    if id.None? then [0] + ZERO_ID else [1] + id.value
  }

  function FlagsToWire(response: bool): u16 { if response then 1 else 0 }

  function WriteHeader(h: Header): (b: Bytes)
    ensures |b| == CONTROL_HEADER_BYTES
  {
    CONTROL_MAGIC + Put16(TYPED_CONTROL_WIRE_VERSION) + Put16(OpcodeToWire(h.opcode)) + Put16(FlagsToWire(h.response))
      + Put64(h.requestId) + WriteSession(h.sessionId) + Put32(h.payloadLen)
  }

  function ReadSession(b: Bytes): Parse<Option<Id16>> {
    var present := ReadU8(b);
    if present.Bad? then Bad(present.error)
    else
      var id := ReadId16(present.rest);
      if id.Bad? then Bad(id.error)
      else if present.value == 0 && id.value == ZERO_ID then Got(None, id.rest)
      else if present.value == 1 then Got(Some(id.value), id.rest)
      else Bad(InvalidPayload)
  }

  /** The header checks in the order the decoder makes them. */
  function ReadHeader(w: Bytes): Parse<Header> {
    if |w| < CONTROL_HEADER_BYTES then Bad(Truncated)
    else if w[..4] != CONTROL_MAGIC then Bad(InvalidPayload)
    else
      var version := ReadU16(w[4..]);
      if version.Bad? then Bad(version.error)
      else if version.value != TYPED_CONTROL_WIRE_VERSION then Bad(UnsupportedVersion)
      else
        var opcode := ReadU16(version.rest);
        if opcode.Bad? then Bad(opcode.error)
        else if OpcodeFromWire(opcode.value).None? then Bad(UnknownOpcode)
        else
          var flags := ReadU16(opcode.rest);
          if flags.Bad? then Bad(flags.error)
          else if flags.value > 1 then Bad(InvalidPayload)
          else
            var request := ReadU64(flags.rest);
            if request.Bad? then Bad(request.error)
            else
              var session := ReadSession(request.rest);
              if session.Bad? then Bad(session.error)
              else
                var len := ReadU32(session.rest);
                if len.Bad? then Bad(len.error)
                else if len.value > MAX_CONTROL_PAYLOAD_BYTES then Bad(LimitExceeded)
                else
                  Got(Header(OpcodeFromWire(opcode.value).value, flags.value == 1, request.value, session.value,
                             len.value),
                      len.rest)
  }

  lemma SessionGives(id: Option<Id16>, rest: Bytes)
    ensures ReadSession(WriteSession(id) + rest) == Got(id, rest)
  {
    hide ReadU8, ReadId16;
    if id.Some? {
      assert WriteSession(id) + rest == [1] + (id.value + rest);
      U8Gives(1, id.value + rest);
      Id16Gives(id.value, rest);
    } else {
      assert WriteSession(id) + rest == [0] + (ZERO_ID + rest);
      U8Gives(0, ZERO_ID + rest);
      Id16Gives(ZERO_ID, rest);
    }
  }

  lemma SessionCame(b: Bytes)
    ensures ReadSession(b).Got? ==> b == WriteSession(ReadSession(b).value) + ReadSession(b).rest
  {
    hide ReadU8, ReadId16;
    if ReadSession(b).Got? {
      U8Came(b);
      Id16Came(ReadU8(b).rest);
    }
  }

  lemma HeaderGives(h: Header, rest: Bytes)
    requires h.payloadLen <= MAX_CONTROL_PAYLOAD_BYTES
    ensures ReadHeader(WriteHeader(h) + rest) == Got(h, rest)
  {
    hide ReadU16, ReadU32, ReadU64, ReadSession, WriteSession, Put16, Put32, Put64, OpcodeToWire, OpcodeFromWire;
    var f := Put32(h.payloadLen) + rest;
    var e := WriteSession(h.sessionId) + f;
    var d := Put64(h.requestId) + e;
    var c := Put16(FlagsToWire(h.response)) + d;
    var a := Put16(OpcodeToWire(h.opcode)) + c;
    var w := WriteHeader(h) + rest;
    assert w == CONTROL_MAGIC + (Put16(TYPED_CONTROL_WIRE_VERSION) + a);
    assert w[..4] == CONTROL_MAGIC && w[4..] == Put16(TYPED_CONTROL_WIRE_VERSION) + a;
    U16Gives(TYPED_CONTROL_WIRE_VERSION, a);
    U16Gives(OpcodeToWire(h.opcode), c);
    OpcodeRoundTrip(h.opcode, OpcodeToWire(h.opcode));
    U16Gives(FlagsToWire(h.response), d);
    U64Gives(h.requestId, e);
    SessionGives(h.sessionId, f);
    U32Gives(h.payloadLen, rest);
  }

  lemma HeaderCame(w: Bytes)
    ensures ReadHeader(w).Got? ==>
              ReadHeader(w).value.payloadLen <= MAX_CONTROL_PAYLOAD_BYTES
              && w == WriteHeader(ReadHeader(w).value) + ReadHeader(w).rest
  {
    hide ReadU16, ReadU32, ReadU64, ReadSession, WriteSession, Put16, Put32, Put64, OpcodeToWire, OpcodeFromWire;
    if ReadHeader(w).Got? {
      var h := ReadHeader(w).value;
      assert w == CONTROL_MAGIC + w[4..];
      U16Came(w[4..]);
      var r1 := ReadU16(w[4..]).rest;
      U16Came(r1);
      OpcodeRoundTrip(h.opcode, ReadU16(r1).value);
      var r2 := ReadU16(r1).rest;
      U16Came(r2);
      var r3 := ReadU16(r2).rest;
      U64Came(r3);
      var r4 := ReadU64(r3).rest;
      SessionCame(r4);
      U32Came(ReadSession(r4).rest);
    }
  }

  function HeaderOf(e: ControlEnvelope, payloadLen: u32): Header {
    Header(e.opcode, e.response, e.requestId, e.sessionId, payloadLen)
  }

  function Encode(typed: bool, e: ControlEnvelope, derive: Derive): Result<Bytes, CodecError> {
    if !typed then Err(ModeMismatch)
    else if e.wireVersion != TYPED_CONTROL_WIRE_VERSION then Err(UnsupportedVersion)
    else if e.opcode != OpcodeOf(e.payload) then Err(OpcodeMismatch)
    else if PayloadError(e.payload, derive).Some? then Err(PayloadError(e.payload, derive).value)
    else
      var payload := WritePayload(e.payload, derive);
      if |payload| > MAX_CONTROL_PAYLOAD_BYTES then Err(LimitExceeded)
      else Ok(WriteHeader(HeaderOf(e, |payload|)) + payload)
  }

  function Decode(typed: bool, w: Bytes, derive: Derive): Result<ControlEnvelope, CodecError> {
    if !typed then Err(ModeMismatch)
    else
      var header := ReadHeader(w);
      if header.Bad? then Err(header.error)
      else if |header.rest| < header.value.payloadLen then Err(Truncated)
      else if |header.rest| != header.value.payloadLen then Err(TrailingBytes)
      else
        var h := header.value;
        var payload := ReadPayload(h.opcode, header.rest, derive);
        if payload.Bad? then Err(payload.error)
        else if payload.rest != [] then Err(TrailingBytes)
        else Ok(ControlEnvelope(TYPED_CONTROL_WIRE_VERSION, h.opcode, h.requestId, h.sessionId, h.response, payload.value))
  }

  /** Decoding what was encoded gives the envelope back. */
  lemma DecodeInvertsEncode(typed: bool, e: ControlEnvelope, derive: Derive)
    requires Encode(typed, e, derive).Ok?
    ensures Decode(typed, Encode(typed, e, derive).value, derive) == Ok(e)
  {
    hide ReadHeader, WriteHeader, ReadPayload, WritePayload, PayloadError, OpcodeOf;
    var payload := WritePayload(e.payload, derive);
    HeaderGives(HeaderOf(e, |payload|), payload);
    PayloadGives(e.payload, derive);
  }

  /** Encoding what was decoded gives the bytes back: every accepted frame is canonical. */
  lemma EncodeInvertsDecode(typed: bool, w: Bytes, derive: Derive)
    requires Decode(typed, w, derive).Ok?
    ensures Encode(typed, Decode(typed, w, derive).value, derive) == Ok(w)
  {
    hide ReadHeader, WriteHeader, ReadPayload, WritePayload, PayloadError, OpcodeOf;
    HeaderCame(w);
    var header := ReadHeader(w);
    PayloadCame(header.value.opcode, header.rest, derive);
    var payload := ReadPayload(header.value.opcode, header.rest, derive);
    assert WritePayload(payload.value, derive) + [] == WritePayload(payload.value, derive);
  }

  /** Encoding fails only for the reasons a caller can see; the size limit is never one of them. */
  lemma EncodeSucceeds(typed: bool, e: ControlEnvelope, derive: Derive)
    ensures Encode(typed, e, derive).Ok? <==>
              && typed && e.wireVersion == TYPED_CONTROL_WIRE_VERSION && e.opcode == OpcodeOf(e.payload)
              && PayloadError(e.payload, derive).None?
    ensures Encode(typed, e, derive).Ok? ==>
              |Encode(typed, e, derive).value| <= CONTROL_HEADER_BYTES + LARGEST_PAYLOAD
  {
    hide WriteHeader, WritePayload, PayloadError, OpcodeOf;
  }

  /** Frames delimit themselves: a valid frame with anything appended is refused as trailing bytes. */
  lemma ExtensionRefused(typed: bool, w: Bytes, more: Bytes, derive: Derive)
    requires Decode(typed, w, derive).Ok? && more != []
    ensures Decode(typed, w + more, derive) == Err(TrailingBytes)
  {
    hide ReadHeader, WriteHeader, ReadPayload;
    HeaderCame(w);
    var header := ReadHeader(w);
    assert w + more == WriteHeader(header.value) + (header.rest + more);
    HeaderGives(header.value, header.rest + more);
  }

  /** And a valid frame cut anywhere is refused as truncated. */
  lemma PrefixRefused(typed: bool, w: Bytes, n: nat, derive: Derive)
    requires Decode(typed, w, derive).Ok? && n < |w|
    ensures Decode(typed, w[..n], derive) == Err(Truncated)
  {
    hide WriteHeader, ReadPayload, ReadSession, ReadU16, ReadU32, ReadU64, OpcodeFromWire;
    HeaderCame(w);
    if n >= CONTROL_HEADER_BYTES {
      hide ReadHeader;
      var header := ReadHeader(w);
      assert w[..n] == WriteHeader(header.value) + header.rest[..n - CONTROL_HEADER_BYTES];
      HeaderGives(header.value, header.rest[..n - CONTROL_HEADER_BYTES]);
    }
  }
}
