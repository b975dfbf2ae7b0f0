/**
  What stands where on the wire, byte by byte. The round trips hold of any bijection; these laws fix
  which one it is: numbers are big-endian, and every field of every header and payload has its
  place.
 */
module WireLayout {
  import opened Base
  import opened Wire

  /** The value of a big-endian number of any width. */
  function Number(b: Bytes): nat {
    if b == [] then 0 else Number(b[..|b| - 1]) * 256 + b[|b| - 1]
  }

  lemma TwoBytes(b: Bytes)
    requires |b| == 2
    ensures var b0: int, b1: int := b[0], b[1]; Number(b) == b0 * 0x100 + b1
  {
    assert b[..1][..0] == [];
    assert Number(b[..1]) == b[0];
  }

  lemma {:induction false} NumberJoins(a: Bytes, b: Bytes)
    ensures Number(a + b) == Number(a) * Power256(|b|) + Number(b)
  {
    if b == [] {
      assert a + b == a;
    } else {
      var m := |b| - 1;
      assert (a + b)[..|a + b| - 1] == a + b[..m];
      NumberJoins(a, b[..m]);
      Carry(Number(a), Power256(m));
    }
  }

  function Power256(n: nat): nat { if n == 0 then 1 else Power256(n - 1) * 256 }

  lemma Carry(a: nat, p: nat)
    ensures a * p * 256 == a * (p * 256)
  {
  }

  lemma Powers()
    ensures Power256(2) == 0x1_0000 && Power256(4) == 0x1_0000_0000
  {
    assert Power256(3) == 0x100_0000;
  }

  lemma NumberOf16(x: u16)
    ensures Number(Put16(x)) == x
  {
    TwoBytes(Put16(x));
  }

  lemma NumberOf32(x: u32)
    ensures Number(Put32(x)) == x
  {
    hide Put16, Number;
    NumberOf16(x / 0x1_0000);
    NumberOf16(x % 0x1_0000);
    NumberJoins(Put16(x / 0x1_0000), Put16(x % 0x1_0000));
    Powers();
  }

  lemma NumberOf64(x: u64)
    ensures Number(Put64(x)) == x
  {
    hide Put32, Number;
    NumberOf32(x / 0x1_0000_0000);
    NumberOf32(x % 0x1_0000_0000);
    NumberJoins(Put32(x / 0x1_0000_0000), Put32(x % 0x1_0000_0000));
    Powers();
  }

  /** A number of two, four or eight bytes is written most significant byte first, and read the same way. */
  lemma BigEndian(x: u16, y: u32, z: u64, a: Bytes, b: Bytes, c: Bytes)
    requires |a| == 2 && |b| == 4 && |c| == 8
    ensures Number(Put16(x)) == x && Number(Put32(y)) == y && Number(Put64(z)) == z
    ensures Get16(a) == Number(a) && Get32(b) == Number(b) && Get64(c) == Number(c)
    ensures var b0: int, b1: int, b2: int, b3: int := b[0], b[1], b[2], b[3];
            Number(b) == b0 * 0x100_0000 + b1 * 0x1_0000 + b2 * 0x100 + b3
  {
    hide Put16, Put32, Put64, Get16, Get32, Get64, Number;
    NumberOf16(x);
    NumberOf32(y);
    NumberOf64(z);
    PutGet16(a);
    NumberOf16(Get16(a));
    PutGet32(b);
    NumberOf32(Get32(b));
    PutGet64(c);
    NumberOf64(Get64(c));
    FourBytes(b);
  }

  lemma FourBytes(b: Bytes)
    requires |b| == 4
    ensures var b0: int, b1: int, b2: int, b3: int := b[0], b[1], b[2], b[3];
            Number(b) == b0 * 0x100_0000 + b1 * 0x1_0000 + b2 * 0x100 + b3
  {
    hide Number;
    assert b == b[..2] + b[2..];
    NumberJoins(b[..2], b[2..]);
    TwoBytes(b[..2]);
    TwoBytes(b[2..]);
    Powers();
  }

  /** `field` stands at position `i`. */
  predicate At(w: Bytes, i: nat, field: Bytes) {
    i + |field| <= |w| && w[i..i + |field|] == field
  }

  /** The big-endian number in the `n` bytes from position `i`. */
  function NumberIn(w: Bytes, i: nat, n: nat): nat
    requires i + n <= |w|
  {
    Number(w[i..i + n])
  }

  /** The `n` bytes at position `i` are the number `x`. */
  predicate NumberAt(w: Bytes, i: nat, n: nat, x: nat) {
    i + n <= |w| && NumberIn(w, i, n) == x
  }

  lemma At16(w: Bytes, i: nat, x: u16)
    requires At(w, i, Put16(x))
    ensures NumberAt(w, i, 2, x)
  {
    NumberOf16(x);
  }

  lemma At32(w: Bytes, i: nat, x: u32)
    requires At(w, i, Put32(x))
    ensures NumberAt(w, i, 4, x)
  {
    hide Put32, Number;
    NumberOf32(x);
  }

  lemma At64(w: Bytes, i: nat, x: u64)
    requires At(w, i, Put64(x))
    ensures NumberAt(w, i, 8, x)
  {
    hide Put64, Number;
    NumberOf64(x);
  }

  /** Where an element of a counted list stands. */
  lemma Placed(count: byte, before: Bytes, element: Bytes, after: Bytes, list: Bytes)
    requires list == before + (element + after)
    ensures At([count] + list, 1 + |before|, element)
  {
  }
}

/** The frames and datagrams other than control, by position. */
module DataLayout {
  import opened Base
  import opened Wire
  import opened WireLayout
  import Fragment = FragmentSpec
  import Realtime = RealtimeWire
  import Data = DataCodecSpec
  import MuxSpec

  /** `NTF1`, version, reserved, index, count, offset and total length, then the piece. */
  lemma FragmentLayout(f: Fragment.Fragment)
    ensures var w := Fragment.Encode(f);
            && At(w, 0, [0x4E, 0x54, 0x46, 0x31, 1, 0])
            && NumberAt(w, 6, 2, f.index) && NumberAt(w, 8, 2, f.count)
            && NumberAt(w, 10, 4, f.offset) && NumberAt(w, 14, 4, f.totalLen)
            && w[18..] == f.payload
  {
    hide Put16, Put32, Number;
    var w := Fragment.Encode(f);
    Fragment.EncodedParts(f);
    At16(w, 6, f.index);
    At16(w, 8, f.count);
    At32(w, 10, f.offset);
    At32(w, 14, f.totalLen);
  }

  /** `MLRD`, version, priority, flow, generation and sequence, then the payload. */
  lemma RealtimeLayout(d: Realtime.Received)
    ensures var w := Realtime.Encode(d);
            && At(w, 0, [0x4D, 0x4C, 0x52, 0x44, 1]) && w[5] == d.priority
            && NumberAt(w, 6, 2, d.flow) && NumberAt(w, 8, 4, d.generation) && NumberAt(w, 12, 8, d.sequence)
            && w[20..] == d.payload
  {
    hide Put16, Put32, Put64, Number;
    var w := Realtime.Encode(d);
    Realtime.EncodedParts(d);
    At16(w, 6, d.flow);
    At32(w, 8, d.generation);
    At64(w, 12, d.sequence);
  }

  /**
    `MLDT`, version, frame kind, session, channel, generation, sequence, nesting depth, flags (end
    of stream 1, cancelled 2) and payload length, then the payload.
   */
  lemma DataFrameLayout(compact: bool, e: MuxSpec.Envelope, limits: Data.Limits)
    requires Data.Encode(compact, e, limits).Ok?
    ensures var w := Data.Encode(compact, e, limits).value;
            && At(w, 0, [0x4D, 0x4C, 0x44, 0x54, 0, 1, 1]) && At(w, 7, e.sessionId)
            && NumberAt(w, 23, 4, e.channelId) && NumberAt(w, 27, 4, e.generation) && NumberAt(w, 31, 8, e.sequence)
            && NumberAt(w, 39, 2, e.nestingDepth)
            && NumberAt(w, 41, 2, (if e.flags.endOfStream then 1 else 0) + (if e.flags.cancelled then 2 else 0))
            && NumberAt(w, 43, 4, |e.payload|) && w[47..] == e.payload
  {
    hide Put16, Put32, Put64, Number;
    var w := Data.Encode(compact, e, limits).value;
    Data.HeaderParts(e, e.payload);
    At32(w, 23, e.channelId);
    At32(w, 27, e.generation);
    At64(w, 31, e.sequence);
    At16(w, 39, e.nestingDepth);
    At16(w, 41, Data.FlagsToBits(e.flags));
    At32(w, 43, |e.payload|);
  }

  /**
    An envelope is encoded exactly in compact mode, off the control channel, in a real generation,
    and within the limits.
   */
  lemma DataEncodes(compact: bool, e: MuxSpec.Envelope, limits: Data.Limits)
    ensures Data.Encode(compact, e, limits).Ok? <==>
              && compact && e.channelId != 0 && e.generation != 0
              && |e.payload| <= limits.maxPayloadBytes && |e.payload| < 0x1_0000_0000
              && e.nestingDepth <= limits.maxNestingDepth
  {
  }
}

/** Control frames by position. */
module ControlLayout {
  import opened Base
  import opened Wire
  import opened WireLayout
  import opened Identity
  import opened Capabilities
  import opened CodecSpec
  import opened ControlSpec
  import opened ControlCodecSpec
  import HandshakeSpec

  /** The number of each kind of control message. */
  function CodeOf(p: Payload): nat {
    match p
    case Hello(_, _, _, _) => 0x01
    case OfferProtocols(_) => 0x02
    case SelectProtocols(_) => 0x03
    case OpenChannel(_, _, _, _) => 0x10
    case AcceptChannel(_, _, _) => 0x11
    case CloseChannel(_) => 0x12
    case Ping(_) => 0x20
    case Pong(_) => 0x21
    case BeginDrain(_) => 0x22
    case CloseSession(_) => 0x23
    case Error(_, _, _, _) => 0xFF
  }

  /** The number of an operation an error names; a frame of that operation carries the same one. */
  function OperationCode(o: Opcode): nat {
    match o
    case HelloOp => 0x01
    case ProtocolOfferOp => 0x02
    case ProtocolSelectOp => 0x03
    case OpenChannelOp => 0x10
    case ChannelAcceptedOp => 0x11
    case CloseChannelOp => 0x12
    case PingOp => 0x20
    case PongOp => 0x21
    case BeginDrainOp => 0x22
    case CloseSessionOp => 0x23
    case ErrorOp => 0xFF
  }

  lemma CodesAgree(o: Opcode, p: Payload)
    ensures OpcodeToWire(o) == OperationCode(o) && OpcodeToWire(OpcodeOf(p)) == CodeOf(p)
  {
  }

  lemma HeaderPlaces(h: Header, rest: Bytes)
    ensures var w := WriteHeader(h) + rest;
            && At(w, 0, CONTROL_MAGIC) && At(w, 4, Put16(TYPED_CONTROL_WIRE_VERSION))
            && At(w, 6, Put16(OpcodeToWire(h.opcode))) && At(w, 8, Put16(FlagsToWire(h.response)))
            && At(w, 10, Put64(h.requestId)) && At(w, 18, WriteSession(h.sessionId)) && At(w, 35, Put32(h.payloadLen))
            && w[39..] == rest
  {
    hide Put16, Put32, Put64, WriteSession, OpcodeToWire;
  }

  lemma SessionPlaces(w: Bytes, i: nat, id: Option<Id16>)
    requires At(w, i, WriteSession(id))
    ensures w[i] == if id.Some? then 1 else 0
    ensures At(w, i + 1, if id.Some? then id.value else seq(16, _ => 0))
  {
    var s := WriteSession(id);
    assert w[i] == w[i..i + 17][0];
    assert w[i + 1..i + 17] == w[i..i + 17][1..];
    assert s[1..] == if id.Some? then id.value else ZERO_ID;
  }

  /**
    `MLCT`, version, message number, response flag, request, presence byte and session id, payload
    length, then the payload.
   */
  lemma ControlFrameLayout(typed: bool, e: ControlEnvelope, derive: Derive)
    requires Encode(typed, e, derive).Ok?
    ensures PayloadError(e.payload, derive).None?
    ensures var w := Encode(typed, e, derive).value;
            && At(w, 0, [0x4D, 0x4C, 0x43, 0x54]) && NumberAt(w, 4, 2, 1) && NumberAt(w, 6, 2, CodeOf(e.payload))
            && NumberAt(w, 8, 2, if e.response then 1 else 0) && NumberAt(w, 10, 8, e.requestId)
            && w[18] == (if e.sessionId.Some? then 1 else 0)
            && At(w, 19, if e.sessionId.Some? then e.sessionId.value else seq(16, _ => 0))
            && NumberAt(w, 35, 4, |w| - 39) && w[39..] == WritePayload(e.payload, derive)
  {
    hide Put16, Put32, Put64, Number, OpcodeToWire, OpcodeOf, WriteHeader, WritePayload, PayloadError, CodeOf,
      WriteSession;
    var w, payload := Encode(typed, e, derive).value, WritePayload(e.payload, derive);
    HeaderPlaces(HeaderOf(e, |payload|), payload);
    CodesAgree(e.opcode, e.payload);
    At16(w, 4, TYPED_CONTROL_WIRE_VERSION);
    At16(w, 6, OpcodeToWire(e.opcode));
    At16(w, 8, FlagsToWire(e.response));
    At64(w, 10, e.requestId);
    SessionPlaces(w, 18, e.sessionId);
    At32(w, 35, |payload|);
  }

  lemma RangePlaces(v: VersionRange)
    ensures var w := WriteRange(v);
            && NumberAt(w, 0, 2, v.minimum.major) && NumberAt(w, 2, 2, v.minimum.minor)
            && NumberAt(w, 4, 2, v.maximum.major) && NumberAt(w, 6, 2, v.maximum.minor)
  {
    hide Put16, Number;
    var w := WriteRange(v);
    At16(w, 0, v.minimum.major);
    At16(w, 2, v.minimum.minor);
    At16(w, 4, v.maximum.major);
    At16(w, 6, v.maximum.minor);
  }

  lemma Inside(w: Bytes, i: nat, field: Bytes, k: nat, n: nat, x: nat)
    requires At(w, i, field) && NumberAt(field, k, n, x)
    ensures NumberAt(w, i + k, n, x)
  {
    var part := w[i + k..i + k + n];
    forall x | 0 <= x < n
      ensures part[x] == field[k..k + n][x]
    {
      assert w[i..i + |field|][k + x] == w[i + k + x];
    }
    assert part == field[k..k + n];
  }

  lemma HelloParts(p: Payload)
    requires p.Hello?
    ensures var w := WriteHello(p);
            && At(w, 0, p.identity.peerId) && At(w, 32, p.identity.endpointId) && At(w, 48, p.identity.connectionId)
            && At(w, 64, WriteRange(p.linkVersions)) && At(w, 72, Put64(p.linkCapabilities))
            && w[80] == AuthToWire(p.requestedAuth)
  {
    hide WriteRange, Put64;
  }

  /** The fixed payloads, field by field. */
  lemma FixedPayloadLayout(p: Payload, derive: Derive)
    requires PayloadError(p, derive).None? && !p.OfferProtocols? && !p.SelectProtocols?
    ensures var w := WritePayload(p, derive);
            match p
            case Hello(identity, versions, capabilities, auth) =>
              && |w| == 81 && At(w, 0, identity.peerId) && At(w, 32, identity.endpointId)
              && At(w, 48, identity.connectionId)
              && NumberAt(w, 64, 2, versions.minimum.major) && NumberAt(w, 66, 2, versions.minimum.minor)
              && NumberAt(w, 68, 2, versions.maximum.major) && NumberAt(w, 70, 2, versions.maximum.minor)
              && NumberAt(w, 72, 8, capabilities) && w[80] == (if auth == HandshakeSpec.TrustedReconnect then 1 else 0)
            case OpenChannel(id, channel, session, capacity) =>
              && |w| == 26 && At(w, 0, id) && NumberAt(w, 16, 2, channel) && NumberAt(w, 18, 4, session)
              && NumberAt(w, 22, 4, capacity)
            case AcceptChannel(id, channel, session) =>
              && |w| == 22 && At(w, 0, id) && NumberAt(w, 16, 2, channel) && NumberAt(w, 18, 4, session)
            case CloseChannel(session) => |w| == 4 && NumberAt(w, 0, 4, session)
            case Ping(nonce) => |w| == 8 && NumberAt(w, 0, 8, nonce)
            case Pong(nonce) => |w| == 8 && NumberAt(w, 0, 8, nonce)
            case BeginDrain(deadline) => |w| == 4 && NumberAt(w, 0, 4, deadline)
            case CloseSession(reason) => |w| == 2 && NumberAt(w, 0, 2, reason)
            case Error(domain, code, operation, retry) =>
              && |w| == 6 && NumberAt(w, 1, 2, code)
              && NumberAt(w, 3, 2, if operation.Some? then OperationCode(operation.value) else 0xFFFF)
              && w[0] == (if domain == ControlDomain then 0 else if domain == ProtocolDomain then 1
                          else if domain == ChannelDomain then 2 else if domain == SecurityDomain then 3 else 4)
              && w[5] == (if retry == Never then 0 else if retry == RetryAfterBackoff then 1 else 2)
  {
    hide Put16, Put32, Put64, Number, WriteHello, WriteRange, OpcodeToWire;
    var w := WritePayload(p, derive);
    match p {
      case Hello(identity, versions, capabilities, auth) =>
        HelloParts(p);
        RangePlaces(versions);
        Inside(w, 64, WriteRange(versions), 0, 2, versions.minimum.major);
        Inside(w, 64, WriteRange(versions), 2, 2, versions.minimum.minor);
        Inside(w, 64, WriteRange(versions), 4, 2, versions.maximum.major);
        Inside(w, 64, WriteRange(versions), 6, 2, versions.maximum.minor);
        At64(w, 72, capabilities);
      case OpenChannel(id, channel, session, capacity) =>
        OpenParts(p);
        At16(w, 16, channel);
        At32(w, 18, session);
        At32(w, 22, capacity);
      case AcceptChannel(id, channel, session) =>
        AcceptParts(p);
        At16(w, 16, channel);
        At32(w, 18, session);
      case CloseChannel(session) => At32(w, 0, session);
      case Ping(nonce) => At64(w, 0, nonce);
      case Pong(nonce) => At64(w, 0, nonce);
      case BeginDrain(deadline) => At32(w, 0, deadline);
      case CloseSession(reason) => At16(w, 0, reason);
      case Error(domain, code, operation, retry) =>
        ErrorParts(p);
        At16(w, 1, code);
        At16(w, 3, OperationToWire(operation));
        if operation.Some? {
          CodesAgree(operation.value, p);
        }
    }
  }

  lemma OpenParts(p: Payload)
    requires p.OpenChannel?
    ensures var w := WriteOpen(p);
            && At(w, 0, p.protocolId) && At(w, 16, Put16(p.protocolChannelId))
            && At(w, 18, Put32(p.requestedChannelId)) && At(w, 22, Put32(p.capacity))
  {
    hide Put16, Put32;
  }

  lemma AcceptParts(p: Payload)
    requires p.AcceptChannel?
    ensures var w := WriteAccept(p);
            At(w, 0, p.protocolId) && At(w, 16, Put16(p.protocolChannelId)) && At(w, 18, Put32(p.sessionChannelId))
  {
    hide Put16, Put32;
  }

  lemma ErrorParts(p: Payload)
    requires p.Error?
    ensures var w := WriteError(p);
            && w[0] == DomainToWire(p.domain) && At(w, 1, Put16(p.code))
            && At(w, 3, Put16(OperationToWire(p.operation))) && w[5] == RetryToWire(p.retryability)
  {
    hide Put16;
  }

  /* ------------------------------------- Lists ----------------------------------------- */

  /** A schema: id, revision, fingerprint. */
  lemma SchemaLayout(s: SchemaRef)
    ensures var w := WriteSchema(s);
            |w| == 52 && At(w, 0, s.id) && NumberAt(w, 16, 4, s.revision) && At(w, 20, s.fingerprint)
  {
    hide Put32, Number;
    At32(WriteSchema(s), 16, s.revision);
  }

  lemma {:induction false} WordsPlaced(words: seq<u64>, k: nat)
    requires k < |words|
    ensures NumberAt(WriteWords(words), 8 * k, 8, words[k])
  {
    hide Put64, Number;
    var w := WriteWords(words);
    if k == 0 {
      At64(w, 0, words[0]);
    } else {
      WordsPlaced(words[1..], k - 1);
      assert At(w, 8, WriteWords(words[1..]));
      Inside(w, 8, WriteWords(words[1..]), 8 * (k - 1), 8, words[k]);
    }
  }

  /** Capabilities: id, number of words, the words in order. */
  lemma CapabilitiesLayout(c: ProtocolCapabilitySet, k: nat)
    requires c.IsBounded() && k < |c.words|
    ensures var w := WriteCapabilities(c);
            && |w| == 17 + 8 * |c.words| && At(w, 0, c.protocolId) && w[16] == |c.words|
            && NumberAt(w, 17 + 8 * k, 8, c.words[k])
  {
    hide Number, WriteWords;
    var w := WriteCapabilities(c);
    WordsPlaced(c.words, k);
    assert At(w, 17, WriteWords(c.words));
    Inside(w, 17, WriteWords(c.words), 8 * k, 8, c.words[k]);
  }

  /** A debug identity: a zero byte, or a one and two strings, each after its length. */
  lemma IdentityLayout(i: Option<ProtocolDebugIdentity>)
    requires i.Some? ==> IdentityFits(i.value)
    ensures var w := WriteIdentity(i);
            if i.None? then w == [0]
            else
              var n := |i.value.authority|;
              && w[0] == 1 && NumberAt(w, 1, 2, n) && At(w, 3, i.value.authority)
              && NumberAt(w, 3 + n, 2, |i.value.name|) && w[5 + n..] == i.value.name
  {
    hide Put16, Number;
    if i.Some? {
      var w, n := WriteIdentity(i), |i.value.authority|;
      At16(w, 1, n);
      At16(w, 3 + n, |i.value.name|);
    }
  }

  /** An offer: id, debug identity, version range, schema, capabilities, back to back. */
  lemma OfferLayout(o: ProtocolOffer)
    requires OfferFits(o)
    ensures var w, n := WriteOffer(o), |WriteIdentity(o.debugIdentity)|;
            && At(w, 0, o.stableId) && At(w, 16, WriteIdentity(o.debugIdentity))
            && NumberAt(w, 16 + n, 2, o.versions.minimum.major) && NumberAt(w, 18 + n, 2, o.versions.minimum.minor)
            && NumberAt(w, 20 + n, 2, o.versions.maximum.major) && NumberAt(w, 22 + n, 2, o.versions.maximum.minor)
            && At(w, 24 + n, WriteSchema(o.schema)) && w[76 + n..] == WriteCapabilities(o.capabilities)
  {
    hide WriteIdentity, WriteRange, WriteSchema, WriteCapabilities, Number;
    var w, n := WriteOffer(o), |WriteIdentity(o.debugIdentity)|;
    RangePlaces(o.versions);
    assert At(w, 16 + n, WriteRange(o.versions));
    Inside(w, 16 + n, WriteRange(o.versions), 0, 2, o.versions.minimum.major);
    Inside(w, 16 + n, WriteRange(o.versions), 2, 2, o.versions.minimum.minor);
    Inside(w, 16 + n, WriteRange(o.versions), 4, 2, o.versions.maximum.major);
    Inside(w, 16 + n, WriteRange(o.versions), 6, 2, o.versions.maximum.minor);
  }

  /** A selection: id, version, schema, capabilities, back to back. */
  lemma SelectionLayout(s: ProtocolSelection)
    requires SelectionFits(s)
    ensures var w := WriteSelection(s);
            && At(w, 0, s.stableId) && NumberAt(w, 16, 2, s.version.major) && NumberAt(w, 18, 2, s.version.minor)
            && At(w, 20, WriteSchema(s.schema)) && w[72..] == WriteCapabilities(s.capabilities)
  {
    hide Put16, WriteSchema, WriteCapabilities, Number;
    var w := WriteSelection(s);
    assert At(w, 16, Put16(s.version.major)) && At(w, 18, Put16(s.version.minor));
    At16(w, 16, s.version.major);
    At16(w, 18, s.version.minor);
  }

  /** A list of offers: its length, and then each offer where the ones before it end. */
  lemma OfferListLayout(offers: seq<ProtocolOffer>, derive: Derive, k: nat)
    requires PayloadError(OfferProtocols(offers), derive).None? && k < |offers|
    ensures OffersError(offers, k, derive).None? && OfferFits(offers[k])
    ensures var w := WritePayload(OfferProtocols(offers), derive);
            w[0] == |offers| && At(w, 1 + |WriteOffers(offers, k, derive)|, WriteOffer(offers[k]))
  {
    hide WriteOffer, OfferFits, OffersError, WriteOffers, OffersFrom, At;
    OffersWhole(offers, derive);
    OffersSplit(offers, k, derive);
    OffersFromStep(offers, k);
    OffersErrorPrefix(offers, k, |offers|, derive);
    Placed(|offers|, WriteOffers(offers, k, derive), WriteOffer(offers[k]), OffersFrom(offers, k + 1),
           WriteOffers(offers, |offers|, derive));
  }

  /** A list of selections, likewise. */
  lemma SelectionListLayout(selections: seq<ProtocolSelection>, derive: Derive, k: nat)
    requires PayloadError(SelectProtocols(selections), derive).None? && k < |selections|
    ensures SelectionsError(selections, k).None? && SelectionFits(selections[k])
    ensures var w := WritePayload(SelectProtocols(selections), derive);
            w[0] == |selections| && At(w, 1 + |WriteSelections(selections, k)|, WriteSelection(selections[k]))
  {
    hide WriteSelection, SelectionFits, SelectionsError, WriteSelections, SelectionsFrom, At;
    SelectionsWhole(selections);
    SelectionsSplit(selections, k);
    SelectionsFromStep(selections, k);
    SelectionsErrorPrefix(selections, k, |selections|);
    Placed(|selections|, WriteSelections(selections, k), WriteSelection(selections[k]),
           SelectionsFrom(selections, k + 1), WriteSelections(selections, |selections|));
  }
}
