/**
  A session as a value (`session.rs`): its lifecycle, the multiplexer it owns and the channel map
  it keeps beside it.
 */
module SessionSpec {
  import opened Base
  import opened Identity
  import opened Capabilities
  import Sums
  import MuxSpec
  import MuxRun
  import Maps = ChannelMapSpec

  datatype SessionState = Connecting | Handshaking | Established | Draining | Closed | Failed

  datatype CloseReason =
    | Graceful | LocalAbort | RemoteClosed | Timeout | AuthenticationFailed | ProtocolViolation | TransportFailure

  datatype SessionEvent = StateChanged(state: SessionState) | ClosedWith(reason: CloseReason) | Other

  /** A channel the registry has checked. */
  datatype ValidatedChannel = ValidatedChannel(
    config: MuxSpec.ChannelConfig, protocolId: Id16, protocolChannelId: u16, schema: SchemaRef,
    capabilities: ProtocolCapabilitySet, maxFrameBytes: u64, maxStreamBytes: Option<u64>, discardable: bool)

  function AcceptedMapping(v: ValidatedChannel): Maps.Accepted {
    Maps.Accepted(v.protocolId, v.protocolChannelId, v.config.id)
  }

  datatype Session = Session(
    state: SessionState, protocols: seq<ProtocolSelection>, typed: bool, compact: bool,
    closeReason: Option<CloseReason>, mux: MuxSpec.State, mappings: Maps.Map)

  datatype OpenError =
    | NotActive | ControlModeMismatch | DataModeMismatch | NotBoundToSession
    | MappingRefused(mapping: Maps.MapError) | MultiplexerRefused(link: MuxSpec.LinkError)

  predicate Active(s: Session) { s.state == Established || s.state == Draining }

  predicate Terminal(s: Session) { s.state == Closed || s.state == Failed }

  /** A negotiated session, with the modes its capabilities select. */
  function AllowedOf(protocols: seq<ProtocolSelection>): set<(Id16, ProtocolVersion)> {
    set p | p in protocols :: (p.stableId, p.version)
  }

  function Negotiated(sessionId: Id16, linkCapabilities: u64, protocols: seq<ProtocolSelection>,
                      limits: MuxSpec.MultiplexerLimits): Session
  {
    var typed := Contains(linkCapabilities, TYPED_CONTROL);
    Session(Established, protocols, typed, typed && Contains(linkCapabilities, COMPACT_CHANNEL_ID), None,
            MuxSpec.Initial(sessionId, limits, Some(AllowedOf(protocols))), Maps.EMPTY)
  }

  predicate ProtocolMatches(p: ProtocolSelection, v: ValidatedChannel) {
    && p.stableId == v.protocolId && p.version == v.config.key.version
    && p.schema == v.schema && p.capabilities == v.capabilities
  }

  predicate MatchesSession(protocols: seq<ProtocolSelection>, v: ValidatedChannel) {
    && v.config.key.protocolId == v.protocolId
    && v.config.key.protocolChannelId == v.protocolChannelId
    && v.config.generation == INITIAL_GENERATION
    && v.config.maxFrameBytes == v.maxFrameBytes
    && v.config.maxStreamBytes == v.maxStreamBytes
    && v.config.discardable == v.discardable
    && exists p :: p in protocols && ProtocolMatches(p, v)
  }

  /* ---------------------------------- Operations ----------------------------------- */

  function OpenValidatedError(s: Session, v: ValidatedChannel): Option<OpenError> {
    if !Active(s) then Some(NotActive)
    else if !s.typed then Some(ControlModeMismatch)
    else if !s.compact then Some(DataModeMismatch)
    else if !MatchesSession(s.protocols, v) then Some(NotBoundToSession)
    else if Maps.BindError(s.mappings, AcceptedMapping(v)).Some? then
      Some(MappingRefused(Maps.BindError(s.mappings, AcceptedMapping(v)).value))
    else if MuxSpec.OpenError(s.mux, v.config).Some? then
      Some(MultiplexerRefused(MuxSpec.OpenError(s.mux, v.config).value))
    else None
  }

  function OpenLegacyError(s: Session, v: ValidatedChannel): Option<OpenError> {
    if !Active(s) then Some(NotActive)
    else if s.compact then Some(DataModeMismatch)
    else if !MatchesSession(s.protocols, v) then Some(NotBoundToSession)
    else if MuxSpec.OpenError(s.mux, v.config).Some? then
      Some(MultiplexerRefused(MuxSpec.OpenError(s.mux, v.config).value))
    else None
  }

  function Opened(s: Session, v: ValidatedChannel): Session {
    s.(mux := MuxSpec.Opened(s.mux, v.config),
       mappings := if s.compact then Maps.Bound(s.mappings, AcceptedMapping(v)) else s.mappings)
  }

  datatype Op =
    | OpenValidated(channel: ValidatedChannel)
    | OpenLegacy(channel: ValidatedChannel)
    | CloseChannel(id: u32)
    | DataPlane(op: MuxRun.Op)
    | Update
    | BeginDrain
    | FinishDrain
    | Abort
    | Fail(reason: CloseReason)

  datatype Reply =
    | Done
    | Refused(error: OpenError)
    | InvalidState
    | Inactive
    | Link(reply: MuxRun.Reply)

  datatype Outcome = Outcome(session: Session, reply: Reply, events: seq<SessionEvent>)

  /** The data plane of a session: everything but taking frames needs an active session. */
  predicate DataPlaneAllows(s: Session, op: MuxRun.Op) {
    match op
    case OpenChannel(_) => false
    case CloseChannel(_) => false
    case DiscardAll => false
    case NextOutbound => true
    case _ => Active(s)
  }

  function Shut(s: Session, reason: CloseReason, state: SessionState): (Session, seq<SessionEvent>) {
    (s.(state := state, closeReason := Some(reason)), [StateChanged(state), ClosedWith(reason)])
  }

  ghost function Step(s: Session, op: Op): Outcome
    requires MuxSpec.Valid(s.mux)
  {
    match op
    case OpenValidated(v) =>
      if OpenValidatedError(s, v).Some? then Outcome(s, Refused(OpenValidatedError(s, v).value), [])
      else Outcome(Opened(s, v), Done, [])
    case OpenLegacy(v) =>
      if OpenLegacyError(s, v).Some? then Outcome(s, Refused(OpenLegacyError(s, v).value), [])
      else Outcome(Opened(s, v), Done, [])
    case CloseChannel(id) =>
      var (mux, reply) := MuxRun.Close(s.mux, id);
      Outcome(if reply.Discarded? then s.(mux := mux, mappings := Maps.Unbound(s.mappings, id)) else s, Link(reply), [])
    case DataPlane(op) =>
      if !DataPlaneAllows(s, op) then Outcome(s, Inactive, [])
      else
        var (mux, reply) := MuxRun.Step(s.mux, op);
        Outcome(s.(mux := mux), Link(reply), [])
    case Update =>
      if Active(s) then Outcome(s, Done, [Other]) else Outcome(s, Inactive, [])
    case BeginDrain =>
      if s.state != Established then Outcome(s, InvalidState, [])
      else Outcome(s.(state := Draining), Done, [StateChanged(Draining)])
    case FinishDrain =>
      if s.state != Draining || s.mux.totalPending != 0 then Outcome(s, InvalidState, [])
      else
        var (shut, events) := Shut(s, Graceful, Closed);
        Outcome(shut, Done, events)
    case Abort =>
      if Terminal(s) then Outcome(s, Done, [])
      else
        var (shut, events) := Shut(s.(mux := MuxSpec.Emptied(s.mux)), LocalAbort, Closed);
        Outcome(shut, Done, events)
    case Fail(reason) =>
      if Terminal(s) then Outcome(s, Done, [])
      else
        var (shut, events) := Shut(s.(mux := MuxSpec.Emptied(s.mux)), reason, Failed);
        Outcome(shut, Done, events)
  }

  /* ----------------------------------- Invariant ------------------------------------ */

  /** Compact mode: the map and the multiplexer describe the same channels. */
  ghost predicate InStep(s: Session) {
    if s.compact then
      && s.mappings.bySession.Keys == s.mux.channels.Keys
      && s.mappings.retired == s.mux.retired
      && forall id :: id in s.mappings.bySession ==> SameChannel(s, id)
    else s.mappings == Maps.EMPTY
  }

  ghost predicate SameChannel(s: Session, id: u32) {
    && id in s.mappings.bySession && id in s.mux.channels
    && var c := s.mux.channels[id].config;
       s.mappings.bySession[id] == Maps.Owner(c.key.protocolId, c.key.protocolChannelId, c.generation)
  }

  ghost predicate Valid(s: Session) {
    && MuxSpec.Valid(s.mux) && Maps.Valid(s.mappings) && InStep(s) && (s.compact ==> s.typed)
    && (Terminal(s) <==> s.closeReason.Some?)
    && (Terminal(s) ==> s.mux.totalPending == 0)
    && s.mux.allowedProtocols == Some(AllowedOf(s.protocols))
  }

  /** The multiplexer operations of the data plane open, close and retire nothing. */
  ghost predicate SameTable(a: MuxSpec.State, b: MuxSpec.State) {
    && a.channels.Keys == b.channels.Keys && a.retired == b.retired && a.allowedProtocols == b.allowedProtocols
    && forall id :: id in a.channels ==> a.channels[id].config == b.channels[id].config
  }

  lemma DataPlaneSameTable(m: MuxSpec.State, op: MuxRun.Op)
    requires MuxSpec.Valid(m) && !op.OpenChannel? && !op.CloseChannel?
    ensures SameTable(m, MuxRun.Step(m, op).0)
  {
    hide MuxSpec.Valid;
    ReadyOpen(m);
  }

  lemma ReadyOpen(m: MuxSpec.State)
    requires MuxSpec.Valid(m)
    ensures forall id :: id in m.ready ==> id in m.channels && m.channels[id].queue != []
  {
  }

  lemma SameTableInStep(s: Session, mux: MuxSpec.State)
    requires Valid(s) && SameTable(s.mux, mux)
    ensures InStep(s.(mux := mux))
  {
    var after := s.(mux := mux);
    if s.compact {
      forall id | id in after.mappings.bySession
        ensures SameChannel(after, id)
      {
        assert SameChannel(s, id);
      }
    }
  }

  lemma NothingPending(m: MuxSpec.State)
    requires MuxSpec.Valid(m) && m.totalPending == 0
    ensures m.control == [] && m.ready == []
  {
    ReadyOpen(m);
    if m.ready != [] {
      Sums.SumRemove(MuxSpec.QueueLens(m.channels), m.ready[0]);
    }
  }
}
