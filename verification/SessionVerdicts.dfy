/** What a session starts with, what each call is allowed to do, and where its life can lead. */
module SessionVerdicts {
  import opened Base
  import opened Identity
  import opened Capabilities
  import opened SessionSpec
  import SessionRun
  import MuxSpec
  import MuxRun
  import MuxVerdicts
  import Maps = ChannelMapSpec

  /* -------------------------------- Establishing --------------------------------- */

  /** A selected protocol in its selected version. */
  ghost predicate Chosen(protocols: seq<ProtocolSelection>, id: Id16, version: ProtocolVersion) {
    exists k :: 0 <= k < |protocols| && protocols[k].stableId == id && protocols[k].version == version
  }

  lemma AllowedIsChosen(protocols: seq<ProtocolSelection>, id: Id16, version: ProtocolVersion)
    ensures (id, version) in AllowedOf(protocols) <==> Chosen(protocols, id, version)
  {
    if (id, version) in AllowedOf(protocols) {
      var p :| p in protocols && (p.stableId, p.version) == (id, version);
      var k :| 0 <= k < |protocols| && protocols[k] == p;
    }
  }

  /**
    Over every run: control is typed when bit 5 of the capability word is set, channel ids are
    compact when bit 0 is set as well, and channels are restricted to the selected protocols.
   */
  lemma ModesFollowCapabilities(sessionId: Id16, linkCapabilities: u64, protocols: seq<ProtocolSelection>,
                                limits: MuxSpec.MultiplexerLimits, ops: seq<Op>)
    requires MuxSpec.LimitsOk(limits)
    ensures var s := SessionRun.Final(SessionRun.Start(sessionId, linkCapabilities, protocols, limits), ops);
            && (s.typed <==> Bit(linkCapabilities, 5))
            && (s.compact <==> Bit(linkCapabilities, 5) && Bit(linkCapabilities, 0))
            && s.protocols == protocols
            && s.mux.allowedProtocols.Some?
            && forall id: Id16, v :: (id, v) in s.mux.allowedProtocols.value <==> Chosen(protocols, id, v)
  {
    hide MuxSpec.Valid, Maps.Valid, Bit, Contains, AllowedOf, Chosen, InStep, SessionRun.Final;
    var start := SessionRun.Start(sessionId, linkCapabilities, protocols, limits);
    ContainsIsBit(linkCapabilities);
    SessionRun.ModeIsFixed(start, ops);
    forall id: Id16, v
      ensures (id, v) in AllowedOf(protocols) <==> Chosen(protocols, id, v)
    {
      AllowedIsChosen(protocols, id, v);
    }
  }

  /** A session starts established, with nothing open, queued, mapped or used up. */
  lemma StartsEmpty(sessionId: Id16, linkCapabilities: u64, protocols: seq<ProtocolSelection>,
                    limits: MuxSpec.MultiplexerLimits)
    ensures var s := Negotiated(sessionId, linkCapabilities, protocols, limits);
            && s.state == Established && s.closeReason == None
            && s.mux.sessionId == sessionId && s.mux.limits == limits
            && s.mux.channels == map[] && s.mux.retired == {} && s.mux.control == [] && s.mux.totalPending == 0
            && s.mappings.byProtocol == map[] && s.mappings.bySession == map[] && s.mappings.retired == {}
            && s.mappings.maximum == 128
  {
    hide Contains, AllowedOf;
  }

  /* ----------------------------------- Opening ----------------------------------- */

  /** The channel is described as it was validated, and its protocol was selected exactly so. */
  ghost predicate BelongsHere(protocols: seq<ProtocolSelection>, v: ValidatedChannel) {
    && v.config.key.protocolId == v.protocolId && v.config.key.protocolChannelId == v.protocolChannelId
    && v.config.generation == 1
    && v.config.maxFrameBytes == v.maxFrameBytes && v.config.maxStreamBytes == v.maxStreamBytes
    && v.config.discardable == v.discardable
    && ProtocolSelection(v.protocolId, v.config.key.version, v.schema, v.capabilities) in protocols
  }

  lemma MatchesIsBelongs(protocols: seq<ProtocolSelection>, v: ValidatedChannel)
    ensures MatchesSession(protocols, v) <==> BelongsHere(protocols, v)
  {
    var exactly := ProtocolSelection(v.protocolId, v.config.key.version, v.schema, v.capabilities);
    if exactly in protocols {
      assert ProtocolMatches(exactly, v);
    }
  }

  /** Why the map may refuse: a reserved number, either end bound already or used up, no room. */
  ghost function MapComplaint(m: Maps.Map, protocolId: Id16, protocolChannelId: u16, id: u32): Option<Maps.MapError> {
    if protocolChannelId == 0 || id == 0 then Some(Maps.InvalidMapping)
    else if (protocolId, protocolChannelId) in m.byProtocol || id in m.bySession || id in m.retired
    then Some(Maps.DuplicateMapping)
    else if |m.byProtocol| + |m.retired| >= m.maximum then Some(Maps.MappingLimit)
    else None
  }

  /** Why a compact channel is refused: ended, wrong mode, foreign channel, map, multiplexer, in this order. */
  ghost function OpenComplaint(s: Session, v: ValidatedChannel): Option<OpenError> {
    if s.state !in {Established, Draining} then Some(NotActive)
    else if !s.typed then Some(ControlModeMismatch)
    else if !s.compact then Some(DataModeMismatch)
    else if !BelongsHere(s.protocols, v) then Some(NotBoundToSession)
    else
      match MapComplaint(s.mappings, v.protocolId, v.protocolChannelId, v.config.id)
      case Some(error) => Some(MappingRefused(error))
      case None =>
        match MuxVerdicts.OpenComplaint(s.mux, v.config)
        case Some(error) => Some(MultiplexerRefused(error))
        case None => None
  }

  /** The same for a legacy channel, which the map never sees. */
  ghost function LegacyComplaint(s: Session, v: ValidatedChannel): Option<OpenError> {
    if s.state !in {Established, Draining} then Some(NotActive)
    else if s.compact then Some(DataModeMismatch)
    else if !BelongsHere(s.protocols, v) then Some(NotBoundToSession)
    else
      match MuxVerdicts.OpenComplaint(s.mux, v.config)
      case Some(error) => Some(MultiplexerRefused(error))
      case None => None
  }

  ghost predicate Answers(s: Session, op: Op, complaint: Option<OpenError>)
    requires MuxSpec.Valid(s.mux)
  {
    match complaint
    case None => Step(s, op).reply == Done
    case Some(error) => Step(s, op) == Outcome(s, Refused(error), [])
  }

  /** Opening answers with the first complaint and changes nothing, or goes through. */
  lemma OpenVerdict(s: Session, v: ValidatedChannel)
    requires Valid(s)
    ensures Answers(s, OpenValidated(v), OpenComplaint(s, v))
    ensures Answers(s, OpenLegacy(v), LegacyComplaint(s, v))
  {
    hide MuxSpec.Valid, Maps.Valid, InStep, MatchesSession, BelongsHere, MuxSpec.Opened, Maps.Bound;
    MatchesIsBelongs(s.protocols, v);
  }

  /** An opened channel is added under its own configuration, and in compact mode bound to its owner. */
  lemma OpenEffect(s: Session, v: ValidatedChannel, op: Op)
    requires Valid(s) && op in {OpenValidated(v), OpenLegacy(v)} && Step(s, op).reply == Done
    ensures var after := Step(s, op).session;
            && after.state == s.state
            && after.mux.channels.Keys == s.mux.channels.Keys + {v.config.id}
            && after.mux.channels[v.config.id].config == v.config
            && (s.compact ==>
                  after.mappings.bySession
                  == s.mappings.bySession[v.config.id := Maps.Owner(v.protocolId, v.protocolChannelId, 1)])
  {
    hide MuxSpec.Valid, Maps.Valid, InStep, MatchesSession, MuxSpec.OpenError, Maps.BindError;
  }

  /* ---------------------------------- Lifecycle ---------------------------------- */

  predicate Ended(s: Session) { s.state == Closed || s.state == Failed }

  /** Draining begins once, from an established session, and finishes when nothing is pending. */
  lemma DrainVerdict(s: Session)
    requires Valid(s)
    ensures var r := Step(s, BeginDrain);
            if s.state == Established
            then r == Outcome(s.(state := Draining), Done, [StateChanged(Draining)])
            else r == Outcome(s, InvalidState, [])
    ensures var r := Step(s, FinishDrain);
            if s.state == Draining && s.mux.totalPending == 0
            then r == Outcome(s.(state := Closed, closeReason := Some(Graceful)), Done,
                              [StateChanged(Closed), ClosedWith(Graceful)])
            else r == Outcome(s, InvalidState, [])
  {
    hide MuxSpec.Valid, Maps.Valid, InStep;
  }

  /** Ending a live session throws away what is pending, says why, and closes no channel by itself. */
  lemma EndVerdict(s: Session, reason: CloseReason)
    requires Valid(s)
    ensures Ended(s) ==>
              Step(s, Abort) == Outcome(s, Done, []) && Step(s, Fail(reason)) == Outcome(s, Done, [])
    ensures !Ended(s) ==>
              var abort, fail := Step(s, Abort), Step(s, Fail(reason));
              && abort.session.state == Closed && abort.session.closeReason == Some(LocalAbort)
              && abort.events == [StateChanged(Closed), ClosedWith(LocalAbort)]
              && fail.session.state == Failed && fail.session.closeReason == Some(reason)
              && fail.events == [StateChanged(Failed), ClosedWith(reason)]
              && abort.session.mux == fail.session.mux == MuxRun.Step(s.mux, MuxRun.DiscardAll).0
              && abort.session.mappings == fail.session.mappings == s.mappings
  {
    hide MuxSpec.Valid, Maps.Valid, InStep;
  }

  /** The data plane takes frames only while the session is active; it hands them out at any time. */
  lemma DataPlaneVerdict(s: Session, op: MuxRun.Op)
    requires Valid(s) && !op.OpenChannel? && !op.CloseChannel? && !op.DiscardAll?
    ensures var r := Step(s, DataPlane(op));
            if op.NextOutbound? || s.state in {Established, Draining} then
              && r.session == s.(mux := MuxRun.Step(s.mux, op).0) && r.events == []
              && r.reply == Link(MuxRun.Step(s.mux, op).1)
            else r == Outcome(s, Inactive, [])
    ensures Step(s, Update)
         == if s.state in {Established, Draining} then Outcome(s, Done, [Other]) else Outcome(s, Inactive, [])
  {
    hide MuxSpec.Valid, Maps.Valid, InStep;
  }

  /** How far a session has come: established, draining, ended. */
  function Stage(s: Session): nat {
    if Ended(s) then 2 else if s.state == Draining then 1 else 0
  }

  lemma StageStep(s: Session, op: Op)
    requires Valid(s) && s.state in {Established, Draining, Closed, Failed}
    ensures var after := Step(s, op).session;
            && after.state in {Established, Draining, Closed, Failed}
            && Stage(s) <= Stage(after)
            && (Stage(s) == Stage(after) ==> after.state == s.state)
  {
    hide Valid, MuxRun.Step, MuxRun.Close, MuxSpec.Opened, MuxSpec.Emptied, Maps.Bound, Maps.Unbound,
      OpenValidatedError, OpenLegacyError, DataPlaneAllows;
    SessionRun.ReasonGiven(s);
  }

  /** Over every run the stages only advance, and how a session ended never changes. */
  lemma {:induction false} LifeAdvances(s: Session, ops: seq<Op>)
    requires Valid(s) && s.state in {Established, Draining, Closed, Failed}
    ensures var after := SessionRun.Final(s, ops);
            && after.state in {Established, Draining, Closed, Failed}
            && Stage(s) <= Stage(after)
            && (Stage(s) == Stage(after) ==> after.state == s.state)
  {
    hide Valid, Step, Stage;
    if ops != [] {
      LifeAdvances(s, ops[..|ops| - 1]);
      StageStep(SessionRun.Final(s, ops[..|ops| - 1]), ops[|ops| - 1]);
    }
  }
}
