/** Whole runs of a session: map and multiplexer in step, ids bound for life, one ending. */
module SessionRun {
  import opened Base
  import opened SessionSpec
  import MuxSpec
  import MuxRun
  import MuxInvariant
  import Maps = ChannelMapSpec
  import Capabilities

  /** The limits check of the multiplexer is the only way establishing can fail here. */
  lemma NegotiatedValid(sessionId: Id16, linkCapabilities: u64, protocols: seq<Capabilities.ProtocolSelection>,
                        limits: MuxSpec.MultiplexerLimits)
    requires MuxSpec.LimitsOk(limits)
    ensures Valid(Negotiated(sessionId, linkCapabilities, protocols, limits))
  {
    hide MuxSpec.Valid;
    MuxInvariant.InitialValid(sessionId, limits, Some(AllowedOf(protocols)));
  }

  /** The session a completed handshake starts with. */
  ghost function Start(sessionId: Id16, linkCapabilities: u64, protocols: seq<Capabilities.ProtocolSelection>,
                       limits: MuxSpec.MultiplexerLimits): (s: Session)
    requires MuxSpec.LimitsOk(limits)
    ensures Valid(s)
  {
    NegotiatedValid(sessionId, linkCapabilities, protocols, limits);
    Negotiated(sessionId, linkCapabilities, protocols, limits)
  }

  /* ---------------------------------- One step -------------------------------------- */

  lemma OpenedKeeps(s: Session, v: ValidatedChannel)
    requires Valid(s) && Active(s) && MatchesSession(s.protocols, v)
    requires MuxSpec.OpenError(s.mux, v.config).None?
    requires s.compact ==> Maps.BindError(s.mappings, AcceptedMapping(v)).None?
    ensures Valid(Opened(s, v))
  {
    hide MuxSpec.Valid, Maps.Valid, Maps.BindError, MuxSpec.OpenError;
    var after := Opened(s, v);
    MuxInvariant.OpenedValid(s.mux, v.config);
    if s.compact {
      Maps.BoundValid(s.mappings, AcceptedMapping(v));
      FreshId(s, v);
      forall id | id in after.mappings.bySession
        ensures SameChannel(after, id)
      {
        if id != v.config.id {
          assert SameChannel(s, id);
        }
      }
    }
  }

  lemma FreshId(s: Session, v: ValidatedChannel)
    requires MuxSpec.OpenError(s.mux, v.config).None?
    ensures v.config.id !in s.mux.channels && v.config.id !in s.mux.retired
  {
  }

  lemma ClosedKeeps(s: Session, id: u32)
    requires Valid(s) && MuxSpec.CloseError(s.mux, id).None?
    ensures MuxSpec.Valid(MuxSpec.Closed(s.mux, id))
    ensures Valid(s.(mux := MuxSpec.Closed(s.mux, id), mappings := Maps.Unbound(s.mappings, id)))
  {
    hide MuxSpec.Valid, Maps.Valid;
    MuxInvariant.ClosedValid(s.mux, id);
    Maps.UnboundValid(s.mappings, id);
    var after := s.(mux := MuxSpec.Closed(s.mux, id), mappings := Maps.Unbound(s.mappings, id));
    if s.compact {
      forall other | other in after.mappings.bySession
        ensures SameChannel(after, other)
      {
        assert SameChannel(s, other);
      }
    }
  }

  lemma DataPlaneKeeps(s: Session, op: MuxRun.Op)
    requires Valid(s) && DataPlaneAllows(s, op)
    ensures Valid(s.(mux := MuxRun.Step(s.mux, op).0))
    ensures Terminal(s) ==> !MuxRun.Step(s.mux, op).1.Outbound?
  {
    hide MuxSpec.Valid, Maps.Valid, InStep;
    DataPlaneSameTable(s.mux, op);
    SameTableInStep(s, MuxRun.Step(s.mux, op).0);
    if Terminal(s) {
      NothingPending(s.mux);
    }
  }

  lemma EmptiedKeeps(s: Session, reason: CloseReason, state: SessionState)
    requires Valid(s) && (state == Closed || state == Failed)
    ensures Valid(Shut(s.(mux := MuxSpec.Emptied(s.mux)), reason, state).0)
  {
    hide MuxSpec.Valid, Maps.Valid, InStep;
    MuxInvariant.EmptiedValid(s.mux);
    SameTableInStep(s, MuxSpec.Emptied(s.mux));
    ShutInStep(s.(mux := MuxSpec.Emptied(s.mux)), reason, state);
  }

  lemma ShutInStep(s: Session, reason: CloseReason, state: SessionState)
    requires InStep(s)
    ensures InStep(Shut(s, reason, state).0)
  {
    var after := Shut(s, reason, state).0;
    if s.compact {
      forall id | id in after.mappings.bySession
        ensures SameChannel(after, id)
      {
        assert SameChannel(s, id);
      }
    }
  }

  lemma StateInStep(s: Session, state: SessionState)
    requires InStep(s)
    ensures InStep(s.(state := state))
  {
    var after := s.(state := state);
    if s.compact {
      forall id | id in after.mappings.bySession
        ensures SameChannel(after, id)
      {
        assert SameChannel(s, id);
      }
    }
  }

  lemma StepKeepsValid(s: Session, op: Op)
    requires Valid(s)
    ensures Valid(Step(s, op).session)
  {
    hide MuxSpec.Valid, Maps.Valid, InStep, MuxRun.Step, Opened, MatchesSession, MuxSpec.Closed, Maps.Unbound,
      MuxSpec.OpenError, Maps.BindError;
    match op {
      case OpenValidated(v) =>
        if OpenValidatedError(s, v).None? {
          OpenedKeeps(s, v);
        }
      case OpenLegacy(v) =>
        if OpenLegacyError(s, v).None? {
          OpenedKeeps(s, v);
        }
      case CloseChannel(id) =>
        if MuxSpec.CloseError(s.mux, id).None? {
          ClosedKeeps(s, id);
        }
      case DataPlane(op) =>
        if DataPlaneAllows(s, op) {
          DataPlaneKeeps(s, op);
        }
      case Update =>
      case BeginDrain => StateInStep(s, Draining);
      case FinishDrain => ShutInStep(s, Graceful, Closed);
      case Abort => EmptiedKeeps(s, LocalAbort, Closed);
      case Fail(reason) => EmptiedKeeps(s, reason, Failed);
    }
  }

  /* ----------------------------------- Runs ----------------------------------------- */

  ghost function Final(s: Session, ops: seq<Op>): (r: Session)
    requires Valid(s)
    ensures Valid(r)
  {
    if ops == [] then s
    else
      StepKeepsValid(Final(s, ops[..|ops| - 1]), ops[|ops| - 1]);
      Step(Final(s, ops[..|ops| - 1]), ops[|ops| - 1]).session
  }

  /**
    In every state a session can reach, compact mode keeps exactly the open channels in the map,
    under their own protocol channel and generation, with the same retired ids and two mutually
    inverse indexes; legacy mode keeps the map empty.
   */
  lemma MapAndMultiplexerAgree(sessionId: Id16, linkCapabilities: u64, protocols: seq<Capabilities.ProtocolSelection>,
                               limits: MuxSpec.MultiplexerLimits, ops: seq<Op>)
    requires MuxSpec.LimitsOk(limits)
    ensures var s := Final(Start(sessionId, linkCapabilities, protocols, limits), ops);
            if s.compact then
              && (forall id :: id in s.mappings.bySession <==> id in s.mux.channels)
              && (forall id :: id in s.mux.channels ==>
                    var c := s.mux.channels[id].config;
                    && s.mappings.bySession[id] == Maps.Owner(c.key.protocolId, c.key.protocolChannelId, c.generation)
                    && (c.key.protocolId, c.key.protocolChannelId) in s.mappings.byProtocol
                    && s.mappings.byProtocol[(c.key.protocolId, c.key.protocolChannelId)]
                       == Maps.Binding(id, c.generation))
              && s.mappings.retired == s.mux.retired
            else s.mappings == Maps.EMPTY
  {
    hide MuxSpec.Valid, Step;
    var s := Final(Start(sessionId, linkCapabilities, protocols, limits), ops);
    if s.compact {
      forall id | id in s.mux.channels
        ensures SameChannel(s, id)
      {
        assert id in s.mappings.bySession;
      }
    }
  }

  /** A channel id's life: unused, then bound to one owner, then retired. */
  lemma ChannelStep(s: Session, op: Op, id: u32)
    requires Valid(s)
    ensures var after := Step(s, op).session;
            && (id in s.mux.retired ==> id in after.mux.retired)
            && (id in s.mux.channels ==>
                  id in after.mux.retired
                  || (id in after.mux.channels && after.mux.channels[id].config == s.mux.channels[id].config))
  {
    hide MuxSpec.Valid, Maps.Valid, InStep, MuxRun.Step, MatchesSession, Maps.Unbound, Maps.Bound, MuxSpec.OpenError,
      Maps.BindError;
    if op.OpenValidated? && OpenValidatedError(s, op.channel).None? {
      FreshId(s, op.channel);
    } else if op.OpenLegacy? && OpenLegacyError(s, op.channel).None? {
      FreshId(s, op.channel);
    } else if op.DataPlane? && DataPlaneAllows(s, op.op) {
      DataPlaneSameTable(s.mux, op.op);
    }
  }

  lemma {:induction false} ChannelLife(s: Session, ops: seq<Op>, id: u32)
    requires Valid(s)
    ensures var after := Final(s, ops);
            && (id in s.mux.retired ==> id in after.mux.retired)
            && (id in s.mux.channels ==>
                  id in after.mux.retired
                  || (id in after.mux.channels && after.mux.channels[id].config == s.mux.channels[id].config))
  {
    hide Step, Valid;
    if ops != [] {
      var n := |ops| - 1;
      ChannelLife(s, ops[..n], id);
      ChannelStep(Final(s, ops[..n]), ops[n], id);
    }
  }

  lemma Disjoint(s: Session)
    requires Valid(s)
    ensures s.mux.channels.Keys !! s.mux.retired && s.mappings.bySession.Keys !! s.mappings.retired
  {
  }

  /**
    No silent rebinding: whatever happens in between, a session channel id that is bound at two
    moments is bound to the same protocol channel, and once closed it is never bound again.
   */
  lemma BindingForLife(s: Session, ops: seq<Op>, id: u32)
    requires Valid(s) && s.compact && Final(s, ops).compact
    ensures id in s.mappings.retired ==> id !in Final(s, ops).mappings.bySession
    ensures id in s.mappings.bySession && id in Final(s, ops).mappings.bySession ==>
              Final(s, ops).mappings.bySession[id] == s.mappings.bySession[id]
  {
    hide Step, Final, MuxSpec.Valid, Maps.Valid;
    ChannelLife(s, ops, id);
    Disjoint(s);
    Disjoint(Final(s, ops));
    if id in s.mappings.bySession && id in Final(s, ops).mappings.bySession {
      assert SameChannel(s, id) && SameChannel(Final(s, ops), id);
    }
  }

  lemma StepMode(s: Session, op: Op)
    requires Valid(s)
    ensures var after := Step(s, op).session;
            after.compact == s.compact && after.typed == s.typed && after.protocols == s.protocols
  {
    hide MuxSpec.Valid, Maps.Valid, InStep, MuxRun.Step, MuxRun.Close, MuxSpec.Opened, Maps.Bound, MuxSpec.Emptied,
      OpenValidatedError, OpenLegacyError, DataPlaneAllows, Maps.Unbound;
  }

  /** The mode and protocols a session was established with never change. */
  lemma {:induction false} ModeIsFixed(s: Session, ops: seq<Op>)
    requires Valid(s)
    ensures Final(s, ops).compact == s.compact && Final(s, ops).typed == s.typed
    ensures Final(s, ops).protocols == s.protocols
  {
    hide Valid, Step;
    if ops != [] {
      ModeIsFixed(s, ops[..|ops| - 1]);
      StepMode(Final(s, ops[..|ops| - 1]), ops[|ops| - 1]);
    }
  }

  /* --------------------------------- Lifecycle --------------------------------------- */

  /** Everything published over the run, in order. */
  ghost function Published(s: Session, ops: seq<Op>): seq<SessionEvent>
    requires Valid(s)
  {
    if ops == [] then []
    else
      Published(s, ops[..|ops| - 1]) + Step(Final(s, ops[..|ops| - 1]), ops[|ops| - 1]).events
  }

  function Endings(events: seq<SessionEvent>): nat {
    if events == [] then 0
    else Endings(events[..|events| - 1]) + (if events[|events| - 1].ClosedWith? then 1 else 0)
  }

  lemma {:induction false} EndingsAppend(a: seq<SessionEvent>, b: seq<SessionEvent>)
    ensures Endings(a + b) == Endings(a) + Endings(b)
  {
    if b == [] {
      assert a + b == a;
    } else {
      assert (a + b)[..|a + b| - 1] == a + b[..|b| - 1];
      EndingsAppend(a, b[..|b| - 1]);
    }
  }

  lemma StepEnds(s: Session, op: Op)
    requires Valid(s)
    ensures var r := Step(s, op);
            && (Terminal(s) ==> Terminal(r.session) && r.session.closeReason == s.closeReason)
            && Endings(r.events) == (if Terminal(r.session) && !Terminal(s) then 1 else 0)
            && (Terminal(s) ==> r.events == [] && (r.reply.Link? ==> !r.reply.reply.Outbound?))
  {
    hide Valid, MuxSpec.Valid, MuxRun.Step, MuxRun.Close, MuxSpec.Opened, Maps.Bound, MuxSpec.Emptied, MatchesSession,
      Maps.Unbound, MuxSpec.OpenError, Maps.BindError;
    if Terminal(s) && op.DataPlane? && DataPlaneAllows(s, op.op) {
      DataPlaneKeeps(s, op.op);
    }
    ReasonGiven(s);
    if op.CloseChannel? {
      CloseSendsNothing(s.mux, op.id);
    }
    var events := Step(s, op).events;
    if |events| == 2 {
      assert Endings(events[..1]) == 0 by { assert events[..1][..0] == []; }
    } else if |events| == 1 {
      assert events[..0] == [];
    }
  }

  lemma ReasonGiven(s: Session)
    requires Valid(s)
    ensures Terminal(s) <==> s.closeReason.Some?
    ensures MuxSpec.Valid(s.mux)
  {
  }

  lemma CloseSendsNothing(m: MuxSpec.State, id: u32)
    requires MuxSpec.Valid(m)
    ensures !MuxRun.Close(m, id).1.Outbound?
  {
  }

  /** A session ends at most once, and a subscriber is told exactly when it has ended. */
  lemma {:induction false} EndsOnce(s: Session, ops: seq<Op>)
    requires Valid(s) && !Terminal(s)
    ensures Endings(Published(s, ops)) == if Terminal(Final(s, ops)) then 1 else 0
  {
    hide MuxSpec.Valid, Maps.Valid, InStep, Step, Terminal;
    if ops != [] {
      var n := |ops| - 1;
      EndsOnce(s, ops[..n]);
      StepEnds(Final(s, ops[..n]), ops[n]);
      EndingsAppend(Published(s, ops[..n]), Step(Final(s, ops[..n]), ops[n]).events);
    }
  }

  ghost predicate SendsFrame(s: Session, op: Op)
    requires Valid(s)
  {
    var reply := Step(s, op).reply;
    reply.Link? && reply.reply.Outbound?
  }

  lemma EndStep(s: Session, op: Op)
    requires Valid(s) && Terminal(s)
    ensures Terminal(Step(s, op).session) && Step(s, op).session.closeReason == s.closeReason
    ensures Step(s, op).events == [] && !SendsFrame(s, op)
  {
    hide MuxSpec.Valid, Maps.Valid, InStep, Step, Terminal;
    StepEnds(s, op);
  }

  /** After the end nothing is pending, nothing is published and no frame is handed out, whatever is called. */
  lemma {:induction false} EndIsSilent(s: Session, ops: seq<Op>)
    requires Valid(s) && Terminal(s)
    ensures Terminal(Final(s, ops)) && Final(s, ops).closeReason == s.closeReason
    ensures Published(s, ops) == [] && Final(s, ops).mux.totalPending == 0
    ensures forall n :: 0 <= n < |ops| ==> !SendsFrame(Final(s, ops[..n]), ops[n])
  {
    hide Valid, Step, SendsFrame, Terminal;
    NothingLeft(Final(s, ops));
    if ops != [] {
      var n := |ops| - 1;
      EndIsSilent(s, ops[..n]);
      EndStep(Final(s, ops[..n]), ops[n]);
      forall k | 0 <= k < n
        ensures !SendsFrame(Final(s, ops[..k]), ops[k])
      {
        assert ops[..n][..k] == ops[..k];
      }
    }
  }

  lemma NothingLeft(s: Session)
    requires Valid(s)
    ensures Terminal(s) ==> s.mux.totalPending == 0
  {
  }

  lemma GracefulStep(s: Session, op: Op)
    requires Valid(s) && !Terminal(s) && Step(s, op).session.closeReason == Some(Graceful) && op != Fail(Graceful)
    ensures op == FinishDrain && s.state == Draining && s.mux.totalPending == 0
    ensures Step(s, op).events == [StateChanged(Closed), ClosedWith(Graceful)]
  {
    hide Valid, MuxRun.Step, MuxRun.Close;
    ReasonGiven(s);
  }

  /**
    A graceful end means everything queued was taken first: in any run that ends with that reason,
    unless a caller failed the session with it, draining was finished at a moment when nothing was
    pending, and the ending it announced is the last thing published.
   */
  lemma {:induction false} GracefulMeansDrained(s: Session, ops: seq<Op>) returns (n: nat)
    requires Valid(s) && !Terminal(s) && Final(s, ops).closeReason == Some(Graceful)
    requires Fail(Graceful) !in ops
    ensures n < |ops| && ops[n] == FinishDrain
    ensures Final(s, ops[..n]).state == Draining && Final(s, ops[..n]).mux.totalPending == 0
    ensures Published(s, ops) == Published(s, ops[..n]) + [StateChanged(Closed), ClosedWith(Graceful)]
    decreases |ops|
  {
    hide Valid, Step;
    ReasonGiven(s);
    n := |ops| - 1;
    var before := Final(s, ops[..n]);
    if Terminal(before) {
      hide Terminal;
      StepEnds(before, ops[n]);
      var m := GracefulMeansDrained(s, ops[..n]);
      assert ops[..n][..m] == ops[..m];
      n := m;
    } else {
      GracefulStep(before, ops[n]);
    }
  }
}
