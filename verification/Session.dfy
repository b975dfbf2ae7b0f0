/** The session as the imperative code keeps it (`session.rs`). */
module Sessions {
  import opened Base
  import opened Capabilities
  import opened SessionSpec
  import EventBus
  import EventBusSpec
  import Maps = ChannelMapSpec
  import ChannelMap
  import Mux
  import MuxSpec
  import MuxRun
  import SessionRun

  /** The bus after the events, offered one by one. */
  function PublishedAll(b: EventBusSpec.Bus<SessionEvent>, events: seq<SessionEvent>): EventBusSpec.Bus<SessionEvent> {
    if events == [] then b
    else EventBusSpec.Published(PublishedAll(b, events[..|events| - 1]), events[|events| - 1])
  }

  class LiveSession {
    var state: SessionState
    const protocols: seq<ProtocolSelection>
    const typed: bool
    const compact: bool
    var closeReason: Option<CloseReason>
    const events: EventBus.SessionEventBus<SessionEvent>
    const multiplexer: Mux.Multiplexer
    const mappings: ChannelMap.SessionChannelMap

    ghost function Repr(): set<object>
    {
      {this, events, multiplexer, mappings}
    }

    ghost function Model(): Session
      reads Repr()
    {
      Session(state, protocols, typed, compact, closeReason, multiplexer.Model(), mappings.Model())
    }

    ghost predicate Valid()
      reads Repr()
    {
      SessionSpec.Valid(Model()) && multiplexer.Valid() && mappings.Valid()
    }

    /** What one call must do: the state and the events of the corresponding step. */
    twostate predicate Stepped(op: Op)
      reads Repr()
      requires old(Valid())
    {
      && Valid()
      && Model() == SessionSpec.Step(old(Model()), op).session
      && events.Model() == PublishedAll(old(events.Model()), SessionSpec.Step(old(Model()), op).events)
    }

    constructor (protocols: seq<ProtocolSelection>, typed: bool, compact: bool,
                 events: EventBus.SessionEventBus<SessionEvent>, multiplexer: Mux.Multiplexer,
                 mappings: ChannelMap.SessionChannelMap)
      ensures state == Established && closeReason == None
      ensures this.protocols == protocols && this.typed == typed && this.compact == compact
      ensures this.events == events && this.multiplexer == multiplexer && this.mappings == mappings
    {
      state, closeReason := Established, None;
      this.protocols, this.typed, this.compact := protocols, typed, compact;
      this.events, this.multiplexer, this.mappings := events, multiplexer, mappings;
    }

    static method FromHandshake(sessionId: Id16, linkCapabilities: u64, protocols: seq<ProtocolSelection>,
                                limits: MuxSpec.MultiplexerLimits, maxEventSubscribers: nat)
      returns (r: Option<LiveSession>)
      ensures r.Some? <==> MuxSpec.LimitsOk(limits) && maxEventSubscribers > 0
      ensures r.Some? ==>
                && fresh(r.value.Repr()) && r.value.Valid()
                && r.value.Model() == Negotiated(sessionId, linkCapabilities, protocols, limits)
                && r.value.events.Model() == EventBusSpec.Bus(maxEventSubscribers, 1, map[])
    {
      hide SessionSpec.Valid, MuxSpec.Valid, Maps.Valid, Contains, AllowedOf, MuxSpec.Initial;
      var typed := Contains(linkCapabilities, TYPED_CONTROL);
      var compact := typed && Contains(linkCapabilities, COMPACT_CHANNEL_ID);
      var bus := EventBus.SessionEventBus<SessionEvent>.New(maxEventSubscribers);
      if bus.Err? {
        return None;
      }
      var mux := Mux.Multiplexer.New(sessionId, limits, Some(AllowedOf(protocols)));
      if mux.Err? {
        return None;
      }
      var mappings := ChannelMap.SessionChannelMap.New(Maps.MAX_SESSION_CHANNEL_MAPPINGS);
      SessionRun.NegotiatedValid(sessionId, linkCapabilities, protocols, limits);
      var session := new LiveSession(protocols, typed, compact, bus.value, mux.value, mappings.value);
      return Some(session);
    }

    method OpenValidatedChannel(v: ValidatedChannel) returns (error: Option<OpenError>)
      requires Valid()
      modifies Repr()
      ensures Stepped(OpenValidated(v))
      ensures error == OpenValidatedError(old(Model()), v)
    {
      hide SessionSpec.Valid, MuxSpec.Valid, Maps.Valid, MatchesSession, MuxSpec.OpenError, MuxSpec.Opened,
        Maps.BindError, Maps.Bound;
      SessionRun.StepKeepsValid(Model(), OpenValidated(v));
      if state != Established && state != Draining {
        return Some(NotActive);
      }
      if !typed {
        return Some(ControlModeMismatch);
      }
      if !compact {
        return Some(DataModeMismatch);
      }
      if !MatchesSession(protocols, v) {
        return Some(NotBoundToSession);
      }
      var refused := mappings.ValidateBind(AcceptedMapping(v));
      if refused.Some? {
        return Some(MappingRefused(refused.value));
      }
      var failed := multiplexer.OpenChannel(v.config);
      if failed.Some? {
        return Some(MultiplexerRefused(failed.value));
      }
      var _ := mappings.BindValidated(AcceptedMapping(v));
      return None;
    }

    method OpenLegacyValidatedChannel(v: ValidatedChannel) returns (error: Option<OpenError>)
      requires Valid()
      modifies Repr()
      ensures Stepped(OpenLegacy(v))
      ensures error == OpenLegacyError(old(Model()), v)
    {
      hide SessionSpec.Valid, MuxSpec.Valid, Maps.Valid, MatchesSession, MuxSpec.OpenError, MuxSpec.Opened;
      SessionRun.StepKeepsValid(Model(), OpenLegacy(v));
      if state != Established && state != Draining {
        return Some(NotActive);
      }
      if compact {
        return Some(DataModeMismatch);
      }
      if !MatchesSession(protocols, v) {
        return Some(NotBoundToSession);
      }
      var failed := multiplexer.OpenChannel(v.config);
      return if failed.Some? then Some(MultiplexerRefused(failed.value)) else None;
    }

    method CloseChannel(id: u32) returns (r: Result<nat, MuxSpec.LinkError>)
      requires Valid()
      modifies Repr()
      ensures Stepped(Op.CloseChannel(id))
      ensures r == match MuxRun.Close(old(multiplexer.Model()), id).1
                   case Discarded(n) => Ok(n)
                   case Failed(error) => Err(error)
                   case _ => r
    {
      hide SessionSpec.Valid, MuxSpec.Valid, Maps.Valid, MuxRun.Close, Maps.Unbound;
      SessionRun.StepKeepsValid(Model(), Op.CloseChannel(id));
      FailedCloseChangesNothing(multiplexer.Model(), id);
      r := multiplexer.CloseChannel(id);
      if r.Ok? {
        var _ := mappings.Unbind(id);
      }
    }

    method UpdateInfo() returns (ok: bool)
      requires Valid()
      modifies Repr()
      ensures Stepped(Update) && ok == Active(old(Model()))
    {
      hide SessionSpec.Valid, MuxSpec.Valid, Maps.Valid;
      SessionRun.StepKeepsValid(Model(), Update);
      ok := state == Established || state == Draining;
      if ok {
        OnePublished(events.Model(), Other);
        events.Publish(Other);
      }
    }

    method BeginDrain() returns (ok: bool)
      requires Valid()
      modifies Repr()
      ensures Stepped(Op.BeginDrain) && ok == (old(state) == Established)
    {
      hide SessionSpec.Valid, MuxSpec.Valid, Maps.Valid;
      SessionRun.StepKeepsValid(Model(), Op.BeginDrain);
      if state != Established {
        return false;
      }
      state := Draining;
      OnePublished(events.Model(), StateChanged(Draining));
      events.Publish(StateChanged(Draining));
      return true;
    }

    method FinishDrain() returns (ok: bool)
      requires Valid()
      modifies Repr()
      ensures Stepped(Op.FinishDrain)
      ensures ok == (old(state) == Draining && old(multiplexer.totalPending) == 0)
    {
      hide SessionSpec.Valid, MuxSpec.Valid, Maps.Valid;
      SessionRun.StepKeepsValid(Model(), Op.FinishDrain);
      if state != Draining || multiplexer.totalPending != 0 {
        return false;
      }
      Close(Graceful, Closed);
      return true;
    }

    method Abort()
      requires Valid()
      modifies Repr()
      ensures Stepped(Op.Abort)
    {
      hide SessionSpec.Valid, MuxSpec.Valid, Maps.Valid, MuxSpec.Emptied;
      SessionRun.StepKeepsValid(Model(), Op.Abort);
      if state == Closed || state == Failed {
        return;
      }
      var _ := multiplexer.DiscardAll();
      Close(LocalAbort, Closed);
    }

    method FailWith(reason: CloseReason)
      requires Valid()
      modifies Repr()
      ensures Stepped(Fail(reason))
    {
      hide SessionSpec.Valid, MuxSpec.Valid, Maps.Valid, MuxSpec.Emptied;
      SessionRun.StepKeepsValid(Model(), Fail(reason));
      if state == Closed || state == Failed {
        return;
      }
      var _ := multiplexer.DiscardAll();
      Close(reason, Failed);
    }

    method Close(reason: CloseReason, ending: SessionState)
      modifies this, events
      ensures state == ending && closeReason == Some(reason)
      ensures events.Model() == PublishedAll(old(events.Model()), [StateChanged(ending), ClosedWith(reason)])
    {
      TwoPublished(events.Model(), StateChanged(ending), ClosedWith(reason));
      state := ending;
      closeReason := Some(reason);
      events.Publish(StateChanged(ending));
      events.Publish(ClosedWith(reason));
    }

    /* ---------------------------------- Data plane ---------------------------------- */

    method Enqueue(envelope: MuxSpec.Envelope) returns (reply: Reply)
      requires Valid()
      modifies Repr()
      ensures Stepped(DataPlane(MuxRun.Enqueue(envelope)))
      ensures reply == SessionSpec.Step(old(Model()), DataPlane(MuxRun.Enqueue(envelope))).reply
    {
      hide SessionSpec.Valid, MuxSpec.Valid, Maps.Valid, MuxRun.Send;
      SessionRun.StepKeepsValid(Model(), DataPlane(MuxRun.Enqueue(envelope)));
      if state != Established && state != Draining {
        return Inactive;
      }
      var error := multiplexer.Enqueue(envelope);
      return Link(if error.Some? then MuxRun.Failed(error.value) else MuxRun.Done);
    }

    method EnqueueDiscardable(envelope: MuxSpec.Envelope) returns (reply: Reply)
      requires Valid()
      modifies Repr()
      ensures Stepped(DataPlane(MuxRun.EnqueueDiscardable(envelope)))
      ensures reply == SessionSpec.Step(old(Model()), DataPlane(MuxRun.EnqueueDiscardable(envelope))).reply
    {
      hide SessionSpec.Valid, MuxSpec.Valid, Maps.Valid, MuxRun.SendDiscardable;
      SessionRun.StepKeepsValid(Model(), DataPlane(MuxRun.EnqueueDiscardable(envelope)));
      if state != Established && state != Draining {
        return Inactive;
      }
      var r := multiplexer.EnqueueDiscardable(envelope);
      return Link(if r.Ok? then MuxRun.Admission(r.value) else MuxRun.Failed(r.error));
    }

    method EnqueueControl(payload: Bytes) returns (reply: Reply)
      requires Valid()
      modifies Repr()
      ensures Stepped(DataPlane(MuxRun.EnqueueControl(payload)))
      ensures reply == SessionSpec.Step(old(Model()), DataPlane(MuxRun.EnqueueControl(payload))).reply
    {
      hide SessionSpec.Valid, MuxSpec.Valid, Maps.Valid, MuxRun.SendControl;
      SessionRun.StepKeepsValid(Model(), DataPlane(MuxRun.EnqueueControl(payload)));
      if state != Established && state != Draining {
        return Inactive;
      }
      var error := multiplexer.EnqueueControl(payload);
      return Link(if error.Some? then MuxRun.Failed(error.value) else MuxRun.Done);
    }

    /** Taking frames is allowed in every state; after the end there are none. */
    method NextOutbound() returns (frame: Option<MuxSpec.OutboundFrame>)
      requires Valid()
      modifies Repr()
      ensures Stepped(DataPlane(MuxRun.NextOutbound))
      ensures SessionSpec.Step(old(Model()), DataPlane(MuxRun.NextOutbound)).reply
           == Link(if frame.Some? then MuxRun.Outbound(frame.value) else MuxRun.Nothing)
    {
      hide SessionSpec.Valid, MuxSpec.Valid, Maps.Valid, MuxRun.Next;
      SessionRun.StepKeepsValid(Model(), DataPlane(MuxRun.NextOutbound));
      frame := multiplexer.NextOutbound();
    }

    method CancelChannel(id: u32) returns (reply: Reply)
      requires Valid()
      modifies Repr()
      ensures Stepped(DataPlane(MuxRun.CancelChannel(id)))
      ensures reply == SessionSpec.Step(old(Model()), DataPlane(MuxRun.CancelChannel(id))).reply
    {
      hide SessionSpec.Valid, MuxSpec.Valid, Maps.Valid, MuxRun.Cancel;
      SessionRun.StepKeepsValid(Model(), DataPlane(MuxRun.CancelChannel(id)));
      if state != Established && state != Draining {
        return Inactive;
      }
      var r := multiplexer.CancelChannel(id);
      return Link(if r.Ok? then MuxRun.Discarded(r.value) else MuxRun.Failed(r.error));
    }
  }

  lemma FailedCloseChangesNothing(m: MuxSpec.State, id: u32)
    requires MuxSpec.Valid(m)
    ensures !MuxRun.Close(m, id).1.Discarded? ==> MuxRun.Close(m, id).0 == m
  {
  }

  lemma OnePublished(b: EventBusSpec.Bus<SessionEvent>, e: SessionEvent)
    ensures PublishedAll(b, [e]) == EventBusSpec.Published(b, e)
  {
    assert [e][..0] == [];
  }

  lemma TwoPublished(b: EventBusSpec.Bus<SessionEvent>, e: SessionEvent, e': SessionEvent)
    ensures PublishedAll(b, [e, e']) == EventBusSpec.Published(EventBusSpec.Published(b, e), e')
  {
    assert [e, e'][..1] == [e];
    OnePublished(b, e);
  }
}
