/** The registry as the imperative code runs it (`protocol.rs`). */
module Registry {
  import opened Base
  import opened Identity
  import opened Capabilities
  import opened RegistrySpec
  import HandshakeSpec

  class ProtocolRegistry {
    const limits: Limits
    const derive: Derive
    var descriptors: seq<Descriptor>
    var totalChannels: nat

    ghost function Model(): RegistrySpec.Registry
      reads this
    {
      RegistrySpec.Registry(limits, descriptors, totalChannels)
    }

    ghost predicate Valid()
      reads this
    {
      RegistryOk(Model(), derive)
    }

    constructor (limits: Limits, derive: Derive)
      requires limits.IsValid()
      ensures Valid() && descriptors == [] && this.limits == limits && this.derive == derive
    {
      this.limits, this.derive, descriptors, totalChannels := limits, derive, [], 0;
    }

    static method New(limits: Limits, derive: Derive) returns (r: Result<ProtocolRegistry, RegistryError>)
      ensures r.Ok? <==> && limits.maxProtocols > 0 && limits.maxChannelsPerProtocol > 0
                         && limits.maxTotalChannels > 0 && 1 <= limits.maxProtocolIdBytes <= 128
                         && 1 <= limits.maxChannelNameBytes <= 64
      ensures r.Err? ==> r.error == InvalidLimits
      ensures r.Ok? ==> fresh(r.value) && r.value.Valid() && r.value.descriptors == []
    {
      if !limits.IsValid() {
        return Err(InvalidLimits);
      }
      var registry := new ProtocolRegistry(limits, derive);
      return Ok(registry);
    }

    method Register(d: Descriptor) returns (error: Option<RegistryError>)
      requires Valid()
      modifies this
      ensures Valid() && error == RegisterError(old(Model()), d, derive)
      ensures Model() == if error.Some? then old(Model()) else Registered(old(Model()), d)
    {
      hide RegistryOk, DescriptorError;
      var existing := Find(descriptors, d.stableId);
      if existing.Some? {
        if existing.value.debugIdentity != d.debugIdentity {
          return Some(IdentityConflict);
        }
        if existing.value.schema != d.schema {
          return Some(SchemaConflict);
        }
        return Some(DuplicateProtocol);
      }
      error := ValidateDescriptor(d);
      if error.Some? {
        return;
      }
      if |descriptors| >= limits.maxProtocols || totalChannels + |d.channels| > limits.maxTotalChannels {
        return Some(RegistryLimitExceeded);
      }
      RegisteredOk(Model(), d, derive);
      totalChannels := totalChannels + |d.channels|;
      descriptors := InsertSorted(descriptors, d);
    }

    /** One pass over the channels, remembering the numbers and names already met. */
    method ValidateDescriptor(d: Descriptor) returns (error: Option<RegistryError>)
      ensures error == DescriptorError(limits, d, derive)
    {
      if IdentityInvalid(limits, d, derive) {
        return Some(InvalidProtocolId);
      }
      if !d.versions.IsValid() {
        return Some(InvalidVersionRange);
      }
      if d.schema.revision == 0 {
        return Some(InvalidSchema);
      }
      if d.capabilities.protocolId != d.stableId || !d.capabilities.IsBounded() {
        return Some(InvalidCapabilities);
      }
      if d.channels == [] || |d.channels| > limits.maxChannelsPerProtocol {
        return Some(RegistryLimitExceeded);
      }
      error := ValidateChannels(d.channels);
    }

    method ValidateChannels(channels: seq<ChannelDescriptor>) returns (error: Option<RegistryError>)
      ensures error == ChannelsError(limits, channels, |channels|)
    {
      hide ChannelInvalid;
      var ids: set<u16>, names: set<Bytes> := {}, {};
      var i := 0;
      while i < |channels|
        invariant 0 <= i <= |channels| && ChannelsError(limits, channels, i).None?
        invariant forall id: u16 :: id in ids <==> exists k :: 0 <= k < i && channels[k].id == id
        invariant forall n :: n in names <==> exists k :: 0 <= k < i && channels[k].debugName == Some(n)
      {
        var c := channels[i];
        assert Repeats(channels[..i], c) <==> c.id in ids || (c.debugName.Some? && c.debugName.value in names) by {
          RepeatsSeen(channels[..i], c, ids, names);
        }
        if ChannelInvalid(limits, c) {
          ErrorSticks(limits, channels, i + 1);
          return Some(InvalidChannel);
        }
        if c.id in ids || (c.debugName.Some? && c.debugName.value in names) {
          ErrorSticks(limits, channels, i + 1);
          return Some(DuplicateChannel);
        }
        ids := ids + {c.id};
        if c.debugName.Some? {
          names := names + {c.debugName.value};
        }
        i := i + 1;
      }
      return None;
    }

    method ToFrozen() returns (f: Frozen)
      requires Valid()
      ensures f == Freeze(Model()) && FrozenOk(f, limits, derive)
    {
      f := Frozen(descriptors, limits.maxProtocols);
    }
  }

  lemma RepeatsSeen(earlier: seq<ChannelDescriptor>, c: ChannelDescriptor, ids: set<u16>, names: set<Bytes>)
    requires forall id: u16 :: id in ids <==> exists k :: 0 <= k < |earlier| && earlier[k].id == id
    requires forall n :: n in names <==> exists k :: 0 <= k < |earlier| && earlier[k].debugName == Some(n)
    ensures Repeats(earlier, c) <==> c.id in ids || (c.debugName.Some? && c.debugName.value in names)
  {
    if c.id in ids {
      var k :| 0 <= k < |earlier| && earlier[k].id == c.id;
      assert Clashes(earlier[k], c);
    }
    if c.debugName.Some? && c.debugName.value in names {
      var k :| 0 <= k < |earlier| && earlier[k].debugName == Some(c.debugName.value);
      assert Clashes(earlier[k], c);
    }
    if Repeats(earlier, c) {
      var k :| 0 <= k < |earlier| && Clashes(earlier[k], c);
      if earlier[k].id != c.id {
        assert earlier[k].debugName == Some(c.debugName.value);
      }
    }
  }

  lemma {:induction false} ErrorSticks(limits: Limits, channels: seq<ChannelDescriptor>, n: nat)
    requires n <= |channels| && ChannelsError(limits, channels, n).Some?
    ensures ChannelsError(limits, channels, |channels|) == ChannelsError(limits, channels, n)
    decreases |channels| - n
  {
    if n < |channels| {
      ErrorSticks(limits, channels, n + 1);
    }
  }

  /** The registry's own negotiation: one pass over its descriptors in id order. */
  method Negotiate(f: Frozen, remote: seq<ProtocolOffer>)
    returns (r: Result<seq<ProtocolSelection>, RegistryError>)
    ensures r == FrozenNegotiate(f, remote)
  {
    hide VersionRange.Negotiate, ProtocolCapabilitySet.Intersect, DebugConflict, HandshakeSpec.FirstOffer;
    if |remote| > f.maxRemoteOffers {
      return Err(RegistryLimitExceeded);
    }
    var selections: seq<ProtocolSelection> := [];
    var i := 0;
    while i < |f.descriptors|
      invariant 0 <= i <= |f.descriptors| && NegotiateFirst(f, remote, i) == Ok(selections)
    {
      var d := f.descriptors[i];
      var offer := HandshakeSpec.FirstOffer(remote, d.stableId);
      i := i + 1;
      if offer.Some? {
        if DebugConflict(d.debugIdentity, offer.value.debugIdentity) {
          NegotiationFails(f, remote, i);
          return Err(IdentityConflict);
        }
        if d.schema != offer.value.schema {
          NegotiationFails(f, remote, i);
          return Err(SchemaConflict);
        }
        var version := d.versions.Negotiate(offer.value.versions);
        if version.Some? {
          var capabilities := d.capabilities.Intersect(offer.value.capabilities);
          if capabilities.None? {
            NegotiationFails(f, remote, i);
            return Err(InvalidCapabilities);
          }
          selections := selections + [ProtocolSelection(d.stableId, version.value, d.schema, capabilities.value)];
        }
      }
    }
    return Ok(selections);
  }

  lemma {:induction false} NegotiationFails(f: Frozen, remote: seq<ProtocolOffer>, n: nat)
    requires n <= |f.descriptors| && NegotiateFirst(f, remote, n).Err?
    ensures NegotiateFirst(f, remote, |f.descriptors|) == NegotiateFirst(f, remote, n)
    decreases |f.descriptors| - n
  {
    if n < |f.descriptors| {
      NegotiationFails(f, remote, n + 1);
    }
  }

  method ActivateSelections(f: Frozen, selections: seq<ProtocolSelection>)
    returns (r: Result<map<Id16, ActiveProtocol>, RegistryError>)
    ensures r == Activate(f, selections)
  {
    hide Find, Activated, VersionRange.Negotiate, ProtocolCapabilitySet.IsSubsetOf, ProtocolCapabilitySet.IsBounded;
    if |selections| > |f.descriptors| {
      return Err(RegistryLimitExceeded);
    }
    var active: map<Id16, ActiveProtocol> := map[];
    var i := 0;
    while i < |selections|
      invariant 0 <= i <= |selections| && ActivateFirst(f, selections, i) == Ok(active)
    {
      var s := selections[i];
      var error := ActivateError(f, active, s);
      i := i + 1;
      if error.Some? {
        ActivationFails(f, selections, i);
        return Err(error.value);
      }
      active := active[s.stableId := Activated(Find(f.descriptors, s.stableId).value, s)];
    }
    return Ok(active);
  }

  lemma {:induction false} ActivationFails(f: Frozen, selections: seq<ProtocolSelection>, n: nat)
    requires n <= |selections| && ActivateFirst(f, selections, n).Err?
    ensures ActivateFirst(f, selections, |selections|) == ActivateFirst(f, selections, n)
    decreases |selections| - n
  {
    if n < |selections| {
      ActivationFails(f, selections, n + 1);
    }
  }
}

/** From the registry to an open channel: what activation promises a session. */
module RegistrySession {
  import opened Base
  import opened Capabilities
  import opened RegistrySpec
  import opened SessionSpec
  import MuxSpec
  import Maps = ChannelMapSpec

  /** The channel a request opens, carrying the negotiated protocol and the registered limits. */
  function OpenChannel(active: map<Id16, ActiveProtocol>, r: OpenRequest): Result<ValidatedChannel, RegistryError> {
    if RequestError(active, r).Some? then Err(RequestError(active, r).value)
    else
      var p := active[r.protocolId];
      var c := p.channels[r.protocolChannelId];
      Ok(ValidatedChannel(
        MuxSpec.ChannelConfig(MuxSpec.ChannelKey(p.stableId, p.version, c.id), r.channelId, INITIAL_GENERATION,
                              c.mode, c.priority, r.capacity, c.maxFrameBytes, c.maxStreamBytes, c.discardable),
        p.stableId, c.id, p.schema, p.capabilities, c.maxFrameBytes, c.maxStreamBytes, c.discardable))
  }

  /**
    A request is refused for an inactive protocol, an unknown channel or a capacity out of range, in
    this order; otherwise the channel is the registered one, in the first generation, with the
    requested id and capacity and the negotiated version, schema and capabilities.
   */
  lemma RequestVerdict(active: map<Id16, ActiveProtocol>, r: OpenRequest)
    ensures var answer := OpenChannel(active, r);
            if r.protocolId !in active then answer == Err(ProtocolNotNegotiated)
            else
              var p := active[r.protocolId];
              if r.protocolChannelId !in p.channels then answer == Err(ChannelNotDefined)
              else
                var c := p.channels[r.protocolChannelId];
                if !(1 <= r.capacity <= c.maxInFlightFrames) then answer == Err(ChannelCapacityExceeded)
                else
                  && answer.Ok?
                  && var v := answer.value;
                     && v.protocolId == p.stableId && v.protocolChannelId == c.id
                     && v.schema == p.schema && v.capabilities == p.capabilities
                     && v.config.key == MuxSpec.ChannelKey(p.stableId, p.version, c.id)
                     && v.config.id == r.channelId && v.config.generation == 1 && v.config.capacity == r.capacity
                     && v.config.mode == c.mode && v.config.priorityHint == c.priority
                     && v.maxFrameBytes == v.config.maxFrameBytes == c.maxFrameBytes
                     && v.maxStreamBytes == v.config.maxStreamBytes == c.maxStreamBytes
                     && v.discardable == v.config.discardable == c.discardable
  {
  }

  lemma {:induction false} CollectIs(channels: seq<ChannelDescriptor>, id: u16)
    requires id in Collect(channels)
    ensures Collect(channels)[id].id == id && Collect(channels)[id] in channels
  {
    var n := |channels| - 1;
    if channels[n].id != id {
      CollectIs(channels[..n], id);
    }
  }

  lemma {:induction false} ChannelsValid(limits: Limits, channels: seq<ChannelDescriptor>, n: nat, k: nat)
    requires k < n <= |channels| && ChannelsError(limits, channels, n).None?
    ensures !ChannelInvalid(limits, channels[k])
  {
    if k < n - 1 {
      ChannelsValid(limits, channels, n - 1, k);
    }
  }

  /** A channel found in an active protocol is one its validated descriptor registered. */
  lemma ActiveChannelValid(f: Frozen, limits: Limits, derive: Derive, selections: seq<ProtocolSelection>,
                           active: map<Id16, ActiveProtocol>, r: OpenRequest) returns (s: ProtocolSelection)
    requires FrozenOk(f, limits, derive) && ActiveFor(f, selections, active) && RequestError(active, r).None?
    ensures var p := active[r.protocolId];
            var c := p.channels[r.protocolChannelId];
            && s in selections && s.stableId == r.protocolId
            && p.stableId == s.stableId && p.version == s.version && p.schema == s.schema
            && p.capabilities == s.capabilities
            && c.id == r.protocolChannelId && !ChannelInvalid(limits, c)
  {
    hide DescriptorError, ChannelInvalid, Sorted;
    var k :| 0 <= k < |selections| && selections[k].stableId == r.protocolId;
    s := selections[k];
    var d := Find(f.descriptors, s.stableId).value;
    CollectIs(d.channels, r.protocolChannelId);
    var j :| 0 <= j < |d.channels| && d.channels[j] == Collect(d.channels)[r.protocolChannelId];
    DescriptorChannels(limits, d, derive);
    ChannelsValid(limits, d.channels, |d.channels|, j);
  }

  lemma DescriptorChannels(limits: Limits, d: Descriptor, derive: Derive)
    requires DescriptorError(limits, d, derive).None?
    ensures ChannelsError(limits, d.channels, |d.channels|).None?
  {
  }

  /** Room for one more id that has never been used, in the multiplexer. */
  predicate FreshId(m: MuxSpec.State, id: u32) {
    id != 0 && id !in m.channels && id !in m.retired && |m.channels| + |m.retired| < m.limits.maxChannels
  }

  lemma ValidatedConfigOk(limits: Limits, v: ValidatedChannel, c: ChannelDescriptor, m: MuxSpec.State)
    requires !ChannelInvalid(limits, c) && v.config.capacity > 0 && v.config.generation == INITIAL_GENERATION
    requires v.config.mode == c.mode && v.config.maxFrameBytes == c.maxFrameBytes
    requires v.config.maxStreamBytes == c.maxStreamBytes && v.config.discardable == c.discardable
    requires MuxSpec.ProtocolAllowed(m, v.config.key)
    ensures MuxSpec.OpenError(m, v.config).None? <==> FreshId(m, v.config.id)
  {
  }

  /**
    End to end: in a session whose protocols are what the registry activated, a channel the
    registry hands out always matches the session, and it opens if and only if the session is
    active in compact mode, the id is fresh, the protocol channel is not bound yet and both tables
    have room.
   */
  lemma RegistryChannelOpens(f: Frozen, limits: Limits, derive: Derive, s: Session, r: OpenRequest)
    requires FrozenOk(f, limits, derive) && Acceptable(f, s.protocols) && SessionSpec.Valid(s)
    requires Activate(f, s.protocols).Ok? && OpenChannel(Activate(f, s.protocols).value, r).Ok?
    ensures var v := OpenChannel(Activate(f, s.protocols).value, r).value;
            && MatchesSession(s.protocols, v)
            && (OpenValidatedError(s, v).None? <==>
                  && Active(s) && s.compact && FreshId(s.mux, r.channelId)
                  && (r.protocolId, r.protocolChannelId) !in s.mappings.byProtocol
                  && |s.mappings.byProtocol| + |s.mappings.retired| < s.mappings.maximum)
  {
    hide FrozenOk, Acceptable, ActiveFor, Activate, MuxSpec.Valid, Maps.Valid, MuxSpec.OpenError;
    AcceptableActivates(f, limits, derive, s.protocols);
    var active := Activate(f, s.protocols).value;
    var v := OpenChannel(active, r).value;
    var sel := ActiveChannelValid(f, limits, derive, s.protocols, active, r);
    var c := active[r.protocolId].channels[r.protocolChannelId];
    assert ProtocolMatches(sel, v);
    assert (sel.stableId, sel.version) in AllowedOf(s.protocols);
    NumberedChannel(limits, c);
    ValidatedConfigOk(limits, v, c, s.mux);
    OpensWhenFree(s, v);
  }

  lemma NumberedChannel(limits: Limits, c: ChannelDescriptor)
    requires !ChannelInvalid(limits, c)
    ensures c.id != 0
  {
  }

  lemma OpensWhenFree(s: Session, v: ValidatedChannel)
    requires SessionSpec.Valid(s) && MatchesSession(s.protocols, v) && v.protocolChannelId != 0
    requires MuxSpec.OpenError(s.mux, v.config).None? <==> FreshId(s.mux, v.config.id)
    ensures OpenValidatedError(s, v).None? <==>
              && Active(s) && s.compact && FreshId(s.mux, v.config.id)
              && AcceptedMapping(v).Key() !in s.mappings.byProtocol
              && |s.mappings.byProtocol| + |s.mappings.retired| < s.mappings.maximum
  {
    hide MuxSpec.Valid, Maps.Valid, MuxSpec.OpenError, MatchesSession;
    if s.compact {
      assert v.config.id in s.mappings.bySession <==> v.config.id in s.mux.channels;
    }
  }
}
