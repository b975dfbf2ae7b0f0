/** The protocol registry as values: registration, freezing, negotiation, activation (`protocol.rs`). */
module RegistrySpec {
  import opened Base
  import opened Identity
  import opened Capabilities
  import opened HandshakeSpec
  import MuxSpec

  datatype ChannelDescriptor = ChannelDescriptor(
    id: u16, debugName: Option<Bytes>, mode: MuxSpec.ChannelMode, priority: byte, maxFrameBytes: u64,
    maxStreamBytes: Option<u64>, maxInFlightFrames: u64, discardable: bool)

  datatype Descriptor = Descriptor(
    stableId: Id16, debugIdentity: Option<ProtocolDebugIdentity>, versions: VersionRange, schema: SchemaRef,
    capabilities: ProtocolCapabilitySet, channels: seq<ChannelDescriptor>)

  datatype Limits = Limits(
    maxProtocols: nat, maxChannelsPerProtocol: nat, maxTotalChannels: nat, maxProtocolIdBytes: nat,
    maxChannelNameBytes: nat)
  {
    predicate IsValid() {
      && maxProtocols > 0 && maxChannelsPerProtocol > 0 && maxTotalChannels > 0
      && 0 < maxProtocolIdBytes <= 128 && 0 < maxChannelNameBytes <= 64
    }
  }

  datatype RegistryError =
    | InvalidLimits | InvalidProtocolId | InvalidVersionRange | InvalidSchema | InvalidCapabilities | InvalidChannel
    | DuplicateProtocol | DuplicateChannel | IdentityConflict | SchemaConflict | RegistryLimitExceeded
    | UnknownProtocol | ProtocolNotNegotiated | VersionNotSupported | ChannelNotDefined | ChannelCapacityExceeded

  /* ------------------------------- Sorted descriptors ------------------------------- */

  /** Byte strings in lexicographic order, as keys of an ordered map. */
  predicate Less(a: Bytes, b: Bytes) {
    if b == [] then false
    else if a == [] then true
    else a[0] < b[0] || (a[0] == b[0] && Less(a[1..], b[1..]))
  }

  lemma {:induction false} LessIsOrder(a: Bytes, b: Bytes, c: Bytes)
    ensures !Less(a, a)
    ensures Less(a, b) || Less(b, a) || a == b
    ensures Less(a, b) && Less(b, c) ==> Less(a, c)
  {
    if a != [] && b != [] {
      LessIsOrder(a[1..], b[1..], if c == [] then [] else c[1..]);
      assert a == [a[0]] + a[1..] && b == [b[0]] + b[1..];
    } else if a != [] {
      LessIsOrder(a[1..], [], []);
    }
  }

  /** An ordered map keyed by stable id, as the sequence its iteration yields. */
  predicate Sorted(ds: seq<Descriptor>) {
    forall i, j :: 0 <= i < j < |ds| ==> Less(ds[i].stableId, ds[j].stableId)
  }

  function Find(ds: seq<Descriptor>, id: Id16): (d: Option<Descriptor>)
    ensures d.Some? ==> d.value in ds && d.value.stableId == id
    ensures d.None? ==> forall k :: 0 <= k < |ds| ==> ds[k].stableId != id
  {
    if ds == [] then None else if ds[0].stableId == id then Some(ds[0]) else Find(ds[1..], id)
  }

  function InsertSorted(ds: seq<Descriptor>, d: Descriptor): (r: seq<Descriptor>)
    ensures |r| == |ds| + 1
    ensures forall x :: x in r <==> x in ds || x == d
  {
    if ds == [] || Less(d.stableId, ds[0].stableId) then [d] + ds
    else [ds[0]] + InsertSorted(ds[1..], d)
  }

  lemma {:induction false} InsertKeepsSorted(ds: seq<Descriptor>, d: Descriptor)
    requires Sorted(ds) && Find(ds, d.stableId).None?
    ensures Sorted(InsertSorted(ds, d))
  {
    if ds != [] {
      var rest := ds[1..];
      assert forall k :: 0 <= k < |rest| ==> rest[k] == ds[k + 1];
      LessIsOrder(d.stableId, ds[0].stableId, []);
      if Less(d.stableId, ds[0].stableId) {
        forall k | 0 <= k < |ds|
          ensures Less(d.stableId, ds[k].stableId)
        {
          LessIsOrder(d.stableId, ds[0].stableId, ds[k].stableId);
        }
      } else {
        InsertKeepsSorted(rest, d);
        forall x | x in InsertSorted(rest, d)
          ensures Less(ds[0].stableId, x.stableId)
        {
          if x in rest {
            var k :| 0 <= k < |rest| && rest[k] == x;
            assert ds[k + 1] == x;
          }
        }
      }
    }
  }

  lemma SortedDistinct(ds: seq<Descriptor>, i: nat, j: nat)
    requires Sorted(ds) && i < |ds| && j < |ds| && ds[i].stableId == ds[j].stableId
    ensures i == j
  {
    LessIsOrder(ds[i].stableId, [], []);
  }

  lemma {:induction false} FindIs(ds: seq<Descriptor>, d: Descriptor)
    requires Sorted(ds) && d in ds
    ensures Find(ds, d.stableId) == Some(d)
  {
    var i :| 0 <= i < |ds| && ds[i] == d;
    var found := Find(ds, d.stableId);
    var j :| 0 <= j < |ds| && ds[j] == found.value;
    SortedDistinct(ds, i, j);
  }

  /* ---------------------------------- Validation ------------------------------------ */

  predicate ChannelInvalid(limits: Limits, c: ChannelDescriptor) {
    || c.id == 0
    || (c.debugName.Some? && (|c.debugName.value| > limits.maxChannelNameBytes || !Component(c.debugName.value)))
    || c.maxFrameBytes == 0 || c.maxInFlightFrames == 0 || c.maxStreamBytes == Some(0)
    || ((c.mode == MuxSpec.Stream) != c.maxStreamBytes.Some?)
    || (c.mode != MuxSpec.Event && c.discardable)
  }

  /** The channel repeats a number or a name seen among the earlier ones. */
  predicate Repeats(earlier: seq<ChannelDescriptor>, c: ChannelDescriptor) {
    exists k :: 0 <= k < |earlier| && Clashes(earlier[k], c)
  }

  predicate Clashes(a: ChannelDescriptor, b: ChannelDescriptor) {
    a.id == b.id || (a.debugName.Some? && a.debugName == b.debugName)
  }

  /** The first complaint the validation loop makes about the first `n` channels. */
  function ChannelsError(limits: Limits, channels: seq<ChannelDescriptor>, n: nat): Option<RegistryError>
    requires n <= |channels|
  {
    if n == 0 then None
    else
      var before := ChannelsError(limits, channels, n - 1);
      if before.Some? then before
      else if ChannelInvalid(limits, channels[n - 1]) then Some(InvalidChannel)
      else if Repeats(channels[..n - 1], channels[n - 1]) then Some(DuplicateChannel)
      else None
  }

  predicate IdentityInvalid(limits: Limits, d: Descriptor, derive: Derive) {
    d.debugIdentity.Some? &&
    (|| !Canonical(d.debugIdentity.value)
     || |d.debugIdentity.value.authority| + |d.debugIdentity.value.name| > limits.maxProtocolIdBytes
     || derive(d.debugIdentity.value.authority, d.debugIdentity.value.name) != d.stableId)
  }

  function DescriptorError(limits: Limits, d: Descriptor, derive: Derive): Option<RegistryError> {
    if IdentityInvalid(limits, d, derive) then Some(InvalidProtocolId)
    else if !d.versions.IsValid() then Some(InvalidVersionRange)
    else if d.schema.revision == 0 then Some(InvalidSchema)
    else if d.capabilities.protocolId != d.stableId || !d.capabilities.IsBounded() then Some(InvalidCapabilities)
    else if d.channels == [] || |d.channels| > limits.maxChannelsPerProtocol then Some(RegistryLimitExceeded)
    else ChannelsError(limits, d.channels, |d.channels|)
  }

  /* --------------------------------- Registration ----------------------------------- */

  datatype Registry = Registry(limits: Limits, descriptors: seq<Descriptor>, totalChannels: nat)

  function RegisterError(r: Registry, d: Descriptor, derive: Derive): Option<RegistryError> {
    var existing := Find(r.descriptors, d.stableId);
    if existing.Some? then
      if existing.value.debugIdentity != d.debugIdentity then Some(IdentityConflict)
      else if existing.value.schema != d.schema then Some(SchemaConflict)
      else Some(DuplicateProtocol)
    else if DescriptorError(r.limits, d, derive).Some? then DescriptorError(r.limits, d, derive)
    else if |r.descriptors| >= r.limits.maxProtocols || r.totalChannels + |d.channels| > r.limits.maxTotalChannels then
      Some(RegistryLimitExceeded)
    else None
  }

  function Registered(r: Registry, d: Descriptor): Registry {
    r.(descriptors := InsertSorted(r.descriptors, d), totalChannels := r.totalChannels + |d.channels|)
  }

  function ChannelTotal(ds: seq<Descriptor>): nat {
    if ds == [] then 0 else |ds[0].channels| + ChannelTotal(ds[1..])
  }

  ghost predicate DescriptorsOk(limits: Limits, ds: seq<Descriptor>, derive: Derive) {
    Sorted(ds) && forall d :: d in ds ==> DescriptorError(limits, d, derive).None?
  }

  ghost predicate RegistryOk(r: Registry, derive: Derive) {
    && r.limits.IsValid() && DescriptorsOk(r.limits, r.descriptors, derive)
    && |r.descriptors| <= r.limits.maxProtocols
    && r.totalChannels == ChannelTotal(r.descriptors) <= r.limits.maxTotalChannels
  }

  lemma {:induction false} InsertTotal(ds: seq<Descriptor>, d: Descriptor)
    ensures ChannelTotal(InsertSorted(ds, d)) == ChannelTotal(ds) + |d.channels|
  {
    if ds == [] || Less(d.stableId, ds[0].stableId) {
      assert ([d] + ds)[1..] == ds;
    } else {
      InsertTotal(ds[1..], d);
      assert InsertSorted(ds, d)[1..] == InsertSorted(ds[1..], d);
    }
  }

  /** Registration admits only valid, new descriptors and never exceeds a limit. */
  lemma RegisteredOk(r: Registry, d: Descriptor, derive: Derive)
    requires RegistryOk(r, derive) && RegisterError(r, d, derive).None?
    ensures RegistryOk(Registered(r, d), derive)
  {
    hide DescriptorError;
    InsertKeepsSorted(r.descriptors, d);
    InsertTotal(r.descriptors, d);
  }

  /* ------------------------------------ Frozen --------------------------------------- */

  datatype Frozen = Frozen(descriptors: seq<Descriptor>, maxRemoteOffers: nat)

  function Freeze(r: Registry): Frozen { Frozen(r.descriptors, r.limits.maxProtocols) }

  ghost predicate FrozenOk(f: Frozen, limits: Limits, derive: Derive) {
    DescriptorsOk(limits, f.descriptors, derive)
  }

  function OfferOf(d: Descriptor): ProtocolOffer {
    ProtocolOffer(d.stableId, d.debugIdentity, d.versions, d.schema, d.capabilities)
  }

  function Offers(f: Frozen): (offers: seq<ProtocolOffer>)
    ensures |offers| == |f.descriptors|
  {
    seq(|f.descriptors|, k requires 0 <= k < |f.descriptors| => OfferOf(f.descriptors[k]))
  }

  /** The outcome of the negotiation loop after the first `n` descriptors. */
  function NegotiateFirst(f: Frozen, remote: seq<ProtocolOffer>, n: nat): Result<seq<ProtocolSelection>, RegistryError>
    requires n <= |f.descriptors|
  {
    if n == 0 then Ok([])
    else
      var before := NegotiateFirst(f, remote, n - 1);
      var d := f.descriptors[n - 1];
      var offer := FirstOffer(remote, d.stableId);
      if before.Err? || offer.None? then before
      else if DebugConflict(d.debugIdentity, offer.value.debugIdentity) then Err(IdentityConflict)
      else if d.schema != offer.value.schema then Err(SchemaConflict)
      else
        var version := d.versions.Negotiate(offer.value.versions);
        var capabilities := d.capabilities.Intersect(offer.value.capabilities);
        if version.None? then before
        else if capabilities.None? then Err(InvalidCapabilities)
        else Ok(before.value + [ProtocolSelection(d.stableId, version.value, d.schema, capabilities.value)])
  }

  function FrozenNegotiate(f: Frozen, remote: seq<ProtocolOffer>): Result<seq<ProtocolSelection>, RegistryError> {
    if |remote| > f.maxRemoteOffers then Err(RegistryLimitExceeded)
    else NegotiateFirst(f, remote, |f.descriptors|)
  }

  datatype ActiveProtocol = ActiveProtocol(
    stableId: Id16, debugIdentity: Option<ProtocolDebugIdentity>, version: ProtocolVersion, schema: SchemaRef,
    capabilities: ProtocolCapabilitySet, channels: map<u16, ChannelDescriptor>)

  function Collect(channels: seq<ChannelDescriptor>): map<u16, ChannelDescriptor> {
    if channels == [] then map[]
    else
      var last := channels[|channels| - 1];
      Collect(channels[..|channels| - 1])[last.id := last]
  }

  function Activated(d: Descriptor, s: ProtocolSelection): ActiveProtocol {
    ActiveProtocol(s.stableId, d.debugIdentity, s.version, s.schema, s.capabilities, Collect(d.channels))
  }

  function ActivateError(f: Frozen, active: map<Id16, ActiveProtocol>, s: ProtocolSelection): Option<RegistryError> {
    if s.stableId in active then Some(DuplicateProtocol)
    else
      var d := Find(f.descriptors, s.stableId);
      if d.None? then Some(UnknownProtocol)
      else if d.value.schema != s.schema then Some(SchemaConflict)
      else if || s.capabilities.protocolId != s.stableId || !s.capabilities.IsBounded()
              || !s.capabilities.IsSubsetOf(d.value.capabilities)
      then Some(InvalidCapabilities)
      else if d.value.versions.Negotiate(Exactly(s.version)).None? then Some(VersionNotSupported)
      else None
  }

  function ActivateFirst(f: Frozen, selections: seq<ProtocolSelection>, n: nat):
    Result<map<Id16, ActiveProtocol>, RegistryError>
    requires n <= |selections|
  {
    if n == 0 then Ok(map[])
    else
      var before := ActivateFirst(f, selections, n - 1);
      var s := selections[n - 1];
      if before.Err? then before
      else if ActivateError(f, before.value, s).Some? then Err(ActivateError(f, before.value, s).value)
      else Ok(before.value[s.stableId := Activated(Find(f.descriptors, s.stableId).value, s)])
  }

  function Activate(f: Frozen, selections: seq<ProtocolSelection>): Result<map<Id16, ActiveProtocol>, RegistryError> {
    if |selections| > |f.descriptors| then Err(RegistryLimitExceeded)
    else ActivateFirst(f, selections, |selections|)
  }

  /* ------------------------------- Opening a channel --------------------------------- */

  datatype OpenRequest = OpenRequest(protocolId: Id16, protocolChannelId: u16, channelId: u32, capacity: u64)

  function RequestError(active: map<Id16, ActiveProtocol>, r: OpenRequest): Option<RegistryError> {
    if r.protocolId !in active then Some(ProtocolNotNegotiated)
    else if r.protocolChannelId !in active[r.protocolId].channels then Some(ChannelNotDefined)
    else if r.capacity == 0 || r.capacity > active[r.protocolId].channels[r.protocolChannelId].maxInFlightFrames then
      Some(ChannelCapacityExceeded)
    else None
  }

  /* ---------------------------------- Agreement -------------------------------------- */

  lemma NoEarlierOffer(f: Frozen, n: nat)
    requires Sorted(f.descriptors) && n < |f.descriptors|
    ensures FirstOffer(Offers(f)[..n], f.descriptors[n].stableId).None?
  {
    var offers := Offers(f)[..n];
    var found := FirstOffer(offers, f.descriptors[n].stableId);
    if found.Some? {
      var j :| 0 <= j < |offers| && offers[j] == found.value;
      SortedDistinct(f.descriptors, j, n);
    }
  }

  lemma OfferKeepsId(offers: seq<ProtocolOffer>, id: Id16)
    ensures FirstOffer(offers, id).Some? ==> FirstOffer(offers, id).value.stableId == id
  {
  }

  lemma {:induction false} NegotiatorsAgreeUpTo(f: Frozen, remote: seq<ProtocolOffer>, n: nat)
    requires Sorted(f.descriptors) && n <= |f.descriptors|
    ensures var a, b := NegotiateFirst(f, remote, n), NegotiateUpTo(Offers(f), remote, n);
            a.Ok? == b.Some? && (a.Ok? ==> a.value == b.value)
  {
    hide VersionRange.Negotiate, ProtocolCapabilitySet.Intersect, DebugConflict, FirstOffer;
    if n > 0 {
      NegotiatorsAgreeUpTo(f, remote, n - 1);
      NoEarlierOffer(f, n - 1);
      OfferKeepsId(remote, f.descriptors[n - 1].stableId);
    }
  }

  /**
    The registry's own negotiation and the handshake's negotiation over the registry's offers give
    the same selections in the same order, and fail on the same remote lists.
   */
  lemma NegotiatorsAgree(f: Frozen, remote: seq<ProtocolOffer>)
    requires Sorted(f.descriptors) && |remote| <= f.maxRemoteOffers
    ensures var a, b := FrozenNegotiate(f, remote), NegotiateProtocols(Offers(f), remote);
            a.Ok? == b.Some? && (a.Ok? ==> a.value == b.value)
  {
    NegotiatorsAgreeUpTo(f, remote, |f.descriptors|);
  }

  /* --------------------------------- Activation -------------------------------------- */

  /** No protocol twice, and each within something the registry offers. */
  predicate Acceptable(f: Frozen, selections: seq<ProtocolSelection>) {
    DistinctIds(selections) && forall k :: 0 <= k < |selections| ==> Supported(Offers(f), selections[k])
  }

  lemma JoinIsWithinMine(mine: ProtocolOffer, theirs: ProtocolOffer)
    requires mine.stableId == theirs.stableId && Joinable(mine, theirs) && mine.capabilities.IsBounded()
    ensures SelectionMatches(mine, Join(mine, theirs))
  {
    NegotiateIsGreatestShared(mine.versions, theirs.versions);
    ExactlyAdmits(mine.versions, mine.versions.Negotiate(theirs.versions).value);
    IntersectGrantsNothingNew(mine.capabilities, theirs.capabilities);
  }

  lemma OfferIsDescriptor(f: Frozen, o: ProtocolOffer)
    requires o in Offers(f)
    ensures exists d :: d in f.descriptors && OfferOf(d) == o
  {
    var k :| 0 <= k < |Offers(f)| && Offers(f)[k] == o;
    assert f.descriptors[k] in f.descriptors;
  }

  lemma NegotiatedAcceptable(f: Frozen, limits: Limits, derive: Derive, remote: seq<ProtocolOffer>)
    requires FrozenOk(f, limits, derive) && NegotiateProtocols(Offers(f), remote).Some?
    ensures Acceptable(f, NegotiateProtocols(Offers(f), remote).value)
  {
    hide DescriptorError, SelectionMatches, Joinable, Join, NegotiateProtocols;
    var offers := Offers(f);
    NegotiationMeaning(offers, remote);
    var selections := NegotiateProtocols(offers, remote).value;
    forall k | 0 <= k < |selections|
      ensures Supported(offers, selections[k])
    {
      var s := selections[k];
      assert s in selections && Shared(offers, remote, s.stableId);
      var mine := FirstOffer(offers, s.stableId).value;
      OfferIsDescriptor(f, mine);
      var d :| d in f.descriptors && OfferOf(d) == mine;
      ValidCapabilities(limits, d, derive);
      JoinIsWithinMine(mine, FirstOffer(remote, s.stableId).value);
      JoinKeepsId(mine, FirstOffer(remote, s.stableId).value);
    }
  }

  lemma JoinKeepsId(a: ProtocolOffer, b: ProtocolOffer)
    requires Joinable(a, b)
    ensures Join(a, b).stableId == a.stableId
  {
  }

  lemma ValidCapabilities(limits: Limits, d: Descriptor, derive: Derive)
    requires DescriptorError(limits, d, derive).None?
    ensures d.capabilities.protocolId == d.stableId && d.capabilities.IsBounded()
  {
  }

  lemma ValidatedAcceptable(f: Frozen, m: Machine, selections: seq<ProtocolSelection>)
    requires SelectionError(m, selections).None? && LocalOffers(m.config.policy, m.authPath.value) == Offers(f)
    ensures Acceptable(f, selections)
  {
    forall k | 0 <= k < |selections|
      ensures Supported(Offers(f), selections[k])
    {
      assert selections[k] in selections;
    }
  }

  lemma SupportedFinds(f: Frozen, limits: Limits, derive: Derive, active: map<Id16, ActiveProtocol>,
                       s: ProtocolSelection)
    requires FrozenOk(f, limits, derive) && Supported(Offers(f), s) && s.stableId !in active
    ensures ActivateError(f, active, s).None?
    ensures Find(f.descriptors, s.stableId).Some?
  {
    hide DescriptorError;
    var o :| o in Offers(f) && SelectionMatches(o, s);
    OfferIsDescriptor(f, o);
    var d :| d in f.descriptors && OfferOf(d) == o;
    FindIs(f.descriptors, d);
    ValidCapabilities(limits, d, derive);
  }

  /** What activation yields: one active protocol per selection, carrying that selection. */
  ghost predicate ActiveFor(f: Frozen, selections: seq<ProtocolSelection>, active: map<Id16, ActiveProtocol>) {
    && (forall k :: 0 <= k < |selections| ==>
          var s := selections[k];
          && s.stableId in active && Find(f.descriptors, s.stableId).Some?
          && active[s.stableId] == Activated(Find(f.descriptors, s.stableId).value, s))
    && forall id :: id in active ==> exists k :: 0 <= k < |selections| && selections[k].stableId == id
  }

  lemma ActiveExtends(f: Frozen, shorter: seq<ProtocolSelection>, s: ProtocolSelection,
                      before: map<Id16, ActiveProtocol>)
    requires ActiveFor(f, shorter, before) && Find(f.descriptors, s.stableId).Some?
    requires s.stableId !in before
    ensures ActiveFor(f, shorter + [s], before[s.stableId := Activated(Find(f.descriptors, s.stableId).value, s)])
  {
    hide Find, Activated;
    var longer := shorter + [s];
    var after := before[s.stableId := Activated(Find(f.descriptors, s.stableId).value, s)];
    forall id | id in after
      ensures exists k :: 0 <= k < |longer| && longer[k].stableId == id
    {
      if id == s.stableId {
        assert longer[|shorter|].stableId == id;
      } else {
        var k :| 0 <= k < |shorter| && shorter[k].stableId == id;
        assert longer[k].stableId == id;
      }
    }
    forall k | 0 <= k < |longer|
      ensures longer[k].stableId in after && Find(f.descriptors, longer[k].stableId).Some?
      ensures after[longer[k].stableId] == Activated(Find(f.descriptors, longer[k].stableId).value, longer[k])
    {
      if k < |shorter| {
        assert longer[k] == shorter[k] && shorter[k].stableId in before;
      }
    }
  }

  lemma NotYetActive(f: Frozen, selections: seq<ProtocolSelection>, n: nat, active: map<Id16, ActiveProtocol>)
    requires DistinctIds(selections) && n < |selections| && ActiveFor(f, selections[..n], active)
    ensures selections[n].stableId !in active
  {
    hide Find, Activated;
    forall k | 0 <= k < n
      ensures selections[..n][k].stableId != selections[n].stableId
    {
    }
  }

  lemma {:induction false} ActivatesUpTo(f: Frozen, limits: Limits, derive: Derive, selections: seq<ProtocolSelection>,
                                         n: nat)
    requires FrozenOk(f, limits, derive) && Acceptable(f, selections) && n <= |selections|
    ensures ActivateFirst(f, selections, n).Ok?
    ensures ActiveFor(f, selections[..n], ActivateFirst(f, selections, n).value)
  {
    hide FrozenOk, ActivateError, Activated, Supported, ActiveFor, Find;
    if n > 0 {
      ActivatesUpTo(f, limits, derive, selections, n - 1);
      var before := ActivateFirst(f, selections, n - 1).value;
      var s := selections[n - 1];
      assert selections[..n] == selections[..n - 1] + [s];
      NotYetActive(f, selections, n - 1, before);
      SupportedFinds(f, limits, derive, before, s);
      ActiveExtends(f, selections[..n - 1], s, before);
    } else {
      NothingActive(f, selections[..0]);
    }
  }

  lemma NothingActive(f: Frozen, selections: seq<ProtocolSelection>)
    requires selections == []
    ensures ActiveFor(f, selections, map[])
  {
  }

  function DescriptorIds(f: Frozen): seq<Id16> {
    seq(|f.descriptors|, k requires 0 <= k < |f.descriptors| => f.descriptors[k].stableId)
  }

  lemma AcceptableFits(f: Frozen, selections: seq<ProtocolSelection>)
    requires Acceptable(f, selections)
    ensures |selections| <= |f.descriptors|
  {
    var a, b := Ids(selections), DescriptorIds(f);
    forall id | id in a
      ensures id in b
    {
      var k :| 0 <= k < |a| && a[k] == id;
      var o :| o in Offers(f) && SelectionMatches(o, selections[k]);
      var j :| 0 <= j < |Offers(f)| && Offers(f)[j] == o;
      assert b[j] == id;
    }
    DistinctFits(a, b);
  }

  /** Acceptable selections always activate, and each protocol is active as selected. */
  lemma AcceptableActivates(f: Frozen, limits: Limits, derive: Derive, selections: seq<ProtocolSelection>)
    requires FrozenOk(f, limits, derive) && Acceptable(f, selections)
    ensures Activate(f, selections).Ok? && ActiveFor(f, selections, Activate(f, selections).value)
  {
    hide FrozenOk, Acceptable, ActiveFor;
    AcceptableFits(f, selections);
    ActivatesUpTo(f, limits, derive, selections, |selections|);
    assert selections[..|selections|] == selections;
  }

  /**
    Every way a session can come by its selections ends in activation: the registry's own
    negotiation, the handshake negotiation over its offers, and acceptance of a peer's selection.
   */
  lemma NegotiatedActivates(f: Frozen, limits: Limits, derive: Derive, remote: seq<ProtocolOffer>)
    requires FrozenOk(f, limits, derive)
    ensures NegotiateProtocols(Offers(f), remote).Some? ==>
              Activate(f, NegotiateProtocols(Offers(f), remote).value).Ok?
    ensures FrozenNegotiate(f, remote).Ok? ==> Activate(f, FrozenNegotiate(f, remote).value).Ok?
  {
    hide Activate, NegotiateProtocols, Acceptable, DescriptorError, Sorted;
    if |remote| <= f.maxRemoteOffers {
      NegotiatorsAgree(f, remote);
    }
    if NegotiateProtocols(Offers(f), remote).Some? {
      NegotiatedAcceptable(f, limits, derive, remote);
      AcceptableActivates(f, limits, derive, NegotiateProtocols(Offers(f), remote).value);
    }
  }

  lemma ValidatedActivates(f: Frozen, limits: Limits, derive: Derive, m: Machine, selections: seq<ProtocolSelection>)
    requires FrozenOk(f, limits, derive)
    requires SelectionError(m, selections).None? && LocalOffers(m.config.policy, m.authPath.value) == Offers(f)
    ensures Activate(f, selections).Ok?
  {
    hide Activate, FrozenOk, Acceptable, SelectionError;
    ValidatedAcceptable(f, m, selections);
    AcceptableActivates(f, limits, derive, selections);
  }
}
