/** What the registry takes in, activates and opens, and why it refuses, field by field. */
module RegistryVerdicts {
  import opened Base
  import opened Identity
  import opened Capabilities
  import opened RegistrySpec
  import ControlVerdicts
  import HandshakeSpec
  import HandshakeTerms
  import MuxSpec

  /* ---------------------------------- Descriptors -------------------------------- */

  /** A name, if there is one, is words joined by dots and a word, short enough, and gives the id. */
  ghost predicate NameFits(limits: Limits, d: Descriptor, derive: Derive) {
    match d.debugIdentity
    case None => true
    case Some(i) =>
      && ControlVerdicts.DottedWords(i.authority) && ControlVerdicts.Word(i.name)
      && |i.authority| + |i.name| <= limits.maxProtocolIdBytes
      && derive(i.authority, i.name) == d.stableId
  }

  /** Only streams have a byte limit, only events may be discardable, and no number is zero. */
  ghost predicate ChannelFits(limits: Limits, c: ChannelDescriptor) {
    && c.id > 0 && c.maxFrameBytes > 0 && c.maxInFlightFrames > 0
    && (match c.debugName
        case None => true
        case Some(name) => ControlVerdicts.Word(name) && |name| <= limits.maxChannelNameBytes)
    && (match c.maxStreamBytes
        case None => !c.mode.Stream?
        case Some(bytes) => c.mode.Stream? && bytes > 0)
    && (c.discardable ==> c.mode.Event?)
  }

  ghost predicate ChannelsApart(channels: seq<ChannelDescriptor>) {
    forall j, k :: 0 <= j < k < |channels| ==>
      && channels[j].id != channels[k].id
      && (channels[j].debugName.Some? ==> channels[j].debugName != channels[k].debugName)
  }

  ghost predicate ChannelsFit(limits: Limits, channels: seq<ChannelDescriptor>) {
    && (forall k :: 0 <= k < |channels| ==> ChannelFits(limits, channels[k]))
    && ChannelsApart(channels)
  }

  lemma ChannelVerdict(limits: Limits, c: ChannelDescriptor)
    ensures ChannelInvalid(limits, c) <==> !ChannelFits(limits, c)
  {
    hide Component, ControlVerdicts.Word;
    if c.debugName.Some? {
      ControlVerdicts.ComponentIsWord(c.debugName.value);
    }
  }

  lemma {:induction false} ChannelsVerdict(limits: Limits, channels: seq<ChannelDescriptor>, n: nat)
    requires n <= |channels|
    ensures ChannelsError(limits, channels, n).None? <==> ChannelsFit(limits, channels[..n])
    ensures ChannelsError(limits, channels, n).Some? ==>
              ChannelsError(limits, channels, n).value in {InvalidChannel, DuplicateChannel}
  {
    hide ChannelInvalid, ChannelFits;
    if n > 0 {
      ChannelsVerdict(limits, channels, n - 1);
      ChannelVerdict(limits, channels[n - 1]);
      var earlier, c := channels[..n - 1], channels[n - 1];
      assert channels[..n] == earlier + [c];
      OneMoreFits(limits, earlier, c);
    }
  }

  lemma OneMoreFits(limits: Limits, earlier: seq<ChannelDescriptor>, c: ChannelDescriptor)
    ensures ChannelsFit(limits, earlier + [c])
       <==> ChannelsFit(limits, earlier) && ChannelFits(limits, c) && !Repeats(earlier, c)
  {
    hide ChannelFits;
    var all := earlier + [c];
    assert all[|earlier|] == c && forall k :: 0 <= k < |earlier| ==> all[k] == earlier[k];
    if Repeats(earlier, c) {
      var k :| 0 <= k < |earlier| && Clashes(earlier[k], c);
      assert all[k] == earlier[k];
    } else {
      assert forall k :: 0 <= k < |earlier| ==> !Clashes(earlier[k], c);
    }
  }

  /** The first thing wrong with a descriptor. */
  lemma DescriptorVerdict(limits: Limits, d: Descriptor, derive: Derive)
    ensures var error := DescriptorError(limits, d, derive);
            if !NameFits(limits, d, derive) then error == Some(InvalidProtocolId)
            else if !ControlVerdicts.Ordered(d.versions) then error == Some(InvalidVersionRange)
            else if d.schema.revision == 0 then error == Some(InvalidSchema)
            else if d.capabilities.protocolId != d.stableId || |d.capabilities.words| > 8 then
              error == Some(InvalidCapabilities)
            else if !(0 < |d.channels| <= limits.maxChannelsPerProtocol) then error == Some(RegistryLimitExceeded)
            else if !ChannelsFit(limits, d.channels) then error in {Some(InvalidChannel), Some(DuplicateChannel)}
            else error == None
  {
    hide ChannelsFit, ChannelsError, ControlVerdicts.DottedWords, ControlVerdicts.Word, Dotted, Component;
    assert d.channels[..|d.channels|] == d.channels;
    ChannelsVerdict(limits, d.channels, |d.channels|);
    if d.debugIdentity.Some? {
      ControlVerdicts.DottedIsWords(d.debugIdentity.value.authority);
      ControlVerdicts.ComponentIsWord(d.debugIdentity.value.name);
    }
  }

  /* ---------------------------------- Registering -------------------------------- */

  /**
    A known id is refused by what differs, a new one by what is wrong with the descriptor or for
    lack of room; otherwise exactly that descriptor is added and its channels are counted.
   */
  lemma RegisterVerdict(r: Registry, d: Descriptor, derive: Derive)
    requires RegistryOk(r, derive)
    ensures var error := RegisterError(r, d, derive);
            && (forall known :: known in r.descriptors && known.stableId == d.stableId ==>
                  error == Some(if known.debugIdentity != d.debugIdentity then IdentityConflict
                                else if known.schema != d.schema then SchemaConflict else DuplicateProtocol))
            && ((forall known :: known in r.descriptors ==> known.stableId != d.stableId) ==>
                  error == if DescriptorError(r.limits, d, derive).Some? then DescriptorError(r.limits, d, derive)
                           else if |r.descriptors| == r.limits.maxProtocols
                                   || r.totalChannels + |d.channels| > r.limits.maxTotalChannels
                           then Some(RegistryLimitExceeded) else None)
    ensures var after := Registered(r, d);
            && (forall x :: x in after.descriptors <==> x in r.descriptors || x == d)
            && |after.descriptors| == |r.descriptors| + 1
            && after.totalChannels == r.totalChannels + |d.channels|
  {
    hide DescriptorError, Sorted;
    forall known | known in r.descriptors && known.stableId == d.stableId
      ensures Find(r.descriptors, d.stableId) == Some(known)
    {
      FindIs(r.descriptors, known);
    }
  }

  /* ---------------------------- Negotiating and activating ----------------------- */

  /** What a descriptor and the first remote offer of its protocol contradict each other in. */
  ghost function Contradiction(d: Descriptor, o: ProtocolOffer): Option<RegistryError> {
    if d.debugIdentity.Some? && o.debugIdentity.Some? && d.debugIdentity.value != o.debugIdentity.value then
      Some(IdentityConflict)
    else if d.schema != o.schema then Some(SchemaConflict)
    else if d.capabilities.protocolId != o.capabilities.protocolId && HandshakeTerms.Overlap(d.versions, o.versions)
    then Some(InvalidCapabilities)
    else None
  }

  /** The registry's negotiation fails with the contradiction of the first descriptor that has one. */
  ghost predicate FailsAt(f: Frozen, remote: seq<ProtocolOffer>, k: nat, error: RegistryError) {
    && k < |f.descriptors|
    && HandshakeSpec.FirstOffer(remote, f.descriptors[k].stableId).Some?
    && Contradiction(f.descriptors[k], HandshakeSpec.FirstOffer(remote, f.descriptors[k].stableId).value) == Some(error)
    && forall j :: 0 <= j < k && HandshakeSpec.FirstOffer(remote, f.descriptors[j].stableId).Some? ==>
         Contradiction(f.descriptors[j], HandshakeSpec.FirstOffer(remote, f.descriptors[j].stableId).value).None?
  }

  lemma {:induction false} NegotiationVerdict(f: Frozen, remote: seq<ProtocolOffer>, n: nat)
    requires n <= |f.descriptors|
    ensures NegotiateFirst(f, remote, n).Err? ==>
              exists k: nat :: k < n && FailsAt(f, remote, k, NegotiateFirst(f, remote, n).error)
    ensures NegotiateFirst(f, remote, n).Ok? ==>
              forall j :: 0 <= j < n && HandshakeSpec.FirstOffer(remote, f.descriptors[j].stableId).Some? ==>
                Contradiction(f.descriptors[j], HandshakeSpec.FirstOffer(remote, f.descriptors[j].stableId).value).None?
  {
    hide HandshakeSpec.FirstOffer, HandshakeTerms.Overlap, VersionRange.Negotiate;
    if n > 0 {
      NegotiationVerdict(f, remote, n - 1);
      var d := f.descriptors[n - 1];
      var offer := HandshakeSpec.FirstOffer(remote, d.stableId);
      if offer.Some? {
        HandshakeTerms.OverlapIsNegotiable(d.versions, offer.value.versions);
        if NegotiateFirst(f, remote, n - 1).Ok? && NegotiateFirst(f, remote, n).Err? {
          assert FailsAt(f, remote, n - 1, NegotiateFirst(f, remote, n).error);
        }
      }
    }
  }

  /** One selection activates exactly when its protocol is new, registered so, and within what is registered. */
  lemma ActivateVerdict(f: Frozen, active: map<Id16, ActiveProtocol>, s: ProtocolSelection)
    requires Sorted(f.descriptors)
    ensures var error := ActivateError(f, active, s);
            && (s.stableId in active ==> error == Some(DuplicateProtocol))
            && (s.stableId !in active && (forall d :: d in f.descriptors ==> d.stableId != s.stableId) ==>
                  error == Some(UnknownProtocol))
            && forall d :: s.stableId !in active && d in f.descriptors && d.stableId == s.stableId ==>
                 error == if d.schema != s.schema then Some(SchemaConflict)
                          else if s.capabilities.protocolId != s.stableId || |s.capabilities.words| > 8
                                  || !WithinCapabilities(s.capabilities, d.capabilities)
                          then Some(InvalidCapabilities)
                          else if !d.versions.Admits(s.version) then Some(VersionNotSupported)
                          else None
  {
    hide Sorted, ProtocolCapabilitySet.IsSubsetOf, WithinCapabilities, VersionRange.Negotiate;
    forall d | d in f.descriptors && d.stableId == s.stableId
      ensures Find(f.descriptors, s.stableId) == Some(d)
      ensures s.capabilities.IsSubsetOf(d.capabilities) <==> WithinCapabilities(s.capabilities, d.capabilities)
      ensures d.versions.Negotiate(Exactly(s.version)).Some? <==> d.versions.Admits(s.version)
    {
      FindIs(f.descriptors, d);
      WithinIsSubset(s.capabilities, d.capabilities);
      ExactlyAdmits(d.versions, s.version);
    }
  }

  /** The same protocol, and no bit that the other lacks. */
  ghost predicate WithinCapabilities(a: ProtocolCapabilitySet, b: ProtocolCapabilitySet) {
    && a.protocolId == b.protocolId
    && forall k :: 0 <= k < |a.words| ==>
                     if k < |b.words| then Covered(a.words[k], b.words[k]) else a.words[k] == 0
  }

  lemma WithinIsSubset(a: ProtocolCapabilitySet, b: ProtocolCapabilitySet)
    ensures a.IsSubsetOf(b) <==> WithinCapabilities(a, b)
  {
    hide SubsetOf, Covered, BitsWithin;
    forall k | 0 <= k < |a.words|
      ensures SubsetOf(a.words[k], WordAt(b.words, k))
         <==> if k < |b.words| then Covered(a.words[k], b.words[k]) else a.words[k] == 0
    {
      SubsetIsInclusion(a.words[k], WordAt(b.words, k));
      HandshakeTerms.CoveredByNothing(a.words[k]);
    }
  }
}
