/**
  What a handshake may agree on, in terms of the two configurations alone: which offers meet, what
  they join to, which hello is admissible, and that no run ever goes beyond it.
 */
module HandshakeTerms {
  import opened Base
  import opened Identity
  import opened Capabilities
  import opened HandshakeSpec
  import opened HandshakeRun

  /* ------------------------------ Reference definitions -------------------------- */

  ghost predicate Overlap(a: VersionRange, b: VersionRange) {
    exists v :: a.Admits(v) && b.Admits(v)
  }

  ghost predicate GreatestShared(a: VersionRange, b: VersionRange, v: ProtocolVersion) {
    && a.Admits(v) && b.Admits(v)
    && forall w :: a.Admits(w) && b.Admits(w) ==> w.major == v.major && w.minor <= v.minor
  }

  /** `c` has exactly the bits that `a` and `b` both have. */
  ghost predicate SharedBits(a: nat, b: nat, c: nat) {
    forall n: nat :: Bit(c, n) <==> Bit(a, n) && Bit(b, n)
  }

  /** What a side shows on a path: strangers see the pairing catalogue only. */
  ghost function Exposed(policy: Policy, auth: AuthPath): seq<ProtocolOffer> {
    match auth
    case FirstPairing => policy.pairingProtocols
    case TrustedReconnect => policy.protocols
  }

  /** Position `k` holds the first offer of its protocol. */
  ghost predicate First(offers: seq<ProtocolOffer>, k: nat) {
    k < |offers| && forall j :: 0 <= j < k ==> offers[j].stableId != offers[k].stableId
  }

  /** The first local and the first remote offer of one protocol. */
  ghost predicate Meet(local: seq<ProtocolOffer>, remote: seq<ProtocolOffer>, j: nat, k: nat) {
    && j < |local| && k < |remote|
    && First(local, j) && First(remote, k) && local[j].stableId == remote[k].stableId
  }

  /**
    Two offers of one protocol contradict each other: the schemas differ, or both carry a name and
    the names differ, or they share a version and their capabilities name different protocols.
   */
  ghost predicate Clash(a: ProtocolOffer, b: ProtocolOffer) {
    || a.schema != b.schema
    || (a.debugIdentity.Some? && b.debugIdentity.Some? && a.debugIdentity.value != b.debugIdentity.value)
    || (Overlap(a.versions, b.versions) && a.capabilities.protocolId != b.capabilities.protocolId)
  }

  /** What two offers agree on. */
  ghost predicate Joins(a: ProtocolOffer, b: ProtocolOffer, s: ProtocolSelection) {
    && s.stableId == a.stableId && s.schema == a.schema == b.schema
    && GreatestShared(a.versions, b.versions, s.version)
    && s.capabilities.protocolId == a.capabilities.protocolId == b.capabilities.protocolId
    && |s.capabilities.words| <= |a.capabilities.words| && |s.capabilities.words| <= |b.capabilities.words|
    && |s.capabilities.words| in {|a.capabilities.words|, |b.capabilities.words|}
    && forall k :: 0 <= k < |s.capabilities.words| ==>
                     SharedBits(a.capabilities.words[k], b.capabilities.words[k], s.capabilities.words[k])
  }

  ghost predicate AnyClash(local: seq<ProtocolOffer>, remote: seq<ProtocolOffer>) {
    exists j: nat, k: nat :: Meet(local, remote, j, k) && Clash(local[j], remote[k])
  }

  ghost predicate AnyOverlap(local: seq<ProtocolOffer>, remote: seq<ProtocolOffer>) {
    exists j: nat, k: nat :: Meet(local, remote, j, k) && Overlap(local[j].versions, remote[k].versions)
  }

  /** `s` is what two offers that meet agree on. */
  ghost predicate Joined(local: seq<ProtocolOffer>, remote: seq<ProtocolOffer>, s: ProtocolSelection) {
    exists j: nat, k: nat :: Meet(local, remote, j, k) && Joins(local[j], remote[k], s)
  }

  ghost predicate Selects(selected: seq<ProtocolSelection>, id: Id16) {
    exists n :: 0 <= n < |selected| && selected[n].stableId == id
  }

  /** The selections follow the order of the local catalogue. */
  ghost predicate InCatalogueOrder(local: seq<ProtocolOffer>, selected: seq<ProtocolSelection>) {
    forall a, b, j: nat, k: nat ::
      && 0 <= a < b < |selected| && First(local, j) && First(local, k)
      && local[j].stableId == selected[a].stableId && local[k].stableId == selected[b].stableId
      ==> j < k
  }

  /** Every protocol both sides offer in a shared version is selected once, in the local order, and no other. */
  ghost predicate Agreed(local: seq<ProtocolOffer>, remote: seq<ProtocolOffer>, selected: seq<ProtocolSelection>) {
    && (forall n :: 0 <= n < |selected| ==> Joined(local, remote, selected[n]))
    && (forall j: nat, k: nat :: Meet(local, remote, j, k) && Overlap(local[j].versions, remote[k].versions) ==>
          Selects(selected, local[j].stableId))
    && InCatalogueOrder(local, selected)
  }

  /** Pairing must be allowed; a reconnecting peer must be one the responder trusts. */
  ghost predicate Entitled(policy: Policy, peer: Id32, auth: AuthPath) {
    match auth
    case FirstPairing => policy.allowPairing
    case TrustedReconnect => peer in policy.trustedPeers
  }

  ghost predicate Admissible(policy: Policy, h: HandshakeFrame)
    requires h.Hello?
  {
    && |h.protocols| <= policy.maxProtocolOffers
    && Overlap(policy.linkVersions, h.linkVersions)
    && Entitled(policy, h.identity.peerId, h.requestedAuth)
    && !AnyClash(Exposed(policy, h.requestedAuth), h.protocols)
    && AnyOverlap(Exposed(policy, h.requestedAuth), h.protocols)
  }

  /* ------------------------------ Offers that meet ------------------------------- */

  lemma {:induction false} FirstOfferIsFirst(offers: seq<ProtocolOffer>, id: Id16) returns (k: nat)
    ensures FirstOffer(offers, id).Some? ==>
              First(offers, k) && offers[k] == FirstOffer(offers, id).value && offers[k].stableId == id
  {
    if offers == [] || offers[0].stableId == id {
      k := 0;
    } else {
      var n := FirstOfferIsFirst(offers[1..], id);
      k := n + 1;
      if FirstOffer(offers, id).Some? {
        assert forall j :: 0 < j < k ==> offers[j] == offers[1..][j - 1];
      }
    }
  }

  lemma OneFirst(offers: seq<ProtocolOffer>, j: nat, k: nat)
    requires First(offers, j) && First(offers, k) && offers[j].stableId == offers[k].stableId
    ensures j == k
  {
  }

  lemma FirstIsFound(offers: seq<ProtocolOffer>, k: nat)
    requires First(offers, k)
    ensures FirstOffer(offers, offers[k].stableId) == Some(offers[k])
  {
    var id := offers[k].stableId;
    var n := FirstOfferIsFirst(offers, id);
    OneFirst(offers, n, k);
  }

  lemma OverlapIsNegotiable(a: VersionRange, b: VersionRange)
    ensures Overlap(a, b) <==> a.Negotiate(b).Some?
    ensures a.Negotiate(b).Some? ==> GreatestShared(a, b, a.Negotiate(b).value)
  {
    NegotiateIsGreatestShared(a, b);
  }

  /** The source's test for a conflict and its capability failure together are a clash. */
  lemma JoinFailsIsClash(a: ProtocolOffer, b: ProtocolOffer)
    ensures JoinFails(a, b) <==> Clash(a, b)
    ensures Joinable(a, b) <==> !Clash(a, b) && Overlap(a.versions, b.versions)
  {
    hide Overlap;
    OverlapIsNegotiable(a.versions, b.versions);
  }

  lemma JoinJoins(a: ProtocolOffer, b: ProtocolOffer)
    requires Joinable(a, b)
    ensures Joins(a, b, Join(a, b))
  {
    hide Overlap, GreatestShared, BitAnd, Bit;
    OverlapIsNegotiable(a.versions, b.versions);
    var words := Join(a, b).capabilities.words;
    forall k | 0 <= k < |words|
      ensures SharedBits(a.capabilities.words[k], b.capabilities.words[k], words[k])
    {
      AndIsShared(a.capabilities.words[k], b.capabilities.words[k]);
    }
  }

  lemma AndIsShared(a: nat, b: nat)
    ensures SharedBits(a, b, BitAnd(a, b))
  {
    forall n: nat
      ensures Bit(BitAnd(a, b), n) <==> Bit(a, n) && Bit(b, n)
    {
      AndIsBoth(a, b, n);
    }
  }

  lemma ClashIsAnyJoinFails(local: seq<ProtocolOffer>, remote: seq<ProtocolOffer>)
    ensures AnyJoinFails(local, remote) <==> AnyClash(local, remote)
  {
    hide FirstOffer, First, JoinFails, Clash;
    if AnyJoinFails(local, remote) {
      var id: Id16 :|
        && FirstOffer(local, id).Some? && FirstOffer(remote, id).Some?
        && JoinFails(FirstOffer(local, id).value, FirstOffer(remote, id).value);
      var j, k := Found(local, remote, id);
      JoinFailsIsClash(local[j], remote[k]);
      assert Meet(local, remote, j, k) && Clash(local[j], remote[k]);
    } else if AnyClash(local, remote) {
      var j: nat, k: nat :| Meet(local, remote, j, k) && Clash(local[j], remote[k]);
      MeetIsFound(local, remote, j, k);
      JoinFailsIsClash(local[j], remote[k]);
      assert false;
    }
  }

  lemma Found(local: seq<ProtocolOffer>, remote: seq<ProtocolOffer>, id: Id16) returns (j: nat, k: nat)
    requires FirstOffer(local, id).Some? && FirstOffer(remote, id).Some?
    ensures Meet(local, remote, j, k) && local[j].stableId == id
    ensures local[j] == FirstOffer(local, id).value && remote[k] == FirstOffer(remote, id).value
  {
    j := FirstOfferIsFirst(local, id);
    k := FirstOfferIsFirst(remote, id);
  }

  lemma MeetIsFound(local: seq<ProtocolOffer>, remote: seq<ProtocolOffer>, j: nat, k: nat)
    requires Meet(local, remote, j, k)
    ensures FirstOffer(local, local[j].stableId) == Some(local[j])
    ensures FirstOffer(remote, local[j].stableId) == Some(remote[k])
  {
    FirstIsFound(local, j);
    FirstIsFound(remote, k);
  }

  /* -------------------------------- Negotiation ---------------------------------- */

  /** Negotiation refuses exactly the catalogues with a clash, and otherwise selects what they share, in order. */
  lemma NegotiationAgrees(local: seq<ProtocolOffer>, remote: seq<ProtocolOffer>)
    ensures NegotiateProtocols(local, remote).None? <==> AnyClash(local, remote)
    ensures NegotiateProtocols(local, remote).Some? ==>
              var selected := NegotiateProtocols(local, remote).value;
              Agreed(local, remote, selected) && (selected != [] <==> AnyOverlap(local, remote))
  {
    NegotiationMeaning(local, remote);
    ClashIsAnyJoinFails(local, remote);
    if NegotiateProtocols(local, remote).Some? {
      var selected := NegotiateProtocols(local, remote).value;
      hide NegotiateProtocols, AnyClash, AnyJoinFails;
      SelectedAreJoined(local, remote, selected);
      SharedAreSelected(local, remote, selected);
      NegotiationFollowsOrder(local, remote);
    }
  }

  lemma SelectedAreJoined(local: seq<ProtocolOffer>, remote: seq<ProtocolOffer>, selected: seq<ProtocolSelection>)
    requires SelectsExactly(local, remote, selected)
    ensures forall n :: 0 <= n < |selected| ==> Joined(local, remote, selected[n])
    ensures selected != [] ==> AnyOverlap(local, remote)
  {
    hide FirstOffer, First, JoinFails, Joins, Joinable, Join;
    forall n | 0 <= n < |selected|
      ensures Joined(local, remote, selected[n])
      ensures AnyOverlap(local, remote)
    {
      var s := selected[n];
      assert s in selected;
      var j, k := Found(local, remote, s.stableId);
      JoinJoins(local[j], remote[k]);
      JoinFailsIsClash(local[j], remote[k]);
      assert Meet(local, remote, j, k) && Joins(local[j], remote[k], s);
      assert Meet(local, remote, j, k) && Overlap(local[j].versions, remote[k].versions);
    }
    if selected != [] {
      assert Joined(local, remote, selected[0]);
    }
  }

  lemma SharedAreSelected(local: seq<ProtocolOffer>, remote: seq<ProtocolOffer>, selected: seq<ProtocolSelection>)
    requires SelectsExactly(local, remote, selected) && !AnyClash(local, remote)
    ensures forall j: nat, k: nat :: Meet(local, remote, j, k) && Overlap(local[j].versions, remote[k].versions) ==>
              Selects(selected, local[j].stableId)
    ensures AnyOverlap(local, remote) ==> selected != []
  {
    hide FirstOffer, First, JoinFails, Joinable, Join, Clash, Overlap;
    forall j: nat, k: nat | Meet(local, remote, j, k) && Overlap(local[j].versions, remote[k].versions)
      ensures Selects(selected, local[j].stableId)
    {
      MeetIsFound(local, remote, j, k);
      JoinFailsIsClash(local[j], remote[k]);
      assert Shared(local, remote, local[j].stableId);
      var s :| s in selected && s.stableId == local[j].stableId;
      var n :| 0 <= n < |selected| && selected[n] == s;
      assert selected[n].stableId == local[j].stableId;
    }
  }

  /** The selections made from the first `n` local offers come from positions below `n`, in order. */
  ghost predicate OrderedBelow(local: seq<ProtocolOffer>, selected: seq<ProtocolSelection>, n: nat) {
    && InCatalogueOrder(local, selected)
    && forall a, j: nat :: 0 <= a < |selected| && First(local, j) && local[j].stableId == selected[a].stableId ==> j < n
  }

  lemma NegotiationFollowsOrder(local: seq<ProtocolOffer>, remote: seq<ProtocolOffer>)
    requires NegotiateProtocols(local, remote).Some?
    ensures InCatalogueOrder(local, NegotiateProtocols(local, remote).value)
  {
    PrefixFollowsOrder(local, remote, |local|);
  }

  lemma {:induction false} PrefixFollowsOrder(local: seq<ProtocolOffer>, remote: seq<ProtocolOffer>, n: nat)
    requires n <= |local| && NegotiateUpTo(local, remote, n).Some?
    ensures OrderedBelow(local, NegotiateUpTo(local, remote, n).value, n)
  {
    hide FirstOffer, JoinFails, Joinable, OrderedBelow;
    if n == 0 {
      NothingOrdered(local);
    } else {
      PrefixFollowsOrder(local, remote, n - 1);
      var before, mine := NegotiateUpTo(local, remote, n - 1).value, local[n - 1];
      var after := NegotiateUpTo(local, remote, n).value;
      if after == before {
        OrderedFurther(local, before, n - 1);
      } else {
        NoneBefore(local, n - 1);
        OrderedAppend(local, before, n - 1, after[|before|]);
      }
    }
  }

  lemma NothingOrdered(local: seq<ProtocolOffer>)
    ensures OrderedBelow(local, [], 0)
  {
  }

  lemma OrderedFurther(local: seq<ProtocolOffer>, selected: seq<ProtocolSelection>, n: nat)
    requires OrderedBelow(local, selected, n)
    ensures OrderedBelow(local, selected, n + 1)
  {
  }

  lemma NoneBefore(offers: seq<ProtocolOffer>, k: nat)
    requires k < |offers| && FirstOffer(offers[..k], offers[k].stableId).None?
    ensures First(offers, k)
  {
    assert forall j :: 0 <= j < k ==> offers[j] == offers[..k][j];
  }

  lemma OrderedAppend(local: seq<ProtocolOffer>, selected: seq<ProtocolSelection>, n: nat, s: ProtocolSelection)
    requires OrderedBelow(local, selected, n) && First(local, n) && s.stableId == local[n].stableId
    ensures OrderedBelow(local, selected + [s], n + 1)
  {
    forall j: nat | First(local, j) && local[j].stableId == s.stableId
      ensures j == n
    {
      OneFirst(local, j, n);
    }
  }

  /* ------------------------------- Single answers -------------------------------- */

  /** A responder waiting for a hello answers with a challenge exactly when the hello is admissible. */
  lemma HelloVerdict(policy: Policy, h: HandshakeFrame)
    requires h.Hello?
    ensures HelloError(policy, h).None? <==> Admissible(policy, h)
    ensures |h.protocols| > policy.maxProtocolOffers ==> HelloError(policy, h) == Some(LimitExceeded)
    ensures |h.protocols| <= policy.maxProtocolOffers && !Overlap(policy.linkVersions, h.linkVersions) ==>
              HelloError(policy, h) == Some(IncompatibleVersion)
    ensures |h.protocols| <= policy.maxProtocolOffers && Overlap(policy.linkVersions, h.linkVersions)
            && !Entitled(policy, h.identity.peerId, h.requestedAuth) ==>
              HelloError(policy, h)
              == Some(if h.requestedAuth == FirstPairing then PairingDisabled else PeerNotTrusted)
    ensures |h.protocols| <= policy.maxProtocolOffers && Overlap(policy.linkVersions, h.linkVersions)
            && Entitled(policy, h.identity.peerId, h.requestedAuth) && !Admissible(policy, h) ==>
              HelloError(policy, h)
              == Some(if AnyClash(Exposed(policy, h.requestedAuth), h.protocols) then ProtocolConflict
                      else NoSharedProtocol)
  {
    hide NegotiateProtocols, AnyClash, AnyOverlap, Overlap, Agreed;
    OverlapIsNegotiable(policy.linkVersions, h.linkVersions);
    NegotiationAgrees(Exposed(policy, h.requestedAuth), h.protocols);
  }

  /** What accepting a hello settles, from the responder's configuration `r` and the hello alone. */
  ghost predicate Settled(r: Config, h: HandshakeFrame, m: Machine)
    requires h.Hello?
  {
    && m.config == r
    && m.remote == Some(h.identity) && m.authPath == Some(h.requestedAuth)
    && m.linkVersion.Some? && GreatestShared(r.policy.linkVersions, h.linkVersions, m.linkVersion.value)
    && SharedBits(r.policy.linkCapabilities, h.linkCapabilities, m.linkCapabilities)
    && Agreed(Exposed(r.policy, h.requestedAuth), h.protocols, m.selected)
  }

  lemma GreetedSettles(r: Config, h: HandshakeFrame)
    requires h.Hello? && HelloError(r.policy, h).None?
    ensures Settled(r, h, Greeted(NewResponder(r), h))
  {
    hide NegotiateProtocols, BitAnd, SharedBits, AnyClash, AnyOverlap, Overlap, Agreed, GreatestShared;
    OverlapIsNegotiable(r.policy.linkVersions, h.linkVersions);
    NegotiationAgrees(Exposed(r.policy, h.requestedAuth), h.protocols);
    AndIsShared(r.policy.linkCapabilities, h.linkCapabilities);
  }

  /** An offer its owner may send. */
  predicate Sound(derive: Derive, o: ProtocolOffer) {
    && o.schema.revision > 0
    && o.capabilities.protocolId == o.stableId
    && |o.capabilities.words| <= 8
    && match o.debugIdentity
       case None => true
       case Some(name) => o.stableId == derive(name.authority, name.name)
  }

  /** The hello a configuration sends. */
  ghost function Greeting(i: Config, auth: AuthPath): HandshakeFrame {
    Hello(i.identity, i.policy.linkVersions, i.policy.linkCapabilities, Exposed(i.policy, auth), auth)
  }

  /** Its own catalogue fits its own limit and every offer in it is sound. */
  ghost predicate Presentable(i: Config, auth: AuthPath, derive: Derive) {
    && |Exposed(i.policy, auth)| <= i.policy.maxProtocolOffers
    && forall o :: o in Exposed(i.policy, auth) ==> Sound(derive, o)
  }

  lemma StartVerdict(i: Config, auth: AuthPath, derive: Derive)
    ensures var (m, replies) := Start(NewInitiator(i), auth, derive);
            && (replies.Ok? <==> Presentable(i, auth, derive))
            && (replies.Ok? ==> replies == Ok([Send(Greeting(i, auth))]))
            && (replies.Err? ==>
                  replies.error == if |Exposed(i.policy, auth)| > i.policy.maxProtocolOffers then LimitExceeded
                                   else ProtocolConflict)
            && (m.phase == if replies.Ok? then AwaitingChallenge else Failed)
  {
  }

  /** The initiator accepts exactly the challenges within its versions, its path and its capabilities. */
  lemma ChallengeVerdict(m: Machine, c: HandshakeFrame)
    requires c.Challenge?
    ensures ChallengeAcceptable(m, c)
       <==> && m.config.policy.linkVersions.Admits(c.linkVersion)
            && m.authPath == Some(c.authPath)
            && Covered(c.linkCapabilities, m.config.policy.linkCapabilities)
  {
    hide BitsWithin, Bit, SubsetOf;
    ExactlyAdmits(m.config.policy.linkVersions, c.linkVersion);
    SubsetIsInclusion(c.linkCapabilities, m.config.policy.linkCapabilities);
  }

  /** Something the offer allows: its schema, a version it admits and no capability bit it lacks. */
  ghost predicate Allows(o: ProtocolOffer, s: ProtocolSelection) {
    && s.stableId == o.stableId && s.schema == o.schema && o.versions.Admits(s.version)
    && s.capabilities.protocolId == o.capabilities.protocolId
    && |s.capabilities.words| <= 8
    && forall k :: 0 <= k < |s.capabilities.words| ==>
                     if k < |o.capabilities.words| then Covered(s.capabilities.words[k], o.capabilities.words[k])
                     else s.capabilities.words[k] == 0
  }

  lemma AllowsIsMatch(o: ProtocolOffer, s: ProtocolSelection)
    ensures SelectionMatches(o, s) <==> Allows(o, s)
  {
    hide BitsWithin, Bit, SubsetOf, Covered;
    ExactlyAdmits(o.versions, s.version);
    forall k | 0 <= k < |s.capabilities.words|
      ensures SubsetOf(s.capabilities.words[k], WordAt(o.capabilities.words, k))
         <==> if k < |o.capabilities.words| then Covered(s.capabilities.words[k], o.capabilities.words[k])
              else s.capabilities.words[k] == 0
    {
      SubsetIsInclusion(s.capabilities.words[k], WordAt(o.capabilities.words, k));
      CoveredByNothing(s.capabilities.words[k]);
    }
  }

  lemma CoveredByNothing(a: nat)
    ensures Covered(a, 0) <==> a == 0
  {
    forall n: nat
      ensures !Bit(0, n)
    {
      NoBits(n);
    }
    if Covered(a, 0) {
      BitsDecide(a, 0);
    }
  }

  ghost predicate AllowedBy(offers: seq<ProtocolOffer>, s: ProtocolSelection) {
    exists o :: o in offers && Allows(o, s)
  }

  /** A selection an initiator on path `auth` can live with. */
  ghost predicate Acceptable(policy: Policy, auth: AuthPath, selections: seq<ProtocolSelection>) {
    && 0 < |selections| <= policy.maxProtocolOffers
    && (forall a, b :: 0 <= a < b < |selections| ==> selections[a].stableId != selections[b].stableId)
    && forall n :: 0 <= n < |selections| ==> AllowedBy(Exposed(policy, auth), selections[n])
  }

  lemma SelectionVerdict(m: Machine, auth: AuthPath, selections: seq<ProtocolSelection>)
    requires m.authPath == Some(auth)
    ensures SelectionError(m, selections).None? <==> Acceptable(m.config.policy, auth, selections)
    ensures selections == [] || |selections| > m.config.policy.maxProtocolOffers ==>
              SelectionError(m, selections) == Some(NoSharedProtocol)
    ensures 0 < |selections| <= m.config.policy.maxProtocolOffers && !Acceptable(m.config.policy, auth, selections) ==>
              SelectionError(m, selections) == Some(ProtocolConflict)
  {
    hide Supported, AllowedBy;
    var offers := LocalOffers(m.config.policy, auth);
    assert offers == Exposed(m.config.policy, auth);
    forall n | 0 <= n < |selections|
      ensures Supported(offers, selections[n]) <==> AllowedBy(offers, selections[n])
    {
      SupportedIsAllowed(offers, selections[n]);
    }
    if s :| s in selections && !Supported(offers, s) {
      var n :| 0 <= n < |selections| && selections[n] == s;
      assert !AllowedBy(offers, selections[n]);
    } else {
      assert forall n :: 0 <= n < |selections| ==> selections[n] in selections;
    }
  }

  lemma SupportedIsAllowed(offers: seq<ProtocolOffer>, s: ProtocolSelection)
    ensures Supported(offers, s) <==> AllowedBy(offers, s)
  {
    hide SelectionMatches, Allows;
    forall o | o in offers
      ensures SelectionMatches(o, s) <==> Allows(o, s)
    {
      AllowsIsMatch(o, s);
    }
  }

  /** The remaining expected frames: proofs by their size, confirmations by the session they name. */
  lemma LateVerdicts(m: Machine, f: HandshakeFrame)
    requires Coherent(m) && Expected(m, f)
    ensures f.IdentityProof? ==>
              Receive(m, f).1 == if |f.proof| > m.config.policy.maxIdentityProofBytes then Err(LimitExceeded)
                                 else Ok([VerifyIdentity(VerificationRequest(
                                   m.remote.value.peerId, m.authPath.value, m.config.challengeNonce, f.proof))])
    ensures f.Confirm? || f.Confirmed? ==>
              && Receive(m, f).1.Ok? == (f.sessionId == m.config.sessionId)
              && (Receive(m, f).1.Err? ==> Receive(m, f).1.error == InvalidConfirmation)
    ensures Receive(m, f).1.Err? ==> Receive(m, f).0 == m.(phase := Failed)
  {
    hide SelectionError, HelloError, ChallengeAcceptable;
  }

  /* -------------------------------- Over whole runs ------------------------------ */

  /** Whatever the responder holds on to was settled by an admissible hello the initiator would send. */
  ghost predicate Grounded(s: System, i: Config, r: Config) {
    Negotiated(s.responder) ==>
      && Admissible(r.policy, Greeting(i, s.responder.authPath.value))
      && Settled(r, Greeting(i, s.responder.authPath.value), s.responder)
  }

  lemma HelloGrounds(s: System, i: Config, r: Config, h: HandshakeFrame)
    requires Inv(s, i, r) && h in s.network && h.Hello? && s.responder.phase == AwaitingHello
    requires HelloError(r.policy, h).None?
    ensures Grounded(s.(responder := Greeted(s.responder, h)), i, r)
  {
    assert s.responder == NewResponder(r) && h == Greeting(i, h.requestedAuth) by {
      hide ChallengeInvariant, AcceptanceInvariant, InitiatorInvariant, ProofInvariant, EmittedInvariant;
    }
    hide Inv, HelloError, Admissible, Agreed, SharedBits, GreatestShared, NegotiateProtocols;
    HelloVerdict(r.policy, h);
    GreetedSettles(r, h);
    assert Greeted(s.responder, h).authPath == Some(h.requestedAuth);
  }

  /** Only an answered hello changes what the responder holds. */
  lemma CallsKeepTerms(m: Machine, auth: AuthPath, derive: Derive, frame: HandshakeFrame, decision: ProofDecision)
    requires Coherent(m) && m.role == Responder
    ensures SameTerms(m, Start(m, auth, derive).0)
    ensures SameTerms(m, DecideIdentity(m, decision).0)
    ensures !(frame.Hello? && m.phase == AwaitingHello && HelloError(m.config.policy, frame).None?) ==>
              SameTerms(m, Receive(m, frame).0)
  {
    hide SelectionError, HelloError, ChallengeAcceptable, OfferConsistent;
  }

  lemma SameTermsStayGrounded(s: System, s': System, i: Config, r: Config)
    requires Grounded(s, i, r) && SameTerms(s.responder, s'.responder)
    ensures Grounded(s', i, r)
  {
    hide Admissible, Agreed, SharedBits, GreatestShared;
  }

  lemma StepKeepsGrounded(s: System, i: Config, r: Config, a: Action, derive: Derive)
    requires Inv(s, i, r) && Grounded(s, i, r) && Enabled(s, a)
    ensures Grounded(Step(s, a, derive), i, r)
  {
    assert CoherentSystem(s) && s.responder.config == r by { InvIsCoherent(s, i, r); }
    hide Inv, Grounded, Receive, Start, DecideIdentity, SameTerms, HelloError, Greeted;
    var frame := if a.Deliver? then a.frame else Reject(UnexpectedMessage);
    var auth := if a.StartBy? then a.auth else FirstPairing;
    var decision := if a.Decide? then a.decision else Refuse;
    CallsKeepTerms(s.responder, auth, derive, frame, decision);
    var s' := Step(s, a, derive);
    if a.Deliver? && a.role == Responder && frame.Hello? && s.responder.phase == AwaitingHello
       && HelloError(r.policy, frame).None?
    {
      HelloGrounds(s, i, r, frame);
      HelloEffect(s, frame);
      SameTermsStayGrounded(s.(responder := Greeted(s.responder, frame)), s', i, r);
    } else {
      SameTermsStayGrounded(s, s', i, r);
    }
  }

  lemma {:induction false} RunStaysGrounded(s: System, i: Config, r: Config, actions: seq<Action>, derive: Derive)
    requires Inv(s, i, r) && Grounded(s, i, r) && Legal(s, actions, derive)
    ensures Inv(Final(s, actions, derive), i, r) && Grounded(Final(s, actions, derive), i, r)
    decreases |actions|
  {
    hide Inv, Grounded, Step, Enabled;
    if actions != [] {
      InvIsCoherent(s, i, r);
      StepKeepsInv(s, i, r, actions[0], derive);
      StepKeepsGrounded(s, i, r, actions[0], derive);
      RunStaysGrounded(Step(s, actions[0], derive), i, r, actions[1..], derive);
    }
  }

  /** The path a responder reveals: by a challenge it sent, a proof it handed out or a session reported. */
  ghost predicate Reveals(s: System, auth: AuthPath) {
    || (exists f :: f in s.network && f.Challenge? && f.authPath == auth)
    || (exists q :: q in s.requests && q.authPath == auth)
    || (exists x :: x in s.emitted && x.1.authPath == auth)
  }

  /**
    In every run: whatever path the responder challenges, verifies or reports a session under, the
    initiator was entitled to it by the responder's policy, sent no more offers than the policy
    takes, and shares a link version and a protocol with it without any contradiction.
   */
  lemma OnlyTheEntitled(i: Config, r: Config, actions: seq<Action>, derive: Derive, auth: AuthPath)
    requires Legal(InitialSystem(i, r), actions, derive)
    requires Reveals(Final(InitialSystem(i, r), actions, derive), auth)
    ensures match auth
            case FirstPairing => r.policy.allowPairing
            case TrustedReconnect => i.identity.peerId in r.policy.trustedPeers
    ensures |Exposed(i.policy, auth)| <= r.policy.maxProtocolOffers
    ensures Admissible(r.policy, Greeting(i, auth))
  {
    hide Agreed, SharedBits, GreatestShared, AnyClash, AnyOverlap, Overlap;
    var s := Final(InitialSystem(i, r), actions, derive);
    InitialInv(i, r);
    RunStaysGrounded(InitialSystem(i, r), i, r, actions, derive);
    RevealedIsHeld(s, i, r, auth);
  }

  lemma RevealedIsHeld(s: System, i: Config, r: Config, auth: AuthPath)
    requires Inv(s, i, r) && Reveals(s, auth)
    ensures Negotiated(s.responder) && s.responder.authPath == Some(auth)
  {
  }

  /** The terms a session carries are the best the two configurations share. */
  ghost predicate BestShared(i: Config, r: Config, version: ProtocolVersion, capabilities: u64) {
    && GreatestShared(r.policy.linkVersions, i.policy.linkVersions, version)
    && SharedBits(r.policy.linkCapabilities, i.policy.linkCapabilities, capabilities)
  }

  /** In every run, challenges, selections and reported sessions carry exactly what the configurations share. */
  lemma TermsAreShared(i: Config, r: Config, actions: seq<Action>, derive: Derive)
    requires Legal(InitialSystem(i, r), actions, derive)
    ensures var s := Final(InitialSystem(i, r), actions, derive);
            && (forall f :: f in s.network && f.Challenge? ==>
                  && f.responder == r.identity && f.nonce == r.challengeNonce
                  && BestShared(i, r, f.linkVersion, f.linkCapabilities))
            && (forall f :: f in s.network && f.Selection? ==>
                  && s.responder.authPath.Some?
                  && Agreed(Exposed(r.policy, s.responder.authPath.value),
                            Exposed(i.policy, s.responder.authPath.value), f.selections))
            && (forall x :: x in s.emitted ==>
                  && BestShared(i, r, x.1.linkVersion, x.1.linkCapabilities)
                  && Agreed(Exposed(r.policy, x.1.authPath), Exposed(i.policy, x.1.authPath), x.1.protocols))
  {
    hide Agreed, SharedBits, GreatestShared, Admissible;
    var s := Final(InitialSystem(i, r), actions, derive);
    InitialInv(i, r);
    RunStaysGrounded(InitialSystem(i, r), i, r, actions, derive);
    HeldIsShared(s, i, r);
  }

  lemma HeldIsShared(s: System, i: Config, r: Config)
    requires Inv(s, i, r) && Grounded(s, i, r)
    ensures forall f :: f in s.network && f.Challenge? ==>
              && f.responder == r.identity && f.nonce == r.challengeNonce
              && BestShared(i, r, f.linkVersion, f.linkCapabilities)
    ensures forall f :: f in s.network && f.Selection? ==>
              && s.responder.authPath.Some?
              && Agreed(Exposed(r.policy, s.responder.authPath.value),
                        Exposed(i.policy, s.responder.authPath.value), f.selections)
    ensures forall x :: x in s.emitted ==>
              && BestShared(i, r, x.1.linkVersion, x.1.linkCapabilities)
              && Agreed(Exposed(r.policy, x.1.authPath), Exposed(i.policy, x.1.authPath), x.1.protocols)
  {
    hide Agreed, SharedBits, GreatestShared, Admissible;
  }
}
