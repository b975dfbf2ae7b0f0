/**
  The handshake machine as a value (`handshake.rs`). Class `Handshake.HandshakeMachine` implements
  these functions in place; the two-party theorems are about them.
 */
module HandshakeSpec {
  import opened Base
  import opened Identity
  import opened Capabilities

  datatype AuthPath = FirstPairing | TrustedReconnect

  datatype ErrorKind =
    | UnexpectedMessage | IncompatibleVersion | NoSharedProtocol | ProtocolConflict | PairingDisabled
    | PeerNotTrusted | IdentityRejected | LimitExceeded | InvalidConfirmation

  datatype HandshakeFrame =
    | Hello(identity: Identity, linkVersions: VersionRange, linkCapabilities: u64,
            protocols: seq<ProtocolOffer>, requestedAuth: AuthPath)
    | Challenge(responder: Identity, linkVersion: ProtocolVersion, linkCapabilities: u64,
                authPath: AuthPath, nonce: Id32)
    | IdentityProof(proof: Bytes)
    | Selection(sessionId: Id16, selections: seq<ProtocolSelection>)
    | Confirm(sessionId: Id16)
    | Confirmed(sessionId: Id16)
    | Reject(kind: ErrorKind)

  datatype Role = Initiator | Responder

  datatype Phase =
    | Ready | AwaitingHello | AwaitingChallenge | AwaitingProof | AwaitingVerification
    | AwaitingSelection | AwaitingConfirmation | AwaitingConfirmed | Established | Failed

  datatype VerificationRequest = VerificationRequest(peerId: Id32, authPath: AuthPath, nonce: Id32, proof: Bytes)

  datatype ProofDecision = Accept | Refuse

  datatype NegotiatedSession = NegotiatedSession(
    sessionId: Id16, local: Identity, remote: Identity, linkVersion: ProtocolVersion,
    linkCapabilities: u64, protocols: seq<ProtocolSelection>, authPath: AuthPath)

  datatype Output =
    | Send(frame: HandshakeFrame)
    | VerifyIdentity(request: VerificationRequest)
    | SessionEstablished(session: NegotiatedSession)

  datatype Policy = Policy(
    linkVersions: VersionRange, linkCapabilities: u64, protocols: seq<ProtocolOffer>,
    pairingProtocols: seq<ProtocolOffer>, allowPairing: bool, trustedPeers: set<Id32>,
    maxProtocolOffers: nat, maxIdentityProofBytes: nat)

  datatype Config = Config(identity: Identity, policy: Policy, challengeNonce: Id32, identityProof: Bytes,
                           sessionId: Id16)

  datatype Machine = Machine(
    role: Role, phase: Phase, config: Config, remote: Option<Identity>, authPath: Option<AuthPath>,
    linkVersion: Option<ProtocolVersion>, linkCapabilities: u64, selected: seq<ProtocolSelection>,
    pendingVerification: Option<VerificationRequest>)

  type Replies = Result<seq<Output>, ErrorKind>

  function NewInitiator(config: Config): Machine {
    Machine(Initiator, Ready, config, None, None, None, 0, [], None)
  }

  function NewResponder(config: Config): Machine {
    Machine(Responder, AwaitingHello, config, None, None, None, 0, [], None)
  }

  /** What each phase has already learned; this is why the `expect` calls of the code never fire. */
  predicate Coherent(m: Machine) {
    && (m.role == Initiator ==>
          && m.phase in {Ready, AwaitingChallenge, AwaitingSelection, AwaitingConfirmed, Established, Failed}
          && (m.phase == AwaitingChallenge ==> m.authPath.Some?)
          && (m.phase in {AwaitingSelection, AwaitingConfirmed, Established} ==> Negotiated(m)))
    && (m.role == Responder ==>
          && m.phase in {AwaitingHello, AwaitingProof, AwaitingVerification, AwaitingConfirmation, Established, Failed}
          && (m.phase in {AwaitingProof, AwaitingVerification, AwaitingConfirmation, Established} ==> Negotiated(m))
          && (m.phase == AwaitingVerification ==> m.pendingVerification.Some?))
  }

  predicate Negotiated(m: Machine) {
    m.remote.Some? && m.authPath.Some? && m.linkVersion.Some?
  }

  /* -------------------------------- Negotiation --------------------------------- */

  function LocalOffers(policy: Policy, auth: AuthPath): seq<ProtocolOffer> {
    if auth == FirstPairing then policy.pairingProtocols else policy.protocols
  }

  predicate OfferConsistent(derive: Derive, o: ProtocolOffer) {
    && o.schema.revision != 0
    && o.capabilities.protocolId == o.stableId
    && o.capabilities.IsBounded()
    && (o.debugIdentity.Some? ==> derive(o.debugIdentity.value.authority, o.debugIdentity.value.name) == o.stableId)
  }

  /** The first offer with the given id, as `iter().find` returns it. */
  function FirstOffer(offers: seq<ProtocolOffer>, id: Id16): (o: Option<ProtocolOffer>)
    ensures o.Some? ==> o.value in offers && o.value.stableId == id
    ensures o.None? ==> forall k :: 0 <= k < |offers| ==> offers[k].stableId != id
  {
    if offers == [] then None
    else if offers[0].stableId == id then Some(offers[0])
    else FirstOffer(offers[1..], id)
  }

  predicate OfferConflict(a: ProtocolOffer, b: ProtocolOffer) {
    a.schema != b.schema || DebugConflict(a.debugIdentity, b.debugIdentity)
  }

  /** Two offers of one protocol cannot be joined: negotiation as a whole fails. */
  predicate JoinFails(a: ProtocolOffer, b: ProtocolOffer) {
    OfferConflict(a, b) || (a.versions.Negotiate(b.versions).Some? && a.capabilities.Intersect(b.capabilities).None?)
  }

  predicate Joinable(a: ProtocolOffer, b: ProtocolOffer) {
    !JoinFails(a, b) && a.versions.Negotiate(b.versions).Some?
  }

  function Join(a: ProtocolOffer, b: ProtocolOffer): ProtocolSelection
    requires Joinable(a, b)
  {
    ProtocolSelection(a.stableId, a.versions.Negotiate(b.versions).value, a.schema,
                      a.capabilities.Intersect(b.capabilities).value)
  }

  /** The result of the negotiation loop after the first `n` local offers. */
  function NegotiateUpTo(local: seq<ProtocolOffer>, remote: seq<ProtocolOffer>, n: nat): Option<seq<ProtocolSelection>>
    requires n <= |local|
  {
    if n == 0 then Some([])
    else
      var before := NegotiateUpTo(local, remote, n - 1);
      var mine := local[n - 1];
      var theirs := FirstOffer(remote, mine.stableId);
      if before.None? then None
      else if FirstOffer(local[..n - 1], mine.stableId).Some? || theirs.None? then before
      else if JoinFails(mine, theirs.value) then None
      else if Joinable(mine, theirs.value) then Some(before.value + [Join(mine, theirs.value)])
      else before
  }

  function NegotiateProtocols(local: seq<ProtocolOffer>, remote: seq<ProtocolOffer>): Option<seq<ProtocolSelection>> {
    NegotiateUpTo(local, remote, |local|)
  }

  predicate SelectionMatches(o: ProtocolOffer, s: ProtocolSelection) {
    && o.stableId == s.stableId && o.schema == s.schema
    && o.capabilities.protocolId == s.capabilities.protocolId
    && s.capabilities.IsBounded() && s.capabilities.IsSubsetOf(o.capabilities)
    && o.versions.Negotiate(Exactly(s.version)).Some?
  }

  predicate Supported(offers: seq<ProtocolOffer>, s: ProtocolSelection) {
    exists o :: o in offers && SelectionMatches(o, s)
  }

  function Ids(selections: seq<ProtocolSelection>): (ids: seq<Id16>)
    ensures |ids| == |selections|
    ensures forall k :: 0 <= k < |ids| ==> ids[k] == selections[k].stableId
  {
    seq(|selections|, k requires 0 <= k < |selections| => selections[k].stableId)
  }

  predicate DistinctIds(selections: seq<ProtocolSelection>) {
    forall i, j :: 0 <= i < j < |selections| ==> selections[i].stableId != selections[j].stableId
  }

  function SelectionError(m: Machine, selections: seq<ProtocolSelection>): Option<ErrorKind> {
    if selections == [] || |selections| > m.config.policy.maxProtocolOffers then Some(NoSharedProtocol)
    else if m.authPath.None? then Some(UnexpectedMessage)
    else if !DistinctIds(selections)
         || exists s :: s in selections && !Supported(LocalOffers(m.config.policy, m.authPath.value), s)
    then Some(ProtocolConflict)
    else None
  }

  /* --------------------------------- Operations --------------------------------- */

  function Fail(m: Machine, kind: ErrorKind): (Machine, Replies) {
    (m.(phase := Failed), Err(kind))
  }

  function HelloOf(m: Machine, auth: AuthPath): HandshakeFrame {
    Hello(m.config.identity, m.config.policy.linkVersions, m.config.policy.linkCapabilities,
          LocalOffers(m.config.policy, auth), auth)
  }

  function Start(m: Machine, auth: AuthPath, derive: Derive): (Machine, Replies) {
    var offers := LocalOffers(m.config.policy, auth);
    if m.role != Initiator || m.phase != Ready then Fail(m, UnexpectedMessage)
    else if |offers| > m.config.policy.maxProtocolOffers then Fail(m, LimitExceeded)
    else if exists o :: o in offers && !OfferConsistent(derive, o) then Fail(m, ProtocolConflict)
    else (m.(authPath := Some(auth), phase := AwaitingChallenge), Ok([Send(HelloOf(m, auth))]))
  }

  function SessionOf(m: Machine): NegotiatedSession
    requires Negotiated(m)
  {
    NegotiatedSession(m.config.sessionId, m.config.identity, m.remote.value, m.linkVersion.value,
                      m.linkCapabilities, m.selected, m.authPath.value)
  }

  function HelloError(policy: Policy, h: HandshakeFrame): Option<ErrorKind>
    requires h.Hello?
  {
    if |h.protocols| > policy.maxProtocolOffers then Some(LimitExceeded)
    else if policy.linkVersions.Negotiate(h.linkVersions).None? then Some(IncompatibleVersion)
    else if h.requestedAuth == FirstPairing && !policy.allowPairing then Some(PairingDisabled)
    else if h.requestedAuth == TrustedReconnect && h.identity.peerId !in policy.trustedPeers then Some(PeerNotTrusted)
    else
      var selected := NegotiateProtocols(LocalOffers(policy, h.requestedAuth), h.protocols);
      if selected.None? then Some(ProtocolConflict)
      else if selected.value == [] then Some(NoSharedProtocol)
      else None
  }

  /** The responder's state after accepting a hello. */
  function Greeted(m: Machine, h: HandshakeFrame): Machine
    requires h.Hello? && HelloError(m.config.policy, h).None?
  {
    var policy := m.config.policy;
    m.(remote := Some(h.identity), authPath := Some(h.requestedAuth),
       linkVersion := policy.linkVersions.Negotiate(h.linkVersions),
       linkCapabilities := BitAnd(policy.linkCapabilities, h.linkCapabilities),
       selected := NegotiateProtocols(LocalOffers(policy, h.requestedAuth), h.protocols).value,
       phase := AwaitingProof)
  }

  function ChallengeOf(m: Machine): HandshakeFrame
    requires Negotiated(m)
  {
    Challenge(m.config.identity, m.linkVersion.value, m.linkCapabilities, m.authPath.value, m.config.challengeNonce)
  }

  function ReceiveHello(m: Machine, h: HandshakeFrame): (Machine, Replies)
    requires h.Hello?
  {
    var error := HelloError(m.config.policy, h);
    if error.Some? then Fail(m, error.value)
    else (Greeted(m, h), Ok([Send(ChallengeOf(Greeted(m, h)))]))
  }

  predicate ChallengeAcceptable(m: Machine, c: HandshakeFrame)
    requires c.Challenge?
  {
    && m.config.policy.linkVersions.Negotiate(Exactly(c.linkVersion)).Some?
    && m.authPath == Some(c.authPath)
    && SubsetOf(c.linkCapabilities, m.config.policy.linkCapabilities)
  }

  function Receive(m: Machine, frame: HandshakeFrame): (Machine, Replies)
    requires Coherent(m)
  {
    match (m.role, m.phase, frame)
    case (Responder, AwaitingHello, Hello(_, _, _, _, _)) => ReceiveHello(m, frame)
    case (Initiator, AwaitingChallenge, Challenge(responder, version, caps, auth, _)) =>
      if !ChallengeAcceptable(m, frame) then Fail(m, IncompatibleVersion)
      else
        (m.(remote := Some(responder), linkVersion := Some(version), linkCapabilities := caps,
            phase := AwaitingSelection),
         Ok([Send(IdentityProof(m.config.identityProof))]))
    case (Responder, AwaitingProof, IdentityProof(proof)) =>
      if |proof| > m.config.policy.maxIdentityProofBytes then Fail(m, LimitExceeded)
      else
        var request := VerificationRequest(m.remote.value.peerId, m.authPath.value, m.config.challengeNonce, proof);
        (m.(pendingVerification := Some(request), phase := AwaitingVerification), Ok([VerifyIdentity(request)]))
    case (Initiator, AwaitingSelection, Selection(sessionId, selections)) =>
      if SelectionError(m, selections).Some? then Fail(m, SelectionError(m, selections).value)
      else
        (m.(config := m.config.(sessionId := sessionId), selected := selections, phase := AwaitingConfirmed),
         Ok([Send(Confirm(sessionId))]))
    case (Responder, AwaitingConfirmation, Confirm(sessionId)) =>
      if sessionId != m.config.sessionId then Fail(m, InvalidConfirmation)
      else
        (m.(phase := Established), Ok([Send(Confirmed(sessionId)), SessionEstablished(SessionOf(m))]))
    case (Initiator, AwaitingConfirmed, Confirmed(sessionId)) =>
      if sessionId != m.config.sessionId then Fail(m, InvalidConfirmation)
      else (m.(phase := Established), Ok([SessionEstablished(SessionOf(m))]))
    case (_, _, Reject(kind)) => Fail(m, kind)
    case _ => Fail(m, UnexpectedMessage)
  }

  /** The six role, phase and frame combinations the protocol makes progress on. */
  predicate Expected(m: Machine, f: HandshakeFrame) {
    || (m.role == Responder && m.phase == AwaitingHello && f.Hello?)
    || (m.role == Initiator && m.phase == AwaitingChallenge && f.Challenge?)
    || (m.role == Responder && m.phase == AwaitingProof && f.IdentityProof?)
    || (m.role == Initiator && m.phase == AwaitingSelection && f.Selection?)
    || (m.role == Responder && m.phase == AwaitingConfirmation && f.Confirm?)
    || (m.role == Initiator && m.phase == AwaitingConfirmed && f.Confirmed?)
  }

  /** Anything else ends the exchange, an established session's included. */
  lemma OtherwiseFails(m: Machine, f: HandshakeFrame)
    requires Coherent(m)
    ensures !Expected(m, f) ==> Receive(m, f) == Fail(m, if f.Reject? then f.kind else UnexpectedMessage)
  {
  }

  function DecideIdentity(m: Machine, decision: ProofDecision): (Machine, Replies) {
    if m.role != Responder || m.phase != AwaitingVerification then Fail(m, UnexpectedMessage)
    else if m.pendingVerification.None? then Fail(m, UnexpectedMessage)
    else
      var taken := m.(pendingVerification := None);
      if decision == Refuse then Fail(taken, IdentityRejected)
      else
        (taken.(phase := AwaitingConfirmation), Ok([Send(Selection(m.config.sessionId, m.selected))]))
  }

  lemma StepsStayCoherent(m: Machine, auth: AuthPath, derive: Derive, frame: HandshakeFrame, decision: ProofDecision)
    requires Coherent(m)
    ensures Coherent(Start(m, auth, derive).0)
    ensures Coherent(Receive(m, frame).0)
    ensures Coherent(DecideIdentity(m, decision).0)
  {
  }

  /* --------------------------- What negotiation means ---------------------------- */

  lemma {:induction false} FirstOfferExtend(offers: seq<ProtocolOffer>, o: ProtocolOffer, id: Id16)
    ensures FirstOffer(offers + [o], id)
         == if FirstOffer(offers, id).Some? then FirstOffer(offers, id)
            else if o.stableId == id then Some(o) else None
  {
    if offers == [] {
      assert offers + [o] == [o];
    } else {
      assert (offers + [o])[1..] == offers[1..] + [o];
      FirstOfferExtend(offers[1..], o, id);
    }
  }

  /** Both sides offer the protocol and their first offers of it agree on a version. */
  predicate Shared(local: seq<ProtocolOffer>, remote: seq<ProtocolOffer>, id: Id16) {
    && FirstOffer(local, id).Some? && FirstOffer(remote, id).Some?
    && Joinable(FirstOffer(local, id).value, FirstOffer(remote, id).value)
  }

  ghost predicate AnyJoinFails(local: seq<ProtocolOffer>, remote: seq<ProtocolOffer>) {
    exists id: Id16 ::
      && FirstOffer(local, id).Some? && FirstOffer(remote, id).Some?
      && JoinFails(FirstOffer(local, id).value, FirstOffer(remote, id).value)
  }

  ghost predicate SelectsExactly(local: seq<ProtocolOffer>, remote: seq<ProtocolOffer>, selected: seq<ProtocolSelection>) {
    && DistinctIds(selected)
    && (forall s :: s in selected ==>
          Shared(local, remote, s.stableId)
          && s == Join(FirstOffer(local, s.stableId).value, FirstOffer(remote, s.stableId).value))
    && (forall id: Id16 :: Shared(local, remote, id) ==> exists s :: s in selected && s.stableId == id)
  }

  /**
    Negotiation fails exactly when some protocol both sides offer cannot be joined; otherwise it
    selects every protocol with an agreed version, once, with what the two first offers join to.
   */
  lemma {:induction false} NegotiationMeaning(local: seq<ProtocolOffer>, remote: seq<ProtocolOffer>)
    ensures NegotiateProtocols(local, remote).None? <==> AnyJoinFails(local, remote)
    ensures NegotiateProtocols(local, remote).Some? ==>
              SelectsExactly(local, remote, NegotiateProtocols(local, remote).value)
  {
    NegotiationPrefix(local, remote, |local|);
    assert local[..|local|] == local;
  }

  lemma {:induction false} NegotiationPrefix(local: seq<ProtocolOffer>, remote: seq<ProtocolOffer>, n: nat)
    requires n <= |local|
    ensures NegotiateUpTo(local, remote, n).None? <==> AnyJoinFails(local[..n], remote)
    ensures NegotiateUpTo(local, remote, n).Some? ==>
              SelectsExactly(local[..n], remote, NegotiateUpTo(local, remote, n).value)
  {
    hide SelectsExactly, AnyJoinFails, JoinFails, Joinable, Join, FirstOffer;
    if n > 0 {
      NegotiationPrefix(local, remote, n - 1);
      var earlier, mine := local[..n - 1], local[n - 1];
      assert local[..n] == earlier + [mine];
      NegotiationExtends(earlier, remote, mine);
      JoinFailsExtends(earlier, remote, mine);
      var before := NegotiateUpTo(local, remote, n - 1);
      if before.Some? && !AnyJoinFails(local[..n], remote) {
        if FirstOffer(earlier, mine.stableId).None? && Shared(local[..n], remote, mine.stableId) {
          SelectionExtends(earlier, remote, mine, before.value);
        } else {
          SelectionUnchanged(earlier, remote, mine, before.value);
        }
      }
    } else {
      NegotiationOfNothing(local[..0], remote);
    }
  }

  lemma NegotiationOfNothing(local: seq<ProtocolOffer>, remote: seq<ProtocolOffer>)
    requires local == []
    ensures !AnyJoinFails(local, remote) && SelectsExactly(local, remote, [])
  {
  }

  lemma JoinFailsExtends(local: seq<ProtocolOffer>, remote: seq<ProtocolOffer>, mine: ProtocolOffer)
    ensures AnyJoinFails(local + [mine], remote)
       <==> || AnyJoinFails(local, remote)
            || (FirstOffer(local, mine.stableId).None? && FirstOffer(remote, mine.stableId).Some?
                && JoinFails(mine, FirstOffer(remote, mine.stableId).value))
  {
    NegotiationExtends(local, remote, mine);
    if AnyJoinFails(local, remote) {
      var id: Id16 :|
        && FirstOffer(local, id).Some? && FirstOffer(remote, id).Some?
        && JoinFails(FirstOffer(local, id).value, FirstOffer(remote, id).value);
      assert FirstOffer(local + [mine], id) == FirstOffer(local, id);
    }
  }

  lemma SelectionUnchanged(local: seq<ProtocolOffer>, remote: seq<ProtocolOffer>, mine: ProtocolOffer,
                           selected: seq<ProtocolSelection>)
    requires SelectsExactly(local, remote, selected)
    requires FirstOffer(local, mine.stableId).Some? || !Shared(local + [mine], remote, mine.stableId)
    ensures SelectsExactly(local + [mine], remote, selected)
  {
    NegotiationExtends(local, remote, mine);
    forall id: Id16 | Shared(local + [mine], remote, id)
      ensures exists s :: s in selected && s.stableId == id
    {
      assert Shared(local, remote, id);
    }
  }

  /** Adding one local offer changes the answer only for its own id, and only if that id is new. */
  lemma NegotiationExtends(local: seq<ProtocolOffer>, remote: seq<ProtocolOffer>, mine: ProtocolOffer)
    ensures forall id: Id16 :: id != mine.stableId || FirstOffer(local, id).Some? ==>
              FirstOffer(local + [mine], id) == FirstOffer(local, id)
    ensures FirstOffer(local, mine.stableId).None? ==> FirstOffer(local + [mine], mine.stableId) == Some(mine)
  {
    forall id: Id16
      ensures id != mine.stableId || FirstOffer(local, id).Some? ==>
                FirstOffer(local + [mine], id) == FirstOffer(local, id)
    {
      FirstOfferExtend(local, mine, id);
    }
    FirstOfferExtend(local, mine, mine.stableId);
  }

  lemma SelectionExtends(local: seq<ProtocolOffer>, remote: seq<ProtocolOffer>, mine: ProtocolOffer,
                         selected: seq<ProtocolSelection>)
    requires SelectsExactly(local, remote, selected) && FirstOffer(local, mine.stableId).None?
    requires Shared(local + [mine], remote, mine.stableId)
    requires FirstOffer(local + [mine], mine.stableId) == Some(mine)
    ensures SelectsExactly(local + [mine], remote,
                           selected + [Join(mine, FirstOffer(remote, mine.stableId).value)])
  {
    NegotiationExtends(local, remote, mine);
    var added := Join(mine, FirstOffer(remote, mine.stableId).value);
    var all := selected + [added];
    assert all[|selected|] == added;
    forall id: Id16 | Shared(local + [mine], remote, id)
      ensures exists s :: s in all && s.stableId == id
    {
      if id == mine.stableId {
        assert added in all && added.stableId == id;
      } else {
        assert Shared(local, remote, id);
        var s :| s in selected && s.stableId == id;
        assert s in all;
      }
    }
  }
}
