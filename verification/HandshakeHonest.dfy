/** An honest exchange never trips over its own checks. */
module HandshakeHonest {
  import opened Base
  import opened Identity
  import opened Capabilities
  import opened HandshakeSpec
  import opened HandshakeRun
  import opened HandshakeTerms

  function OfferIds(offers: seq<ProtocolOffer>): (ids: seq<Id16>)
    ensures |ids| == |offers|
    ensures forall k :: 0 <= k < |ids| ==> ids[k] == offers[k].stableId
  {
    seq(|offers|, k requires 0 <= k < |offers| => offers[k].stableId)
  }

  /** A negotiated selection is never longer than the list of offers it was negotiated from. */
  lemma SelectionNoLongerThanOffers(local: seq<ProtocolOffer>, remote: seq<ProtocolOffer>)
    requires NegotiateProtocols(local, remote).Some?
    ensures |NegotiateProtocols(local, remote).value| <= |remote|
  {
    var selected := NegotiateProtocols(local, remote).value;
    NegotiationMeaning(local, remote);
    hide NegotiateProtocols, Joinable, Join;
    forall x | x in Ids(selected)
      ensures x in OfferIds(remote)
    {
      var k :| 0 <= k < |selected| && Ids(selected)[k] == x;
      assert selected[k] in selected;
      var o := FirstOffer(remote, x).value;
      var n :| 0 <= n < |remote| && remote[n] == o;
      assert OfferIds(remote)[n] == x;
    }
    DistinctFits(Ids(selected), OfferIds(remote));
  }

  /** A version negotiated from a range is one the range admits. */
  lemma NegotiatedVersionIsOffered(a: VersionRange, b: VersionRange)
    requires a.Negotiate(b).Some?
    ensures b.Negotiate(Exactly(a.Negotiate(b).value)).Some?
  {
    NegotiateIsGreatestShared(a, b);
    ExactlyAdmits(b, a.Negotiate(b).value);
  }

  /** What two offers join to is something the remote offer supports. */
  lemma JoinIsSupported(mine: ProtocolOffer, theirs: ProtocolOffer)
    requires mine.stableId == theirs.stableId && Joinable(mine, theirs)
    requires theirs.capabilities.IsBounded()
    ensures SelectionMatches(theirs, Join(mine, theirs))
  {
    NegotiatedVersionIsOffered(mine.versions, theirs.versions);
    IntersectGrantsNothingNew(mine.capabilities, theirs.capabilities);
  }

  /** The initiator's challenge check accepts whatever a responder computes from its hello. */
  lemma InitiatorAcceptsItsChallenge(m: Machine, p: Machine, auth: AuthPath, derive: Derive)
    requires m.role == Initiator && m.phase == Ready && Start(m, auth, derive).1.Ok?
    requires HelloError(p.config.policy, HelloOf(m, auth)).None?
    ensures ChallengeAcceptable(Start(m, auth, derive).0, ChallengeOf(Greeted(p, HelloOf(m, auth))))
  {
    NegotiatedVersionIsOffered(p.config.policy.linkVersions, m.config.policy.linkVersions);
    IntersectionIsSubset(p.config.policy.linkCapabilities, m.config.policy.linkCapabilities);
  }

  /** The initiator's selection check accepts whatever a responder negotiates from its hello. */
  lemma InitiatorAcceptsItsSelection(m: Machine, policy: Policy, auth: AuthPath, derive: Derive)
    requires m.role == Initiator && m.phase == Ready && Start(m, auth, derive).1.Ok?
    requires HelloError(policy, HelloOf(m, auth)).None?
    ensures var selected := NegotiateProtocols(LocalOffers(policy, auth), LocalOffers(m.config.policy, auth)).value;
            forall later: Machine :: later.config.policy == m.config.policy && later.authPath == Some(auth) ==>
                                       SelectionError(later, selected).None?
  {
    var local, remote := LocalOffers(policy, auth), LocalOffers(m.config.policy, auth);
    var selected := NegotiateProtocols(local, remote).value;
    NegotiationMeaning(local, remote);
    SelectionNoLongerThanOffers(local, remote);
    hide NegotiateProtocols, SelectionMatches, Joinable, Join;
    forall s | s in selected
      ensures Supported(remote, s)
    {
      var theirs := FirstOffer(remote, s.stableId).value;
      assert OfferConsistent(derive, theirs);
      JoinIsSupported(FirstOffer(local, s.stableId).value, theirs);
      assert theirs in remote && SelectionMatches(theirs, s);
    }
  }

  /* ---------------------------- The whole exchange ------------------------------- */

  /**
    When two configurations can meet on a path: the initiator's offers are sound and few enough for
    both sides, the responder entitles it to the path, the link versions overlap, no protocol both
    offer contradicts itself, they share one, and the proof is not too long.
   */
  ghost predicate CanMeet(i: Config, r: Config, auth: AuthPath, derive: Derive) {
    var mine, theirs := Exposed(i.policy, auth), Exposed(r.policy, auth);
    && |mine| <= i.policy.maxProtocolOffers && |mine| <= r.policy.maxProtocolOffers
    && (forall o :: o in mine ==> Sound(derive, o))
    && Entitled(r.policy, i.identity.peerId, auth)
    && Overlap(r.policy.linkVersions, i.policy.linkVersions)
    && !AnyClash(theirs, mine) && AnyOverlap(theirs, mine)
    && |i.identityProof| <= r.policy.maxIdentityProofBytes
  }

  /** The same, as the checks the two machines make. */
  predicate ChecksPass(i: Config, r: Config, auth: AuthPath, derive: Derive) {
    && Start(NewInitiator(i), auth, derive).1.Ok?
    && HelloError(r.policy, HelloOf(NewInitiator(i), auth)).None?
    && |i.identityProof| <= r.policy.maxIdentityProofBytes
  }

  datatype Exchange = Exchange(initiator: Machine, responder: Machine, last: Replies)

  /** The frame a successful call sends; a failed call sends a rejection instead. */
  function Sent(r: Replies): HandshakeFrame {
    if r.Ok? && r.value != [] && r.value[0].Send? then r.value[0].frame else Reject(UnexpectedMessage)
  }

  ghost function ToResponder(e: Exchange): Exchange
    requires Coherent(e.responder)
  {
    var res := Receive(e.responder, Sent(e.last));
    Exchange(e.initiator, res.0, res.1)
  }

  ghost function ToInitiator(e: Exchange): Exchange
    requires Coherent(e.initiator)
  {
    var res := Receive(e.initiator, Sent(e.last));
    Exchange(res.0, e.responder, res.1)
  }

  ghost function Opening(i: Config, r: Config, auth: AuthPath, derive: Derive): Exchange {
    var res := Start(NewInitiator(i), auth, derive);
    Exchange(res.0, NewResponder(r), res.1)
  }

  ghost function Deciding(e: Exchange): Exchange {
    var res := DecideIdentity(e.responder, Accept);
    Exchange(e.initiator, res.0, res.1)
  }

  /** hello, challenge, proof, acceptance, selection, confirm, confirmed: each delivered once, in order. */
  ghost function InOrder(i: Config, r: Config, auth: AuthPath, derive: Derive): Exchange {
    var e0 := Opening(i, r, auth, derive);
    var e1 := ToResponder(e0);
    StepsStayCoherent(NewResponder(r), auth, derive, Sent(e0.last), Accept);
    StepsStayCoherent(NewInitiator(i), auth, derive, Sent(e0.last), Accept);
    var e2 := ToInitiator(e1);
    StepsStayCoherent(e1.initiator, auth, derive, Sent(e1.last), Accept);
    var e3 := ToResponder(e2);
    StepsStayCoherent(e2.responder, auth, derive, Sent(e2.last), Accept);
    var e4 := Deciding(e3);
    StepsStayCoherent(e3.responder, auth, derive, Sent(e3.last), Accept);
    var e5 := ToInitiator(e4);
    StepsStayCoherent(e4.initiator, auth, derive, Sent(e4.last), Accept);
    var e6 := ToResponder(e5);
    ToInitiator(e6)
  }

  lemma CanMeetIsChecksPass(i: Config, r: Config, auth: AuthPath, derive: Derive)
    ensures CanMeet(i, r, auth, derive) <==> ChecksPass(i, r, auth, derive)
  {
    hide Start, HelloError, AnyClash, AnyOverlap, Overlap, Sound;
    StartVerdict(i, auth, derive);
    HelloVerdict(r.policy, Greeting(i, auth));
    assert HelloOf(NewInitiator(i), auth) == Greeting(i, auth);
  }

  /**
    An in-order exchange with an accepting verifier establishes both sides if and only if the two
    configurations can meet: no check the initiator makes on the answers ever stops it.
   */
  lemma HonestExchange(i: Config, r: Config, auth: AuthPath, derive: Derive)
    ensures var e := InOrder(i, r, auth, derive);
            && (e.initiator.phase == Established <==> CanMeet(i, r, auth, derive))
            && (CanMeet(i, r, auth, derive) ==>
                  && e.responder.phase == Established
                  && Negotiated(e.initiator) && Negotiated(e.responder)
                  && e.last == Ok([SessionEstablished(SessionOf(e.initiator))])
                  && SessionOf(e.initiator) == Mirror(SessionOf(e.responder)))
  {
    CanMeetIsChecksPass(i, r, auth, derive);
    hide CanMeet, ChecksPass, InOrder;
    if ChecksPass(i, r, auth, derive) {
      MeetingSucceeds(i, r, auth, derive);
    } else {
      NotMeetingFails(i, r, auth, derive);
    }
  }

  lemma GreetedHolds(p: Machine, h: HandshakeFrame)
    requires h.Hello? && HelloError(p.config.policy, h).None?
    ensures var m := Greeted(p, h);
            && Negotiated(m) && m.phase == AwaitingProof && m.role == p.role && m.config == p.config
            && m.remote == Some(h.identity) && m.authPath == Some(h.requestedAuth)
            && m.selected == NegotiateProtocols(LocalOffers(p.config.policy, h.requestedAuth), h.protocols).value
  {
  }

  /** The initiator once it has accepted the challenge the responder `p1` sent it. */
  function Challenged(i: Config, auth: AuthPath, p1: Machine): Machine
    requires Negotiated(p1)
  {
    NewInitiator(i).(authPath := Some(auth), remote := Some(p1.config.identity), linkVersion := p1.linkVersion,
                     linkCapabilities := p1.linkCapabilities, phase := AwaitingSelection)
  }

  /** The first three frames go through whenever the hello is sent and accepted. */
  lemma GreetingSucceeds(i: Config, r: Config, auth: AuthPath, derive: Derive)
    requires Start(NewInitiator(i), auth, derive).1.Ok?
    requires HelloError(r.policy, HelloOf(NewInitiator(i), auth)).None?
    ensures var p1 := Greeted(NewResponder(r), HelloOf(NewInitiator(i), auth));
            var e1 := ToResponder(Opening(i, r, auth, derive));
            && Negotiated(p1) && Coherent(p1) && Coherent(e1.initiator)
            && ToInitiator(e1) == Exchange(Challenged(i, auth, p1), p1, Ok([Send(IdentityProof(i.identityProof))]))
  {
    hide HelloError, ChallengeAcceptable, NegotiateProtocols, BitAnd, Greeted, LocalOffers;
    var m, p := NewInitiator(i), NewResponder(r);
    InitiatorAcceptsItsChallenge(m, p, auth, derive);
    GreetedHolds(p, HelloOf(m, auth));
  }

  lemma MeetingSucceeds(i: Config, r: Config, auth: AuthPath, derive: Derive)
    requires ChecksPass(i, r, auth, derive)
    ensures var e := InOrder(i, r, auth, derive);
            && e.initiator.phase == Established && e.responder.phase == Established
            && Negotiated(e.initiator) && Negotiated(e.responder)
            && e.last == Ok([SessionEstablished(SessionOf(e.initiator))])
            && SessionOf(e.initiator) == Mirror(SessionOf(e.responder))
  {
    hide HelloError, SelectionError, NegotiateProtocols, Greeted, LocalOffers, Opening;
    GreetingSucceeds(i, r, auth, derive);
    InitiatorAcceptsItsSelection(NewInitiator(i), r.policy, auth, derive);
    GreetedHolds(NewResponder(r), HelloOf(NewInitiator(i), auth));
    var p1 := Greeted(NewResponder(r), HelloOf(NewInitiator(i), auth));
    assert SelectionError(Challenged(i, auth, p1), p1.selected).None?;
    hide ToResponder;
    var e2 := Exchange(Challenged(i, auth, p1), p1, Ok([Send(IdentityProof(i.identityProof))]));
    RestSucceeds(e2);
  }

  /** From an acceptable proof on, an accepting verifier leads both sides to the end. */
  lemma RestSucceeds(e2: Exchange)
    requires Coherent(e2.initiator) && e2.initiator.role == Initiator && e2.initiator.phase == AwaitingSelection
    requires Coherent(e2.responder) && e2.responder.role == Responder && e2.responder.phase == AwaitingProof
    requires e2.last.Ok? && |e2.last.value| == 1 && e2.last.value[0].Send? && e2.last.value[0].frame.IdentityProof?
    requires |e2.last.value[0].frame.proof| <= e2.responder.config.policy.maxIdentityProofBytes
    requires SelectionError(e2.initiator, e2.responder.selected).None?
    ensures var e4 := Deciding(ToResponder(e2));
            && Coherent(e4.initiator) && Coherent(e4.responder)
            && var e5 := ToInitiator(e4);
            && Coherent(e5.initiator) && Coherent(e5.responder)
            && var e6 := ToResponder(e5);
            && Coherent(e6.initiator)
            && var e := ToInitiator(e6);
            && e.initiator == e2.initiator.(config := e2.initiator.config.(sessionId := e2.responder.config.sessionId),
                                            selected := e2.responder.selected, phase := Established)
            && e.responder == e2.responder.(pendingVerification := None, phase := Established)
            && e.last == Ok([SessionEstablished(SessionOf(e.initiator))])
  {
    hide SelectionError;
    var e4 := Deciding(ToResponder(e2));
    assert e4.initiator == e2.initiator;
    assert Sent(e4.last) == Selection(e2.responder.config.sessionId, e2.responder.selected);
    var e5 := ToInitiator(e4);
    assert Sent(e5.last) == Confirm(e2.responder.config.sessionId);
    var e6 := ToResponder(e5);
    assert Sent(e6.last) == Confirmed(e2.responder.config.sessionId);
  }

  /** A rejection, or anything at all once failed, leaves a machine failed. */
  lemma FailureIsFinal(m: Machine, f: HandshakeFrame)
    requires Coherent(m) && (m.phase == Failed || f.Reject?)
    ensures Receive(m, f).0.phase == Failed && Receive(m, f).1.Err?
  {
  }

  lemma NotMeetingFails(i: Config, r: Config, auth: AuthPath, derive: Derive)
    requires !ChecksPass(i, r, auth, derive)
    ensures InOrder(i, r, auth, derive).initiator.phase != Established
  {
    hide HelloError, SelectionError, ChallengeAcceptable, NegotiateProtocols, Greeted, LocalOffers, Receive, Start;
    var e0 := Opening(i, r, auth, derive);
    var e1 := ToResponder(e0);
    StepsStayCoherent(NewResponder(r), auth, derive, Sent(e0.last), Accept);
    StepsStayCoherent(NewInitiator(i), auth, derive, Sent(e0.last), Accept);
    var e2 := ToInitiator(e1);
    StepsStayCoherent(e1.initiator, auth, derive, Sent(e1.last), Accept);
    var e3 := ToResponder(e2);
    StepsStayCoherent(e2.responder, auth, derive, Sent(e2.last), Accept);
    var e4 := Deciding(e3);
    StepsStayCoherent(e3.responder, auth, derive, Sent(e3.last), Accept);
    var e5 := ToInitiator(e4);
    StepsStayCoherent(e4.initiator, auth, derive, Sent(e4.last), Accept);
    var e6 := ToResponder(e5);
    if Start(NewInitiator(i), auth, derive).1.Err? || HelloError(r.policy, HelloOf(NewInitiator(i), auth)).Some? {
      EarlyFailure(i, r, auth, derive);
      FailureIsFinal(e4.initiator, Sent(e4.last));
    } else {
      GreetingSucceeds(i, r, auth, derive);
      GreetedHolds(NewResponder(r), HelloOf(NewInitiator(i), auth));
      LateFailure(e2);
      FailureIsFinal(e4.initiator, Sent(e4.last));
    }
    FailureIsFinal(e6.initiator, Sent(e6.last));
  }

  /** If the hello cannot be sent or is refused, the initiator has failed by the time of the proof. */
  lemma EarlyFailure(i: Config, r: Config, auth: AuthPath, derive: Derive)
    requires || Start(NewInitiator(i), auth, derive).1.Err?
             || HelloError(r.policy, HelloOf(NewInitiator(i), auth)).Some?
    ensures var e0 := Opening(i, r, auth, derive);
            var e1 := ToResponder(e0);
            Coherent(e1.initiator) && ToInitiator(e1).initiator.phase == Failed
  {
    hide HelloError, NegotiateProtocols, LocalOffers;
    var e0 := Opening(i, r, auth, derive);
    var e1 := ToResponder(e0);
    if e0.last.Err? {
      FailureIsFinal(e1.initiator, Sent(e1.last));
    } else {
      var m := NewResponder(r);
      assert Receive(m, HelloOf(NewInitiator(i), auth)).1.Err?;
      FailureIsFinal(e1.initiator, Sent(e1.last));
    }
  }

  lemma LateFailure(e2: Exchange)
    requires Coherent(e2.responder)
    requires !Sent(e2.last).IdentityProof?
          || e2.responder.phase != AwaitingProof
          || |Sent(e2.last).proof| > e2.responder.config.policy.maxIdentityProofBytes
    requires e2.responder.role == Responder && e2.responder.phase in {AwaitingProof, Failed}
    ensures Deciding(ToResponder(e2)).last.Err?
  {
  }
}
