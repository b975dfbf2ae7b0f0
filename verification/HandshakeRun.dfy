/**
  One initiator and one responder over a network that may lose, reorder and duplicate frames, and
  may deliver a frame back to its sender, but forges nothing except rejections.
 */
module HandshakeRun {
  import opened Base
  import opened Capabilities
  import opened HandshakeSpec

  /**
    `network` holds every frame ever sent. `emitted` lists the sessions reported as established, in
    order; `requests` the proofs handed to the external verifier; `accepted` records that the
    verifier's acceptance was taken.
   */
  datatype System = System(
    initiator: Machine, responder: Machine, network: set<HandshakeFrame>,
    emitted: seq<(Role, NegotiatedSession)>, requests: seq<VerificationRequest>, accepted: bool)

  datatype Action =
    | StartBy(role: Role, auth: AuthPath)
    | Deliver(role: Role, frame: HandshakeFrame)
    | Decide(role: Role, decision: ProofDecision)
    | InjectReject(kind: ErrorKind)

  ghost function InitialSystem(i: Config, r: Config): System {
    System(NewInitiator(i), NewResponder(r), {}, [], [], false)
  }

  function Party(s: System, role: Role): Machine {
    if role == Initiator then s.initiator else s.responder
  }

  /** The frames, sessions and requests in a reply. */
  function Frames(r: Replies): set<HandshakeFrame> {
    if r.Err? then {} else set o | o in r.value && o.Send? :: o.frame
  }

  function Sessions(role: Role, outputs: seq<Output>): seq<(Role, NegotiatedSession)> {
    if outputs == [] then []
    else
      (if outputs[0].SessionEstablished? then [(role, outputs[0].session)] else [])
      + Sessions(role, outputs[1..])
  }

  function Requests(outputs: seq<Output>): seq<VerificationRequest> {
    if outputs == [] then []
    else (if outputs[0].VerifyIdentity? then [outputs[0].request] else []) + Requests(outputs[1..])
  }

  ghost function Absorb(s: System, role: Role, r: (Machine, Replies)): System {
    var outputs := if r.1.Ok? then r.1.value else [];
    s.(initiator := if role == Initiator then r.0 else s.initiator,
       responder := if role == Responder then r.0 else s.responder,
       network := s.network + Frames(r.1),
       emitted := s.emitted + Sessions(role, outputs),
       requests := s.requests + Requests(outputs))
  }

  ghost predicate CoherentSystem(s: System) {
    && Coherent(s.initiator) && s.initiator.role == Initiator
    && Coherent(s.responder) && s.responder.role == Responder
  }

  ghost predicate Enabled(s: System, a: Action) {
    a.Deliver? ==> a.frame in s.network
  }

  ghost function Step(s: System, a: Action, derive: Derive): System
    requires CoherentSystem(s)
  {
    match a
    case StartBy(role, auth) => Absorb(s, role, Start(Party(s, role), auth, derive))
    case Deliver(role, frame) => Absorb(s, role, Receive(Party(s, role), frame))
    case Decide(role, decision) =>
      var r := DecideIdentity(Party(s, role), decision);
      Absorb(s, role, r).(accepted := s.accepted || (r.1.Ok? && decision == Accept))
    case InjectReject(kind) => s.(network := s.network + {Reject(kind)})
  }

  /** Every action of the run is possible when it happens. */
  ghost predicate Legal(s: System, actions: seq<Action>, derive: Derive)
    requires CoherentSystem(s)
    decreases |actions|
  {
    actions != [] ==>
      Enabled(s, actions[0]) && CoherentSystem(Step(s, actions[0], derive))
      && Legal(Step(s, actions[0], derive), actions[1..], derive)
  }

  ghost function Final(s: System, actions: seq<Action>, derive: Derive): System
    requires CoherentSystem(s) && Legal(s, actions, derive)
    decreases |actions|
  {
    if actions == [] then s else Final(Step(s, actions[0], derive), actions[1..], derive)
  }

  /* -------------------------------- The invariant ------------------------------- */

  /** The responder's session as the other end should see it. */
  function Mirror(t: NegotiatedSession): NegotiatedSession {
    t.(local := t.remote, remote := t.local)
  }

  ghost predicate HelloInvariant(s: System, i: Config) {
    && s.initiator.config == i.(sessionId := s.initiator.config.sessionId)
    && (s.initiator.phase == Ready ==> forall f :: f in s.network ==> !f.Hello?)
    && (forall f :: f in s.network && f.Hello? ==>
          s.initiator.authPath == Some(f.requestedAuth)
          && f == HelloOf(NewInitiator(i), f.requestedAuth))
  }

  ghost predicate ResponderInvariant(s: System, i: Config, r: Config) {
    && s.responder.config == r
    && (s.responder.phase == AwaitingHello ==> s.responder == NewResponder(r))
    && (Negotiated(s.responder) ==> s.responder.remote == Some(i.identity))
    && (s.responder.phase == AwaitingVerification ==>
          s.requests != [] && s.responder.pendingVerification == Some(s.requests[0]))
  }

  ghost predicate ChallengeInvariant(s: System, f: HandshakeFrame) {
    f.Challenge? ==> Negotiated(s.responder) && f == ChallengeOf(s.responder)
  }

  /** Frames that only exist once the responder has accepted the proof. */
  ghost predicate AcceptanceInvariant(s: System, r: Config, f: HandshakeFrame) {
    && (f.Selection? ==> s.accepted && f.sessionId == r.sessionId && f.selections == s.responder.selected)
    && (f.Confirm? ==> s.accepted && f.sessionId == r.sessionId)
    && (f.Confirmed? ==> f.sessionId == r.sessionId && s.emitted != [])
  }

  /** What the initiator holds agrees with what the responder holds. */
  ghost predicate InitiatorInvariant(s: System, r: Config) {
    && (s.initiator.phase in {AwaitingSelection, AwaitingConfirmed, Established} ==>
          && Negotiated(s.initiator) && Negotiated(s.responder)
          && s.initiator.remote == Some(r.identity)
          && s.initiator.linkVersion == s.responder.linkVersion
          && s.initiator.linkCapabilities == s.responder.linkCapabilities
          && s.initiator.authPath == s.responder.authPath)
    && (s.initiator.phase in {AwaitingConfirmed, Established} ==>
          && s.accepted && s.initiator.config.sessionId == r.sessionId
          && s.initiator.selected == s.responder.selected)
  }

  ghost predicate ProofInvariant(s: System, i: Config, r: Config) {
    && (forall f :: f in s.network && f.IdentityProof? ==> f.proof == i.identityProof)
    && |s.requests| <= 1
    && (s.responder.phase in {AwaitingHello, AwaitingProof} ==> s.requests == [])
    && (s.requests != [] ==>
          && Negotiated(s.responder)
          && s.requests[0] == VerificationRequest(i.identity.peerId, s.responder.authPath.value, r.challengeNonce,
                                                  i.identityProof))
    && (s.accepted ==> s.requests != [] && s.responder.phase in {AwaitingConfirmation, Established, Failed})
    && (s.responder.phase in {AwaitingConfirmation, Established} ==> s.accepted)
  }

  ghost predicate EmittedInvariant(s: System) {
    && (s.emitted != [] ==> Negotiated(s.responder) && s.accepted && s.responder.phase in {Established, Failed})
    && (|| s.emitted == []
        || (Negotiated(s.responder) && s.emitted == [(Responder, SessionOf(s.responder))])
        || (Negotiated(s.responder) && s.initiator.phase in {Established, Failed}
            && s.emitted == [(Responder, SessionOf(s.responder)), (Initiator, Mirror(SessionOf(s.responder)))]))
  }

  ghost predicate Inv(s: System, i: Config, r: Config) {
    && CoherentSystem(s)
    && HelloInvariant(s, i)
    && ResponderInvariant(s, i, r)
    && (forall f :: f in s.network ==> ChallengeInvariant(s, f) && AcceptanceInvariant(s, r, f))
    && InitiatorInvariant(s, r)
    && ProofInvariant(s, i, r)
    && EmittedInvariant(s)
  }

  lemma InitialInv(i: Config, r: Config)
    ensures Inv(InitialSystem(i, r), i, r)
  {
  }

  lemma OutputShapes(role: Role, a: Output, b: Output)
    ensures Sessions(role, [a]) == if a.SessionEstablished? then [(role, a.session)] else []
    ensures Requests([a]) == if a.VerifyIdentity? then [a.request] else []
    ensures Sessions(role, [a, b]) == Sessions(role, [a]) + Sessions(role, [b])
    ensures Requests([a, b]) == Requests([a]) + Requests([b])
  {
    assert [a, b][1..] == [b];
  }

  /** The negotiated terms a machine holds; they are set once and then never change. */
  predicate SameTerms(a: Machine, b: Machine) {
    && a.role == b.role && a.config == b.config && a.remote == b.remote && a.authPath == b.authPath
    && a.linkVersion == b.linkVersion && a.linkCapabilities == b.linkCapabilities && a.selected == b.selected
  }

  lemma OldFrame(s: System, s': System, r: Config, f: HandshakeFrame)
    requires ChallengeInvariant(s, f) && AcceptanceInvariant(s, r, f)
    requires SameTerms(s.responder, s'.responder)
    requires s.accepted ==> s'.accepted
    requires s.emitted != [] ==> s'.emitted != []
    ensures ChallengeInvariant(s', f) && AcceptanceInvariant(s', r, f)
  {
  }

  /** A call on the responder that keeps its terms, adding `added` to the network. */
  ghost predicate ResponderMoves(s: System, s': System, r: Config, added: set<HandshakeFrame>) {
    && s'.initiator == s.initiator && SameTerms(s.responder, s'.responder) && Coherent(s'.responder)
    && s'.network == s.network + added
    && (s.accepted ==> s'.accepted) && (s.emitted != [] ==> s'.emitted != [])
    && forall f :: f in added ==> !f.Hello? && !f.IdentityProof? && ChallengeInvariant(s', f) && AcceptanceInvariant(s', r, f)
  }

  lemma ResponderMoveKeeps(s: System, s': System, i: Config, r: Config, added: set<HandshakeFrame>)
    requires Inv(s, i, r) && ResponderMoves(s, s', r, added)
    ensures CoherentSystem(s') && HelloInvariant(s', i) && InitiatorInvariant(s', r)
    ensures forall f :: f in s'.network ==> ChallengeInvariant(s', f) && AcceptanceInvariant(s', r, f)
  {
    hide ChallengeInvariant, AcceptanceInvariant, ResponderInvariant, ProofInvariant, EmittedInvariant;
    forall f | f in s'.network
      ensures ChallengeInvariant(s', f) && AcceptanceInvariant(s', r, f)
    {
      if f in s.network {
        OldFrame(s, s', r, f);
      }
    }
  }

  /** A call on the initiator, adding `added` to the network. */
  ghost predicate InitiatorMoves(s: System, s': System, r: Config, added: set<HandshakeFrame>) {
    && s'.responder == s.responder && s'.initiator.role == Initiator && Coherent(s'.initiator)
    && s'.network == s.network + added
    && s'.accepted == s.accepted && s'.requests == s.requests && (s.emitted != [] ==> s'.emitted != [])
    && forall f :: f in added ==> ChallengeInvariant(s', f) && AcceptanceInvariant(s', r, f)
  }

  lemma InitiatorMoveKeeps(s: System, s': System, i: Config, r: Config, added: set<HandshakeFrame>)
    requires Inv(s, i, r) && InitiatorMoves(s, s', r, added)
    requires forall f :: f in added && f.IdentityProof? ==> f.proof == i.identityProof
    ensures CoherentSystem(s') && ResponderInvariant(s', i, r) && ProofInvariant(s', i, r)
    ensures forall f :: f in s'.network ==> ChallengeInvariant(s', f) && AcceptanceInvariant(s', r, f)
  {
    hide ChallengeInvariant, AcceptanceInvariant, HelloInvariant, InitiatorInvariant, EmittedInvariant;
    forall f | f in s'.network
      ensures ChallengeInvariant(s', f) && AcceptanceInvariant(s', r, f)
    {
      if f in s.network {
        OldFrame(s, s', r, f);
      }
    }
  }

  /** A failing call changes the phase to `Failed` and nothing else that matters. */
  lemma FailureKeepsInv(s: System, i: Config, r: Config, role: Role, m: Machine, kind: ErrorKind)
    requires Inv(s, i, r)
    requires m == Party(s, role).(phase := Failed, pendingVerification := m.pendingVerification)
    ensures Absorb(s, role, (m, Err(kind))) == s.(initiator := if role == Initiator then m else s.initiator,
                                                 responder := if role == Responder then m else s.responder)
    ensures Inv(Absorb(s, role, (m, Err(kind))), i, r)
  {
    hide ChallengeInvariant, AcceptanceInvariant;
    var s' := Absorb(s, role, (m, Err(kind)));
    assert s'.network == s.network;
    if role == Initiator {
      InitiatorMoveKeeps(s, s', i, r, {});
    } else {
      ResponderMoveKeeps(s, s', i, r, {});
    }
  }

  lemma StartKeepsInv(s: System, i: Config, r: Config, auth: AuthPath, derive: Derive)
    requires Inv(s, i, r)
    ensures Inv(Absorb(s, Initiator, Start(s.initiator, auth, derive)), i, r)
  {
    hide ChallengeInvariant, AcceptanceInvariant, Absorb, OfferConsistent;
    var res := Start(s.initiator, auth, derive);
    if res.1.Err? {
      FailureKeepsInv(s, i, r, Initiator, res.0, res.1.error);
    } else {
      var hello := HelloOf(s.initiator, auth);
      StartEffect(s, auth, derive);
      var s' := Absorb(s, Initiator, res);
      FreeFrame(s', r, hello);
      InitiatorMoveKeeps(s, s', i, r, {hello});
    }
  }

  lemma StartEffect(s: System, auth: AuthPath, derive: Derive)
    requires Start(s.initiator, auth, derive).1.Ok?
    ensures Absorb(s, Initiator, Start(s.initiator, auth, derive))
         == s.(initiator := s.initiator.(authPath := Some(auth), phase := AwaitingChallenge),
               network := s.network + {HelloOf(s.initiator, auth)})
  {
    var hello := HelloOf(s.initiator, auth);
    OutputShapes(Initiator, Send(hello), Send(hello));
    assert Frames(Start(s.initiator, auth, derive).1) == {hello};
  }

  /** Hellos, proofs and rejections carry no terms to check. */
  lemma FreeFrame(s: System, r: Config, f: HandshakeFrame)
    requires f.Hello? || f.IdentityProof? || f.Reject?
    ensures ChallengeInvariant(s, f) && AcceptanceInvariant(s, r, f)
  {
  }

  lemma PlainFrame(s: System, f: HandshakeFrame)
    requires !f.Challenge?
    ensures ChallengeInvariant(s, f)
  {
  }

  /** Before the responder has answered a hello nothing that depends on its answer exists. */
  lemma QuietBeforeHello(s: System, i: Config, r: Config)
    requires Inv(s, i, r) && s.responder.phase == AwaitingHello
    ensures s.responder == NewResponder(r) && !s.accepted && s.requests == [] && s.emitted == []
    ensures forall f :: f in s.network ==> f.Hello? || f.IdentityProof? || f.Reject?
    ensures s.initiator.phase !in {AwaitingSelection, AwaitingConfirmed, Established}
  {
    forall f | f in s.network
      ensures f.Hello? || f.IdentityProof? || f.Reject?
    {
      assert ChallengeInvariant(s, f) && AcceptanceInvariant(s, r, f);
    }
  }

  lemma HelloEffect(s: System, h: HandshakeFrame)
    requires CoherentSystem(s) && h.Hello? && s.responder.phase == AwaitingHello
    requires HelloError(s.responder.config.policy, h).None?
    ensures var m := Greeted(s.responder, h);
            && Negotiated(m) && m.phase == AwaitingProof && m.role == Responder && m.config == s.responder.config
            && m.remote == Some(h.identity)
            && Absorb(s, Responder, Receive(s.responder, h))
            == s.(responder := m, network := s.network + {ChallengeOf(m)})
  {
    var challenge := ChallengeOf(Greeted(s.responder, h));
    OutputShapes(Responder, Send(challenge), Send(challenge));
    assert Frames(Receive(s.responder, h).1) == {challenge};
  }

  lemma HelloKeepsInv(s: System, i: Config, r: Config, frame: HandshakeFrame)
    requires Inv(s, i, r) && frame in s.network && frame.Hello? && s.responder.phase == AwaitingHello
    ensures Inv(Absorb(s, Responder, Receive(s.responder, frame)), i, r)
  {
    hide Absorb, Receive, Greeted, HelloError, AcceptanceInvariant, ChallengeInvariant;
    if HelloError(s.responder.config.policy, frame).Some? {
      HelloFails(s, frame);
      FailureKeepsInv(s, i, r, Responder, s.responder.(phase := Failed),
                      HelloError(s.responder.config.policy, frame).value);
    } else {
      QuietBeforeHello(s, i, r);
      HelloEffect(s, frame);
      var s' := Absorb(s, Responder, Receive(s.responder, frame));
      forall f | f in s'.network
        ensures ChallengeInvariant(s', f) && AcceptanceInvariant(s', r, f)
      {
        if f in s.network {
          FreeFrame(s', r, f);
        } else {
          OwnChallenge(s', r, f);
        }
      }
    }
  }

  lemma HelloFails(s: System, h: HandshakeFrame)
    requires CoherentSystem(s) && h.Hello? && s.responder.phase == AwaitingHello
    requires HelloError(s.responder.config.policy, h).Some?
    ensures Receive(s.responder, h) == Fail(s.responder, HelloError(s.responder.config.policy, h).value)
  {
  }

  lemma OwnChallenge(s: System, r: Config, f: HandshakeFrame)
    requires Negotiated(s.responder) && f == ChallengeOf(s.responder)
    ensures ChallengeInvariant(s, f) && AcceptanceInvariant(s, r, f)
  {
  }

  lemma ChallengeEffect(s: System, frame: HandshakeFrame)
    requires CoherentSystem(s) && frame.Challenge? && s.initiator.phase == AwaitingChallenge
    requires ChallengeAcceptable(s.initiator, frame)
    ensures Absorb(s, Initiator, Receive(s.initiator, frame))
         == s.(initiator := s.initiator.(remote := Some(frame.responder), linkVersion := Some(frame.linkVersion),
                                         linkCapabilities := frame.linkCapabilities, phase := AwaitingSelection),
               network := s.network + {IdentityProof(s.initiator.config.identityProof)})
  {
    var proof := IdentityProof(s.initiator.config.identityProof);
    OutputShapes(Initiator, Send(proof), Send(proof));
    assert Frames(Receive(s.initiator, frame).1) == {proof};
  }

  lemma ChallengeKeepsInv(s: System, i: Config, r: Config, frame: HandshakeFrame)
    requires Inv(s, i, r) && frame in s.network && frame.Challenge? && s.initiator.phase == AwaitingChallenge
    ensures Inv(Absorb(s, Initiator, Receive(s.initiator, frame)), i, r)
  {
    var res := Receive(s.initiator, frame);
    if !ChallengeAcceptable(s.initiator, frame) {
      FailureKeepsInv(s, i, r, Initiator, res.0, res.1.error);
    } else {
      hide AcceptanceInvariant, Absorb, Receive, ProofInvariant;
      assert ChallengeInvariant(s, frame);
      var proof := IdentityProof(s.initiator.config.identityProof);
      ChallengeEffect(s, frame);
      var s' := Absorb(s, Initiator, res);
      assert InitiatorInvariant(s', r);
      hide ChallengeInvariant, InitiatorInvariant;
      FreeFrame(s', r, proof);
      InitiatorMoveKeeps(s, s', i, r, {proof});
    }
  }

  lemma ProofKeepsInv(s: System, i: Config, r: Config, frame: HandshakeFrame)
    requires Inv(s, i, r) && frame in s.network && frame.IdentityProof? && s.responder.phase == AwaitingProof
    ensures Inv(Absorb(s, Responder, Receive(s.responder, frame)), i, r)
  {
    var res := Receive(s.responder, frame);
    if res.1.Err? {
      FailureKeepsInv(s, i, r, Responder, res.0, res.1.error);
    } else {
      var request := res.0.pendingVerification.value;
      OutputShapes(Responder, VerifyIdentity(request), VerifyIdentity(request));
      assert Frames(res.1) == {};
      var s' := Absorb(s, Responder, res);
      assert s' == s.(responder := res.0, requests := [request]);
      hide ChallengeInvariant, AcceptanceInvariant, Absorb, Receive;
      ResponderMoveKeeps(s, s', i, r, {});
    }
  }

  lemma SelectionEffect(s: System, frame: HandshakeFrame)
    requires CoherentSystem(s) && frame.Selection? && s.initiator.phase == AwaitingSelection
    requires SelectionError(s.initiator, frame.selections).None?
    ensures Absorb(s, Initiator, Receive(s.initiator, frame))
         == s.(initiator := s.initiator.(config := s.initiator.config.(sessionId := frame.sessionId),
                                         selected := frame.selections, phase := AwaitingConfirmed),
               network := s.network + {Confirm(frame.sessionId)})
  {
    var confirm := Confirm(frame.sessionId);
    OutputShapes(Initiator, Send(confirm), Send(confirm));
    SelectionAnswer(s.initiator, frame);
    hide Receive;
    assert Frames(Receive(s.initiator, frame).1) == {confirm};
  }

  lemma SelectionAnswer(m: Machine, frame: HandshakeFrame)
    requires Coherent(m) && m.role == Initiator && m.phase == AwaitingSelection && frame.Selection?
    ensures var error := SelectionError(m, frame.selections);
            Receive(m, frame) == if error.Some? then Fail(m, error.value) else
              (m.(config := m.config.(sessionId := frame.sessionId), selected := frame.selections,
                  phase := AwaitingConfirmed),
               Ok([Send(Confirm(frame.sessionId))]))
  {
  }

  lemma SelectionKeepsInv(s: System, i: Config, r: Config, frame: HandshakeFrame)
    requires Inv(s, i, r) && frame in s.network && frame.Selection? && s.initiator.phase == AwaitingSelection
    ensures Inv(Absorb(s, Initiator, Receive(s.initiator, frame)), i, r)
  {
    hide Absorb, Receive, ChallengeInvariant, SelectionError, HelloInvariant;
    SelectionAnswer(s.initiator, frame);
    if SelectionError(s.initiator, frame.selections).Some? {
      var res := Receive(s.initiator, frame);
      FailureKeepsInv(s, i, r, Initiator, res.0, res.1.error);
    } else {
      assert AcceptanceInvariant(s, r, frame);
      var confirm := Confirm(frame.sessionId);
      SelectionEffect(s, frame);
      var s' := Absorb(s, Initiator, Receive(s.initiator, frame));
      assert InitiatorInvariant(s', r);
      assert AcceptanceInvariant(s', r, confirm);
      PlainFrame(s', confirm);
      hide AcceptanceInvariant, InitiatorInvariant;
      SelectionKeepsHello(s, s', i);
      InitiatorMoveKeeps(s, s', i, r, {confirm});
    }
  }

  lemma SelectionKeepsHello(s: System, s': System, i: Config)
    requires HelloInvariant(s, i) && s.initiator.phase == AwaitingSelection && s'.initiator.phase == AwaitingConfirmed
    requires forall f :: f in s'.network && f.Hello? ==> f in s.network
    requires s'.initiator == s.initiator.(config := s'.initiator.config, selected := s'.initiator.selected,
                                          phase := AwaitingConfirmed)
    requires s'.initiator.config == s.initiator.config.(sessionId := s'.initiator.config.sessionId)
    requires s'.responder == s.responder
    ensures HelloInvariant(s', i)
  {
  }

  lemma ConfirmAnswer(m: Machine, frame: HandshakeFrame)
    requires Coherent(m) && m.role == Responder && m.phase == AwaitingConfirmation && frame.Confirm?
    requires frame.sessionId == m.config.sessionId
    ensures Receive(m, frame)
         == (m.(phase := Established), Ok([Send(Confirmed(frame.sessionId)), SessionEstablished(SessionOf(m))]))
  {
  }

  lemma ConfirmEffect(s: System, frame: HandshakeFrame)
    requires CoherentSystem(s) && frame.Confirm? && s.responder.phase == AwaitingConfirmation
    requires frame.sessionId == s.responder.config.sessionId
    ensures Absorb(s, Responder, Receive(s.responder, frame))
         == s.(responder := s.responder.(phase := Established), network := s.network + {Confirmed(frame.sessionId)},
               emitted := s.emitted + [(Responder, SessionOf(s.responder))])
  {
    hide Receive, SessionOf;
    var confirmed := Confirmed(frame.sessionId);
    var session := SessionOf(s.responder);
    ConfirmAnswer(s.responder, frame);
    OutputShapes(Responder, Send(confirmed), SessionEstablished(session));
    OutputShapes(Responder, SessionEstablished(session), Send(confirmed));
    assert Frames(Receive(s.responder, frame).1) == {confirmed};
  }

  /** A confirmation in the network always names the responder's session. */
  lemma ConfirmKeepsInv(s: System, i: Config, r: Config, frame: HandshakeFrame)
    requires Inv(s, i, r) && frame in s.network && frame.Confirm? && s.responder.phase == AwaitingConfirmation
    ensures Inv(Absorb(s, Responder, Receive(s.responder, frame)), i, r)
  {
    hide ChallengeInvariant, Absorb, Receive, HelloInvariant, InitiatorInvariant;
    assert AcceptanceInvariant(s, r, frame);
    var confirmed := Confirmed(frame.sessionId);
    ConfirmEffect(s, frame);
    var s' := Absorb(s, Responder, Receive(s.responder, frame));
    assert s.emitted == [] && s'.emitted == [(Responder, SessionOf(s'.responder))];
    assert AcceptanceInvariant(s', r, confirmed);
    PlainFrame(s', confirmed);
    hide AcceptanceInvariant, SessionOf;
    ResponderMoveKeeps(s, s', i, r, {confirmed});
  }

  lemma ConfirmedEffect(s: System, frame: HandshakeFrame)
    requires CoherentSystem(s) && frame.Confirmed? && s.initiator.phase == AwaitingConfirmed
    requires frame.sessionId == s.initiator.config.sessionId
    ensures Absorb(s, Initiator, Receive(s.initiator, frame))
         == s.(initiator := s.initiator.(phase := Established),
               emitted := s.emitted + [(Initiator, SessionOf(s.initiator))])
  {
    var session := SessionOf(s.initiator);
    OutputShapes(Initiator, SessionEstablished(session), SessionEstablished(session));
    assert Frames(Receive(s.initiator, frame).1) == {};
  }

  lemma ConfirmedKeepsInv(s: System, i: Config, r: Config, frame: HandshakeFrame)
    requires Inv(s, i, r) && frame in s.network && frame.Confirmed? && s.initiator.phase == AwaitingConfirmed
    ensures Inv(Absorb(s, Initiator, Receive(s.initiator, frame)), i, r)
  {
    hide ChallengeInvariant, Absorb, Receive, ProofInvariant;
    assert AcceptanceInvariant(s, r, frame);
    ConfirmedEffect(s, frame);
    var s' := Absorb(s, Initiator, Receive(s.initiator, frame));
    assert SessionOf(s.initiator) == Mirror(SessionOf(s.responder));
    assert s'.emitted == [(Responder, SessionOf(s.responder)), (Initiator, SessionOf(s.initiator))];
    hide AcceptanceInvariant, SessionOf;
    InitiatorMoveKeeps(s, s', i, r, {});
  }

  lemma DeliverKeepsInv(s: System, i: Config, r: Config, role: Role, frame: HandshakeFrame)
    requires Inv(s, i, r) && frame in s.network
    ensures Inv(Absorb(s, role, Receive(Party(s, role), frame)), i, r)
  {
    var m := Party(s, role);
    var res := Receive(m, frame);
    if res.1.Err? {
      assert res.0 == m.(phase := Failed);
      FailureKeepsInv(s, i, r, role, res.0, res.1.error);
    } else if role == Responder {
      if m.phase == AwaitingHello {
        HelloKeepsInv(s, i, r, frame);
      } else if m.phase == AwaitingProof {
        ProofKeepsInv(s, i, r, frame);
      } else {
        ConfirmKeepsInv(s, i, r, frame);
      }
    } else {
      if m.phase == AwaitingChallenge {
        ChallengeKeepsInv(s, i, r, frame);
      } else if m.phase == AwaitingSelection {
        SelectionKeepsInv(s, i, r, frame);
      } else {
        ConfirmedKeepsInv(s, i, r, frame);
      }
    }
  }

  lemma DecideEffect(s: System, derive: Derive)
    requires CoherentSystem(s) && s.responder.phase == AwaitingVerification
    ensures var m := s.responder.(pendingVerification := None, phase := AwaitingConfirmation);
            && Step(s, Decide(Responder, Accept), derive)
            == s.(responder := m, network := s.network + {Selection(m.config.sessionId, m.selected)}, accepted := true)
  {
    var selection := Selection(s.responder.config.sessionId, s.responder.selected);
    OutputShapes(Responder, Send(selection), Send(selection));
    assert Frames(DecideIdentity(s.responder, Accept).1) == {selection};
  }

  lemma DecideKeepsInv(s: System, i: Config, r: Config, role: Role, decision: ProofDecision, derive: Derive)
    requires Inv(s, i, r)
    ensures Inv(Step(s, Decide(role, decision), derive), i, r)
  {
    hide ChallengeInvariant, AcceptanceInvariant;
    var res := DecideIdentity(Party(s, role), decision);
    var s' := Step(s, Decide(role, decision), derive);
    if res.1.Err? {
      FailureKeepsInv(s, i, r, role, res.0, res.1.error);
      assert s' == Absorb(s, role, res);
    } else {
      hide Absorb, Step, HelloInvariant, InitiatorInvariant;
      DecideEffect(s, derive);
      var selection := Selection(r.sessionId, s.responder.selected);
      PlainFrame(s', selection);
      FreshSelection(s', r, selection);
      ResponderMoveKeeps(s, s', i, r, {selection});
    }
  }

  lemma FreshSelection(s: System, r: Config, f: HandshakeFrame)
    requires f == Selection(r.sessionId, s.responder.selected) && s.accepted
    ensures AcceptanceInvariant(s, r, f)
  {
  }

  lemma StepKeepsInv(s: System, i: Config, r: Config, a: Action, derive: Derive)
    requires Inv(s, i, r) && Enabled(s, a)
    ensures Inv(Step(s, a, derive), i, r)
  {
    hide Inv;
    assert CoherentSystem(s) by { InvIsCoherent(s, i, r); }
    match a
    case StartBy(role, auth) =>
      if role == Initiator {
        StartKeepsInv(s, i, r, auth, derive);
      } else {
        var m := s.responder.(phase := Failed);
        FailureKeepsInv(s, i, r, Responder, m, UnexpectedMessage);
      }
    case Deliver(role, frame) =>
      DeliverKeepsInv(s, i, r, role, frame);
    case Decide(role, decision) =>
      DecideKeepsInv(s, i, r, role, decision, derive);
    case InjectReject(kind) =>
      RejectKeepsInv(s, i, r, kind);
  }

  lemma InvIsCoherent(s: System, i: Config, r: Config)
    requires Inv(s, i, r)
    ensures CoherentSystem(s)
  {
  }

  lemma RejectKeepsInv(s: System, i: Config, r: Config, kind: ErrorKind)
    requires Inv(s, i, r)
    ensures Inv(s.(network := s.network + {Reject(kind)}), i, r)
  {
  }

  lemma {:induction false} RunKeepsInv(s: System, i: Config, r: Config, actions: seq<Action>, derive: Derive)
    requires Inv(s, i, r) && Legal(s, actions, derive)
    ensures Inv(Final(s, actions, derive), i, r)
    decreases |actions|
  {
    hide Inv, Step, Enabled;
    InvIsCoherent(s, i, r);
    if actions == [] {
    } else {
      StepKeepsInv(s, i, r, actions[0], derive);
      RunKeepsInv(Step(s, actions[0], derive), i, r, actions[1..], derive);
    }
  }

  /** `Legal` asks only that delivered frames were sent: coherence comes for free. */
  lemma CoherenceIsFree(s: System, i: Config, r: Config, a: Action, derive: Derive)
    requires Inv(s, i, r) && Enabled(s, a)
    ensures CoherentSystem(Step(s, a, derive))
  {
    StepKeepsInv(s, i, r, a, derive);
    InvIsCoherent(Step(s, a, derive), i, r);
  }

  /* --------------------------------- Agreement ---------------------------------- */

  /**
    Agreement, in every run from the start. Each side reports a session at most once. If the
    initiator reports one, the responder reported one before it, after accepting a proof, and the
    two are the same session with local and remote exchanged.
   */
  lemma Agreement(i: Config, r: Config, actions: seq<Action>, derive: Derive)
    requires Legal(InitialSystem(i, r), actions, derive)
    ensures var s := Final(InitialSystem(i, r), actions, derive);
            && |s.emitted| <= 2
            && (forall k :: 0 <= k < |s.emitted| ==>
                  s.accepted && s.emitted[k].0 == if k == 0 then Responder else Initiator)
            && (|s.emitted| >= 1 ==>
                  s.emitted[0].1.sessionId == r.sessionId
                  && s.emitted[0].1.local == r.identity && s.emitted[0].1.remote == i.identity)
            && (|s.emitted| == 2 ==> s.emitted[1].1 == Mirror(s.emitted[0].1))
  {
    InitialInv(i, r);
    RunKeepsInv(InitialSystem(i, r), i, r, actions, derive);
  }

  /**
    Whatever happens, at most one proof is ever handed to the verifier, and it is the initiator's
    own, under the responder's nonce and the path the responder holds. A session is only reported
    after it, under the same path.
   */
  lemma AcceptedProofIsAuthentic(i: Config, r: Config, actions: seq<Action>, derive: Derive)
    requires Legal(InitialSystem(i, r), actions, derive)
    ensures var s := Final(InitialSystem(i, r), actions, derive);
            && |s.requests| <= 1
            && (s.requests != [] ==>
                  s.responder.authPath.Some?
                  && s.requests == [VerificationRequest(i.identity.peerId, s.responder.authPath.value,
                                                        r.challengeNonce, i.identityProof)])
            && (s.emitted != [] ==>
                  s.requests != [] && s.emitted[0].1.authPath == s.requests[0].authPath)
  {
    InitialInv(i, r);
    RunKeepsInv(InitialSystem(i, r), i, r, actions, derive);
  }
}
