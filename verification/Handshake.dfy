/** The handshake machine itself (`handshake.rs`): one object that every message updates in place. */
module Handshake {
  import opened Base
  import opened Identity
  import opened Capabilities
  import opened HandshakeSpec

  class HandshakeMachine {
    const role: Role
    var phase: Phase
    var config: Config
    var remote: Option<Identity>
    var authPath: Option<AuthPath>
    var linkVersion: Option<ProtocolVersion>
    var linkCapabilities: u64
    var selectedProtocols: seq<ProtocolSelection>
    var pendingVerification: Option<VerificationRequest>

    ghost function Model(): Machine
      reads this
    {
      Machine(role, phase, config, remote, authPath, linkVersion, linkCapabilities, selectedProtocols,
              pendingVerification)
    }

    ghost predicate Valid()
      reads this
    {
      Coherent(Model())
    }

    constructor Initiator(config: Config)
      ensures Valid() && Model() == NewInitiator(config)
    {
      role, phase, this.config := HandshakeSpec.Initiator, Ready, config;
      remote, authPath, linkVersion, linkCapabilities := None, None, None, 0;
      selectedProtocols, pendingVerification := [], None;
    }

    constructor Responder(config: Config)
      ensures Valid() && Model() == NewResponder(config)
    {
      role, phase, this.config := HandshakeSpec.Responder, AwaitingHello, config;
      remote, authPath, linkVersion, linkCapabilities := None, None, None, 0;
      selectedProtocols, pendingVerification := [], None;
    }

    method Start(auth: AuthPath, derive: Derive) returns (r: Replies)
      requires Valid()
      modifies this
      ensures Valid()
      ensures (Model(), r) == HandshakeSpec.Start(old(Model()), auth, derive)
    {
      if role != HandshakeSpec.Initiator || phase != Ready {
        r := Fail(UnexpectedMessage);
        return;
      }
      var offers := if auth == FirstPairing then config.policy.pairingProtocols else config.policy.protocols;
      if |offers| > config.policy.maxProtocolOffers {
        r := Fail(LimitExceeded);
        return;
      }
      if exists o :: o in offers && !OfferConsistent(derive, o) {
        r := Fail(ProtocolConflict);
        return;
      }
      authPath := Some(auth);
      phase := AwaitingChallenge;
      return Ok([Send(Hello(config.identity, config.policy.linkVersions, config.policy.linkCapabilities, offers, auth))]);
    }

    method Receive(frame: HandshakeFrame) returns (r: Replies)
      requires Valid()
      modifies this
      ensures Valid()
      ensures (Model(), r) == HandshakeSpec.Receive(old(Model()), frame)
    {
      hide HandshakeSpec.Receive, HandshakeSpec.ReceiveHello;
      OtherwiseFails(Model(), frame);
      if role == HandshakeSpec.Responder && phase == AwaitingHello && frame.Hello? {
        r := ReceiveHello(frame);
      } else if role == HandshakeSpec.Initiator && phase == AwaitingChallenge && frame.Challenge? {
        r := ReceiveChallenge(frame);
      } else if role == HandshakeSpec.Responder && phase == AwaitingProof && frame.IdentityProof? {
        r := ReceiveProof(frame);
      } else if role == HandshakeSpec.Initiator && phase == AwaitingSelection && frame.Selection? {
        r := ReceiveSelection(frame);
      } else if role == HandshakeSpec.Responder && phase == AwaitingConfirmation && frame.Confirm? {
        r := ReceiveConfirm(frame);
      } else if role == HandshakeSpec.Initiator && phase == AwaitingConfirmed && frame.Confirmed? {
        r := ReceiveConfirmed(frame);
      } else if frame.Reject? {
        r := Fail(frame.kind);
      } else {
        r := Fail(UnexpectedMessage);
      }
    }

    method ReceiveChallenge(frame: HandshakeFrame) returns (r: Replies)
      requires Valid() && role == HandshakeSpec.Initiator && phase == AwaitingChallenge && frame.Challenge?
      modifies this
      ensures Valid()
      ensures (Model(), r) == HandshakeSpec.Receive(old(Model()), frame)
    {
      if config.policy.linkVersions.Negotiate(Exactly(frame.linkVersion)).None? || authPath != Some(frame.authPath)
         || !SubsetOf(frame.linkCapabilities, config.policy.linkCapabilities) {
        r := Fail(IncompatibleVersion);
        return;
      }
      remote := Some(frame.responder);
      linkVersion := Some(frame.linkVersion);
      linkCapabilities := frame.linkCapabilities;
      phase := AwaitingSelection;
      return Ok([Send(IdentityProof(config.identityProof))]);
    }

    method ReceiveProof(frame: HandshakeFrame) returns (r: Replies)
      requires Valid() && role == HandshakeSpec.Responder && phase == AwaitingProof && frame.IdentityProof?
      modifies this
      ensures Valid()
      ensures (Model(), r) == HandshakeSpec.Receive(old(Model()), frame)
    {
      if |frame.proof| > config.policy.maxIdentityProofBytes {
        r := Fail(LimitExceeded);
        return;
      }
      var request := VerificationRequest(remote.value.peerId, authPath.value, config.challengeNonce, frame.proof);
      pendingVerification := Some(request);
      phase := AwaitingVerification;
      return Ok([VerifyIdentity(request)]);
    }

    method ReceiveSelection(frame: HandshakeFrame) returns (r: Replies)
      requires Valid() && role == HandshakeSpec.Initiator && phase == AwaitingSelection && frame.Selection?
      modifies this
      ensures Valid()
      ensures (Model(), r) == HandshakeSpec.Receive(old(Model()), frame)
    {
      var error := ValidateSelection(frame.selections);
      if error.Some? {
        r := Fail(error.value);
        return;
      }
      config := config.(sessionId := frame.sessionId);
      selectedProtocols := frame.selections;
      phase := AwaitingConfirmed;
      return Ok([Send(Confirm(frame.sessionId))]);
    }

    method ReceiveConfirm(frame: HandshakeFrame) returns (r: Replies)
      requires Valid() && role == HandshakeSpec.Responder && phase == AwaitingConfirmation && frame.Confirm?
      modifies this
      ensures Valid()
      ensures (Model(), r) == HandshakeSpec.Receive(old(Model()), frame)
    {
      if frame.sessionId != config.sessionId {
        r := Fail(InvalidConfirmation);
        return;
      }
      phase := Established;
      return Ok([Send(Confirmed(frame.sessionId)), SessionEstablished(NegotiatedSession())]);
    }

    method ReceiveConfirmed(frame: HandshakeFrame) returns (r: Replies)
      requires Valid() && role == HandshakeSpec.Initiator && phase == AwaitingConfirmed && frame.Confirmed?
      modifies this
      ensures Valid()
      ensures (Model(), r) == HandshakeSpec.Receive(old(Model()), frame)
    {
      if frame.sessionId != config.sessionId {
        r := Fail(InvalidConfirmation);
        return;
      }
      phase := Established;
      return Ok([SessionEstablished(NegotiatedSession())]);
    }

    method ReceiveHello(h: HandshakeFrame) returns (r: Replies)
      requires Valid() && h.Hello? && role == HandshakeSpec.Responder && phase == AwaitingHello
      modifies this
      ensures Valid()
      ensures (Model(), r) == HandshakeSpec.Receive(old(Model()), h)
    {
      if |h.protocols| > config.policy.maxProtocolOffers {
        r := Fail(LimitExceeded);
        return;
      }
      var version := config.policy.linkVersions.Negotiate(h.linkVersions);
      if version.None? {
        r := Fail(IncompatibleVersion);
        return;
      }
      if h.requestedAuth == FirstPairing && !config.policy.allowPairing {
        r := Fail(PairingDisabled);
        return;
      }
      if h.requestedAuth == TrustedReconnect && h.identity.peerId !in config.policy.trustedPeers {
        r := Fail(PeerNotTrusted);
        return;
      }
      var selected := NegotiateOffers(LocalOffers(config.policy, h.requestedAuth), h.protocols);
      if selected.None? {
        r := Fail(ProtocolConflict);
        return;
      }
      if selected.value == [] {
        r := Fail(NoSharedProtocol);
        return;
      }
      remote := Some(h.identity);
      authPath := Some(h.requestedAuth);
      linkVersion := version;
      linkCapabilities := BitAnd(config.policy.linkCapabilities, h.linkCapabilities);
      selectedProtocols := selected.value;
      phase := AwaitingProof;
      return Ok([Send(Challenge(config.identity, version.value, linkCapabilities, h.requestedAuth,
                                config.challengeNonce))]);
    }

    method DecideIdentity(decision: ProofDecision) returns (r: Replies)
      requires Valid()
      modifies this
      ensures Valid()
      ensures (Model(), r) == HandshakeSpec.DecideIdentity(old(Model()), decision)
    {
      if role != HandshakeSpec.Responder || phase != AwaitingVerification || pendingVerification.None? {
        r := Fail(UnexpectedMessage);
        return;
      }
      pendingVerification := None;
      if decision == Refuse {
        r := Fail(IdentityRejected);
        return;
      }
      phase := AwaitingConfirmation;
      return Ok([Send(Selection(config.sessionId, selectedProtocols))]);
    }

    /** Ids are collected in a set; the first repetition or unsupported entry is a conflict. */
    method ValidateSelection(selections: seq<ProtocolSelection>) returns (error: Option<ErrorKind>)
      ensures error == SelectionError(Model(), selections)
    {
      hide SelectionMatches, Supported;
      if selections == [] || |selections| > config.policy.maxProtocolOffers {
        return Some(NoSharedProtocol);
      }
      if authPath.None? {
        return Some(UnexpectedMessage);
      }
      var offers := LocalOffers(config.policy, authPath.value);
      var stableIds: set<Id16> := {};
      var k := 0;
      while k < |selections|
        invariant k <= |selections|
        invariant forall j :: 0 <= j < k ==> selections[j].stableId in stableIds
        invariant forall id :: id in stableIds ==> exists j :: 0 <= j < k && selections[j].stableId == id
        invariant DistinctIds(selections[..k])
        invariant forall j :: 0 <= j < k ==> Supported(offers, selections[j])
      {
        var selection := selections[k];
        if selection.stableId in stableIds {
          return Some(ProtocolConflict);
        }
        stableIds := stableIds + {selection.stableId};
        if !Supported(offers, selection) {
          assert selection in selections;
          return Some(ProtocolConflict);
        }
        k := k + 1;
      }
      assert selections[..k] == selections;
      return None;
    }

    method Fail(kind: ErrorKind) returns (r: Replies)
      modifies this`phase
      ensures Valid()
      ensures (Model(), r) == HandshakeSpec.Fail(old(Model()), kind)
    {
      phase := Failed;
      return Err(kind);
    }

    /** The session both ends now share, as this end sees it. */
    function NegotiatedSession(): (session: HandshakeSpec.NegotiatedSession)
      requires Negotiated(Model())
      reads this
      ensures session == SessionOf(Model())
    {
      HandshakeSpec.NegotiatedSession(config.sessionId, config.identity, remote.value, linkVersion.value,
                                      linkCapabilities, selectedProtocols, authPath.value)
    }
  }

  /**
    The negotiation loop: local offers in order, repeated local ids skipped, each joined with the
    first remote offer of the same id.
   */
  method NegotiateOffers(local: seq<ProtocolOffer>, remote: seq<ProtocolOffer>)
    returns (selected: Option<seq<ProtocolSelection>>)
    ensures selected == NegotiateProtocols(local, remote)
  {
    var selections: seq<ProtocolSelection> := [];
    var stableIds: set<Id16> := {};
    var n := 0;
    while n < |local|
      invariant n <= |local|
      invariant NegotiateUpTo(local, remote, n) == Some(selections)
      invariant forall id: Id16 :: id in stableIds <==> FirstOffer(local[..n], id).Some?
    {
      var mine := local[n];
      var repeated := mine.stableId in stableIds;
      stableIds := stableIds + {mine.stableId};
      assert local[..n + 1] == local[..n] + [mine];
      NegotiationExtends(local[..n], remote, mine);
      n := n + 1;
      if repeated {
        continue;
      }
      var theirs := FirstOffer(remote, mine.stableId);
      if theirs.None? {
        continue;
      }
      if mine.schema != theirs.value.schema || DebugConflict(mine.debugIdentity, theirs.value.debugIdentity) {
        NegotiationFailsForGood(local, remote, n);
        return None;
      }
      var version := mine.versions.Negotiate(theirs.value.versions);
      if version.Some? {
        var capabilities := mine.capabilities.Intersect(theirs.value.capabilities);
        if capabilities.None? {
          NegotiationFailsForGood(local, remote, n);
          return None;
        }
        selections := selections + [ProtocolSelection(mine.stableId, version.value, mine.schema, capabilities.value)];
      }
    }
    return Some(selections);
  }

  lemma {:induction false} NegotiationFailsForGood(local: seq<ProtocolOffer>, remote: seq<ProtocolOffer>, n: nat)
    requires n <= |local| && NegotiateUpTo(local, remote, n).None?
    ensures NegotiateProtocols(local, remote).None?
    decreases |local| - n
  {
    if n < |local| {
      NegotiationFailsForGood(local, remote, n + 1);
    }
  }
}
