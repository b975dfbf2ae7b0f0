/** Protocol versions and version ranges (`identity.rs`). */
module Identity {
  import opened Base

  datatype ProtocolVersion = ProtocolVersion(major: u16, minor: u16)

  datatype VersionRange = VersionRange(minimum: ProtocolVersion, maximum: ProtocolVersion) {
    predicate IsValid() {
      minimum.major == maximum.major && minimum.minor <= maximum.minor
    }

    /** The versions a range admits: within one major version, every minor version between its ends. */
    ghost predicate Admits(v: ProtocolVersion) {
      minimum.major == v.major == maximum.major && minimum.minor <= v.minor <= maximum.minor
    }

    function Negotiate(other: VersionRange): Option<ProtocolVersion> {
      if !IsValid() || !other.IsValid() || minimum.major != other.minimum.major then None
      else
        var low := Max(minimum.minor, other.minimum.minor);
        var high := Min(maximum.minor, other.maximum.minor);
        if low <= high then Some(ProtocolVersion(minimum.major, high)) else None
    }
  }

  datatype Identity = Identity(peerId: Id32, endpointId: Id16, connectionId: Id16)

  function Exactly(v: ProtocolVersion): VersionRange { VersionRange(v, v) }

  /** Negotiation finds the greatest version both ranges admit, and fails only if there is none. */
  lemma NegotiateIsGreatestShared(a: VersionRange, b: VersionRange)
    ensures a.Negotiate(b).None? <==> forall v :: !(a.Admits(v) && b.Admits(v))
    ensures a.Negotiate(b).Some? ==>
              var best := a.Negotiate(b).value;
              && a.Admits(best) && b.Admits(best)
              && forall v :: a.Admits(v) && b.Admits(v) ==> v.major == best.major && v.minor <= best.minor
    ensures a.Negotiate(b) == b.Negotiate(a)
  {
    if a.Negotiate(b).Some? {
      var best := a.Negotiate(b).value;
      assert a.Admits(best) && b.Admits(best);
    }
  }

  /** Offering exactly one version is a membership test. */
  lemma ExactlyAdmits(a: VersionRange, v: ProtocolVersion)
    ensures a.Negotiate(Exactly(v)).Some? <==> a.Admits(v)
  {
  }
}
