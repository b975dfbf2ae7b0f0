/** The two indexes that bind session channels to protocol channels (`control.rs`). */
module ChannelMapSpec {
  import opened Base

  const MAX_SESSION_CHANNEL_MAPPINGS: nat := 128

  /** A protocol and the number of one of its channels. */
  type ProtocolKey = (Id16, u16)

  datatype Accepted = Accepted(protocolId: Id16, protocolChannelId: u16, sessionChannelId: u32) {
    function Key(): ProtocolKey { (protocolId, protocolChannelId) }
  }

  datatype Binding = Binding(channelId: u32, generation: u32)

  datatype Owner = Owner(protocolId: Id16, protocolChannelId: u16, generation: u32) {
    function Key(): ProtocolKey { (protocolId, protocolChannelId) }
  }

  datatype MapError = LimitExceeded | InvalidMapping | DuplicateMapping | MappingLimit

  datatype Map = Map(
    maximum: nat, byProtocol: map<ProtocolKey, Binding>, bySession: map<u32, Owner>, retired: set<u32>)

  const EMPTY: Map := Map(MAX_SESSION_CHANNEL_MAPPINGS, map[], map[], {})

  function BindError(m: Map, a: Accepted): Option<MapError> {
    if a.protocolChannelId == 0 || a.sessionChannelId == 0 then Some(InvalidMapping)
    else if a.Key() in m.byProtocol || a.sessionChannelId in m.bySession || a.sessionChannelId in m.retired then
      Some(DuplicateMapping)
    else if |m.byProtocol| + |m.retired| >= m.maximum then Some(MappingLimit)
    else None
  }

  function Bound(m: Map, a: Accepted): Map {
    m.(byProtocol := m.byProtocol[a.Key() := Binding(a.sessionChannelId, INITIAL_GENERATION)],
       bySession := m.bySession[a.sessionChannelId := Owner(a.protocolId, a.protocolChannelId, INITIAL_GENERATION)])
  }

  function Unbound(m: Map, id: u32): Map {
    if id !in m.bySession then m
    else
      m.(bySession := m.bySession - {id}, byProtocol := m.byProtocol - {m.bySession[id].Key()},
         retired := m.retired + {id})
  }

  /** Each index undoes the other. */
  ghost predicate Inverse(m: Map) {
    && (forall key :: key in m.byProtocol ==>
          && m.byProtocol[key].channelId in m.bySession
          && m.bySession[m.byProtocol[key].channelId] == Owner(key.0, key.1, m.byProtocol[key].generation))
    && (forall id :: id in m.bySession ==>
          && m.bySession[id].Key() in m.byProtocol
          && m.byProtocol[m.bySession[id].Key()] == Binding(id, m.bySession[id].generation))
  }

  ghost predicate Sized(m: Map) {
    |m.byProtocol| + |m.retired| <= m.maximum && |m.bySession| == |m.byProtocol|
  }

  ghost predicate OwnersOk(m: Map) {
    && m.bySession.Keys !! m.retired
    && forall id :: id in m.bySession ==>
         id != 0 && m.bySession[id].protocolChannelId != 0 && m.bySession[id].generation == INITIAL_GENERATION
  }

  ghost predicate Valid(m: Map) {
    Inverse(m) && Sized(m) && OwnersOk(m)
  }

  lemma BoundInverse(m: Map, a: Accepted)
    requires Inverse(m) && a.Key() !in m.byProtocol && a.sessionChannelId !in m.bySession
    ensures Inverse(Bound(m, a))
  {
    var after := Bound(m, a);
    forall key | key in after.byProtocol
      ensures after.byProtocol[key].channelId in after.bySession
      ensures after.bySession[after.byProtocol[key].channelId] == Owner(key.0, key.1, after.byProtocol[key].generation)
    {
      if key != a.Key() {
        assert m.byProtocol[key].channelId in m.bySession;
      }
    }
    forall id | id in after.bySession
      ensures after.bySession[id].Key() in after.byProtocol
      ensures after.byProtocol[after.bySession[id].Key()] == Binding(id, after.bySession[id].generation)
    {
      if id != a.sessionChannelId {
        assert m.bySession[id].Key() in m.byProtocol;
      }
    }
  }

  lemma BoundSized(m: Map, a: Accepted)
    requires Sized(m) && a.Key() !in m.byProtocol && a.sessionChannelId !in m.bySession
    requires |m.byProtocol| + |m.retired| < m.maximum
    ensures Sized(Bound(m, a))
  {
    var after := Bound(m, a);
    assert after.byProtocol.Keys == m.byProtocol.Keys + {a.Key()};
    assert after.bySession.Keys == m.bySession.Keys + {a.sessionChannelId};
  }

  /** A binding accepted by the checks never overwrites another one in either index. */
  lemma BoundValid(m: Map, a: Accepted)
    requires Valid(m) && BindError(m, a).None?
    ensures Valid(Bound(m, a))
    ensures forall id :: id in m.bySession ==> Bound(m, a).bySession[id] == m.bySession[id]
    ensures forall key :: key in m.byProtocol ==> Bound(m, a).byProtocol[key] == m.byProtocol[key]
  {
    hide Inverse, Sized;
    BoundInverse(m, a);
    BoundSized(m, a);
  }

  lemma UnboundInverse(m: Map, id: u32)
    requires Inverse(m) && id in m.bySession
    ensures Inverse(Unbound(m, id))
  {
    var after := Unbound(m, id);
    forall key | key in after.byProtocol
      ensures after.byProtocol[key].channelId in after.bySession
    {
      assert m.byProtocol[key].channelId != id;
    }
    forall other | other in after.bySession
      ensures after.bySession[other].Key() in after.byProtocol
    {
      assert m.byProtocol[m.bySession[other].Key()].channelId == other;
    }
  }

  lemma UnboundSized(m: Map, id: u32)
    requires Inverse(m) && Sized(m) && id in m.bySession && id !in m.retired
    ensures Sized(Unbound(m, id))
  {
    var after := Unbound(m, id);
    assert after.byProtocol.Keys == m.byProtocol.Keys - {m.bySession[id].Key()};
    assert after.bySession.Keys == m.bySession.Keys - {id};
  }

  /** Unbinding removes the pair from both indexes and retires the id for good. */
  lemma UnboundValid(m: Map, id: u32)
    requires Valid(m)
    ensures Valid(Unbound(m, id))
    ensures id in m.bySession ==>
              Unbound(m, id).bySession == m.bySession - {id} && Unbound(m, id).retired == m.retired + {id}
  {
    if id in m.bySession {
      UnboundInverse(m, id);
      UnboundSized(m, id);
    }
  }
}

/** The map as the imperative code keeps it. */
module ChannelMap {
  import opened Base
  import opened ChannelMapSpec

  class SessionChannelMap {
    const maximum: nat
    var byProtocol: map<ProtocolKey, Binding>
    var bySession: map<u32, Owner>
    var retired: set<u32>

    ghost function Model(): Map
      reads this
    {
      Map(maximum, byProtocol, bySession, retired)
    }

    ghost predicate Valid()
      reads this
    {
      ChannelMapSpec.Valid(Model())
    }

    static method New(maximum: nat) returns (r: Result<SessionChannelMap, MapError>)
      ensures r.Ok? <==> 0 < maximum <= MAX_SESSION_CHANNEL_MAPPINGS
      ensures r.Err? ==> r.error == LimitExceeded
      ensures r.Ok? ==> fresh(r.value) && r.value.Valid() && r.value.Model() == EMPTY.(maximum := maximum)
    {
      if maximum == 0 || maximum > MAX_SESSION_CHANNEL_MAPPINGS {
        return Err(LimitExceeded);
      }
      var m := new SessionChannelMap(maximum);
      return Ok(m);
    }

    constructor (maximum: nat)
      ensures Valid() && Model() == EMPTY.(maximum := maximum)
    {
      this.maximum, byProtocol, bySession, retired := maximum, map[], map[], {};
    }

    method ValidateBind(a: Accepted) returns (error: Option<MapError>)
      ensures error == BindError(Model(), a)
    {
      if a.protocolChannelId == 0 || a.sessionChannelId == 0 {
        return Some(InvalidMapping);
      }
      if a.Key() in byProtocol || a.sessionChannelId in bySession || a.sessionChannelId in retired {
        return Some(DuplicateMapping);
      }
      if |byProtocol| + |retired| >= maximum {
        return Some(MappingLimit);
      }
      return None;
    }

    method BindValidated(a: Accepted) returns (binding: Binding)
      requires Valid() && BindError(Model(), a).None?
      modifies this
      ensures Valid() && Model() == Bound(old(Model()), a)
      ensures binding == Binding(a.sessionChannelId, INITIAL_GENERATION)
    {
      BoundValid(Model(), a);
      binding := Binding(a.sessionChannelId, INITIAL_GENERATION);
      byProtocol := byProtocol[a.Key() := binding];
      bySession := bySession[a.sessionChannelId := Owner(a.protocolId, a.protocolChannelId, binding.generation)];
    }

    method Bind(a: Accepted) returns (r: Result<Binding, MapError>)
      requires Valid()
      modifies this
      ensures Valid()
      ensures r == match BindError(old(Model()), a)
                   case Some(error) => Err(error)
                   case None => Ok(Binding(a.sessionChannelId, INITIAL_GENERATION))
      ensures Model() == if r.Ok? then Bound(old(Model()), a) else old(Model())
    {
      var error := ValidateBind(a);
      if error.Some? {
        return Err(error.value);
      }
      var binding := BindValidated(a);
      return Ok(binding);
    }

    method Unbind(id: u32) returns (key: Option<ProtocolKey>)
      requires Valid()
      modifies this
      ensures Valid() && Model() == Unbound(old(Model()), id)
      ensures key == if id in old(bySession) then Some(old(bySession)[id].Key()) else None
    {
      hide Inverse, Sized;
      UnboundValid(Model(), id);
      if id !in bySession {
        return None;
      }
      var found := bySession[id].Key();
      bySession := bySession - {id};
      byProtocol := byProtocol - {found};
      retired := retired + {id};
      return Some(found);
    }
  }
}
