/** Every operation of the multiplexer keeps its invariant. */
module MuxInvariant {
  import opened Base
  import opened Sums
  import opened MuxSpec
  import Identity

  lemma InitialValid(sessionId: Id16, limits: MultiplexerLimits,
                     allowed: Option<set<(Id16, Identity.ProtocolVersion)>>)
    requires LimitsOk(limits)
    ensures Valid(Initial(sessionId, limits, allowed))
  {
    SumZero(QueueLens(Initial(sessionId, limits, allowed).channels));
  }

  /* -------------------- one channel changes, its configuration stays ------------------- */

  /** `s'` is `s` with channel `id` in state `c'`; the other tables are untouched. */
  predicate Replaces(s: State, s': State, id: u32, c': ChannelState) {
    && id in s.channels && c'.config == s.channels[id].config
    && s'.channels == s.channels[id := c'] && s'.keys == s.keys && s'.retired == s.retired
    && s'.sessionId == s.sessionId && s'.limits == s.limits && s'.control == s.control
    && s'.allowedProtocols == s.allowedProtocols
  }

  lemma ReplacedKeysOk(s: State, s': State, id: u32, c': ChannelState)
    requires KeysOk(s) && Replaces(s, s', id, c')
    ensures KeysOk(s')
  {
  }

  lemma ReplacedTableOk(s: State, s': State, id: u32, c': ChannelState)
    requires TableOk(s) && Replaces(s, s', id, c') && ChannelOk(s', id, c')
    ensures TableOk(s')
  {
    assert s'.channels.Keys == s.channels.Keys;
    assert |s'.channels| == |s.channels|;
    forall x | x in s'.channels
      ensures ChannelOk(s', x, s'.channels[x])
    {
      if x != id {
        assert ChannelOk(s, x, s.channels[x]);
      }
    }
  }

  lemma ReplacedSum(s: State, s': State, id: u32, c': ChannelState)
    requires Replaces(s, s', id, c')
    ensures Sum(QueueLens(s'.channels)) + |s.channels[id].queue| == Sum(QueueLens(s.channels)) + |c'.queue|
    ensures |s.channels[id].queue| <= Sum(QueueLens(s.channels))
  {
    SumUpdate(QueueLens(s.channels), id, |c'.queue|);
    SumRemove(QueueLens(s.channels), id);
    assert QueueLens(s'.channels) == QueueLens(s.channels)[id := |c'.queue|];
  }

  /* ----------------------------------- open ------------------------------------ */

  lemma OpenedKeysOk(s: State, c: ChannelConfig)
    requires KeysOk(s) && c.id !in s.channels
    ensures KeysOk(Opened(s, c))
  {
    var s' := Opened(s, c);
    var ids := IdsFor(s, c.key);
    assert c.id !in ids;
    assert s'.keys[c.key] == ids + [c.id];
    assert s'.keys[c.key][|ids|] == c.id;
    forall id | id in s'.channels
      ensures s'.channels[id].config.key in s'.keys && id in s'.keys[s'.channels[id].config.key]
    {
      if id != c.id {
        assert id in s.keys[s.channels[id].config.key];
      }
    }
  }

  lemma OpenedTableOk(s: State, c: ChannelConfig)
    requires TableOk(s) && OpenError(s, c).None?
    ensures TableOk(Opened(s, c))
  {
    var s' := Opened(s, c);
    assert |s'.channels| == |s.channels| + 1 by { assert s'.channels.Keys == s.channels.Keys + {c.id}; }
    forall x | x in s'.channels
      ensures ChannelOk(s', x, s'.channels[x])
    {
      if x != c.id {
        assert ChannelOk(s, x, s.channels[x]);
      }
    }
  }

  lemma OpenedCountOk(s: State, c: ChannelConfig)
    requires CountOk(s) && c.id !in s.channels
    ensures CountOk(Opened(s, c))
  {
    SumAdd(QueueLens(s.channels), c.id, 0);
    assert QueueLens(Opened(s, c).channels) == QueueLens(s.channels)[c.id := 0];
  }

  lemma OpenedReadyAndTagsOk(s: State, c: ChannelConfig)
    requires ReadyOk(s) && TagsOk(s) && c.id !in s.channels
    ensures ReadyOk(Opened(s, c)) && TagsOk(Opened(s, c))
  {
  }

  lemma OpenedValid(s: State, c: ChannelConfig)
    requires Valid(s) && OpenError(s, c).None?
    ensures Valid(Opened(s, c))
  {
    OpenedKeysOk(s, c);
    OpenedTableOk(s, c);
    OpenedCountOk(s, c);
    OpenedReadyAndTagsOk(s, c);
  }

  /* ---------------------------------- control ---------------------------------- */

  /** Only the control queue and the counter differ. */
  predicate SameData(s: State, s': State) {
    s' == s.(control := s'.control, totalPending := s'.totalPending)
  }

  lemma SameDataKeysOk(s: State, s': State)
    requires KeysOk(s) && SameData(s, s')
    ensures KeysOk(s')
  {
  }

  lemma SameDataReadyAndTagsOk(s: State, s': State)
    requires ReadyOk(s) && TagsOk(s) && SameData(s, s')
    ensures ReadyOk(s') && TagsOk(s')
  {
  }

  lemma SameDataTableOk(s: State, s': State)
    requires TableOk(s) && SameData(s, s')
    requires |s'.control| <= s.limits.controlQueueCapacity
    requires forall p :: p in s'.control ==> |p| <= s.limits.maxFrameBytes
    ensures TableOk(s')
  {
    forall x | x in s'.channels
      ensures ChannelOk(s', x, s'.channels[x])
    {
      assert ChannelOk(s, x, s.channels[x]);
    }
  }

  lemma ControlQueuedValid(s: State, payload: Bytes)
    requires Valid(s) && ControlError(s, payload).None?
    ensures Valid(ControlQueued(s, payload))
  {
    SameDataTableOk(s, ControlQueued(s, payload));
    SameDataKeysOk(s, ControlQueued(s, payload));
    SameDataReadyAndTagsOk(s, ControlQueued(s, payload));
  }

  lemma ControlSentValid(s: State)
    requires Valid(s) && s.control != []
    ensures s.totalPending > 0
    ensures Valid(ControlSent(s))
  {
    SameDataTableOk(s, ControlSent(s));
    SameDataKeysOk(s, ControlSent(s));
    SameDataReadyAndTagsOk(s, ControlSent(s));
  }

  /* ---------------------------------- enqueue ---------------------------------- */

  predicate Admissible(s: State, e: Envelope) {
    && e.channelId in s.channels
    && IdentityError(s, e).None? && ChannelError(s, e).None?
    && s.totalPending < s.limits.maxTotalPendingFrames
    && var c := s.channels[e.channelId];
       !c.cancelled && |c.queue| < c.config.capacity && StreamError(c, e).None?
  }

  lemma QueuedTableOk(s: State, e: Envelope)
    requires TableOk(s) && Admissible(s, e)
    ensures TableOk(Queued(s, e))
  {
    var s' := Queued(s, e);
    var c := s.channels[e.channelId];
    var c' := s'.channels[e.channelId];
    assert ChannelOk(s, e.channelId, c);
    assert forall x :: x in c'.queue ==> x in c.queue || x == e;
    assert ChannelOk(s', e.channelId, c');
    ReplacedTableOk(s, s', e.channelId, c');
  }

  lemma QueuedReadyOk(s: State, e: Envelope)
    requires ReadyOk(s) && e.channelId in s.channels
    ensures ReadyOk(Queued(s, e))
  {
    var s' := Queued(s, e);
    var id := e.channelId;
    if s.channels[id].queue == [] {
      DistinctAppend(s.ready, id);
      assert s'.ready[|s.ready|] == id;
      assert forall x :: x in s'.ready <==> x in s.ready || x == id;
    }
  }

  lemma QueuedTagsOk(s: State, e: Envelope)
    requires TagsOk(s) && e.channelId in s.channels
    ensures TagsOk(Queued(s, e))
  {
  }

  lemma QueuedValid(s: State, e: Envelope)
    requires Valid(s) && Admissible(s, e)
    ensures Valid(Queued(s, e))
  {
    var s' := Queued(s, e);
    ReplacedSum(s, s', e.channelId, s'.channels[e.channelId]);
    ReplacedKeysOk(s, s', e.channelId, s'.channels[e.channelId]);
    QueuedTableOk(s, e);
    QueuedReadyOk(s, e);
    QueuedTagsOk(s, e);
  }

  /* ----------------------------------- cancel ---------------------------------- */

  lemma CancelledReadyAndTagsOk(s: State, id: u32)
    requires ReadyOk(s) && TagsOk(s) && id in s.channels && s.totalPending >= |s.channels[id].queue|
    ensures ReadyOk(Cancelled(s, id)) && TagsOk(Cancelled(s, id))
  {
    WithoutDistinct(s.ready, id);
  }

  lemma CancelledValid(s: State, id: u32)
    requires Valid(s) && id in s.channels
    ensures s.totalPending >= |s.channels[id].queue|
    ensures Valid(Cancelled(s, id))
  {
    SumRemove(QueueLens(s.channels), id);
    var s' := Cancelled(s, id);
    var c' := s'.channels[id];
    ReplacedSum(s, s', id, c');
    ReplacedKeysOk(s, s', id, c');
    assert ChannelOk(s, id, s.channels[id]);
    ReplacedTableOk(s, s', id, c');
    CancelledReadyAndTagsOk(s, id);
  }

  /* ----------------------------------- serve ----------------------------------- */

  lemma ReadyAfterServing(s: State, k: nat)
    requires ReadyOk(s) && k < |s.ready| && s.totalPending > 0
    ensures ReadyOk(Served(s, k))
  {
    var s' := Served(s, k);
    var id := s.ready[k];
    RemoveAtDistinct(s.ready, k);
    var rest := RemoveAt(s.ready, k);
    if s.channels[id].queue[1..] != [] {
      DistinctAppend(rest, id);
      assert s'.ready == rest + [id];
      assert s'.ready[|rest|] == id;
      assert forall x :: x in s'.ready <==> x in rest || x == id;
    } else {
      assert s'.ready == rest;
    }
  }

  lemma TagsAfterServing(s: State, k: nat)
    requires ReadyOk(s) && TagsOk(s) && TableOk(s) && IsNext(s, k) && s.totalPending > 0
    ensures TagsOk(Served(s, k))
    ensures s.virtualTime <= Served(s, k).virtualTime == Tag(s, s.ready[k])
  {
    var s' := Served(s, k);
    var id := s.ready[k];
    var c := s.channels[id];
    assert ChannelOk(s, id, c);
    assert c.queue[0] in c.queue;
    CostMonotone(|c.queue[0].payload|, c.config.maxFrameBytes, c.config.priorityHint);
    forall x | x in s'.channels
      ensures s'.channels[x].virtualFinish <= s'.virtualTime + MaxCost(s'.channels[x].config)
      ensures s'.channels[x].queue != [] ==> s'.virtualTime <= s'.channels[x].virtualFinish
    {
      if x != id && s.channels[x].queue != [] {
        var j :| 0 <= j < |s.ready| && s.ready[j] == x;
        assert Tag(s, s.ready[k]) <= Tag(s, s.ready[j]);
      }
    }
  }

  lemma TableAfterServing(s: State, k: nat)
    requires ReadyOk(s) && TableOk(s) && k < |s.ready| && s.totalPending > 0
    ensures TableOk(Served(s, k))
  {
    var id := s.ready[k];
    var s' := Served(s, k);
    var c := s.channels[id];
    var c' := s'.channels[id];
    assert ChannelOk(s, id, c);
    assert forall e :: e in c'.queue ==> e in c.queue;
    assert ChannelOk(s', id, c');
    ReplacedTableOk(s, s', id, c');
  }

  lemma CountAfterServing(s: State, k: nat)
    requires ReadyOk(s) && CountOk(s) && k < |s.ready|
    ensures s.totalPending > 0
    ensures CountOk(Served(s, k))
  {
    var id := s.ready[k];
    SumRemove(QueueLens(s.channels), id);
    var s' := Served(s, k);
    ReplacedSum(s, s', id, s'.channels[id]);
  }

  lemma ServedValid(s: State, k: nat)
    requires Valid(s) && IsNext(s, k)
    ensures s.totalPending > 0
    ensures Valid(Served(s, k))
  {
    CountAfterServing(s, k);
    var s' := Served(s, k);
    ReplacedKeysOk(s, s', s.ready[k], s'.channels[s.ready[k]]);
    ReadyAfterServing(s, k);
    TagsAfterServing(s, k);
    TableAfterServing(s, k);
  }

  /** With nothing in control, something is served exactly when anything is pending. */
  lemma WorkConserving(s: State)
    requires Valid(s) && s.control == []
    ensures s.ready == [] <==> s.totalPending == 0
  {
    if s.ready == [] {
      SumZero(QueueLens(s.channels));
    } else {
      var id := s.ready[0];
      SumRemove(QueueLens(s.channels), id);
    }
  }

  /* ----------------------------------- close ----------------------------------- */

  lemma ClosedKeysOk(s: State, id: u32)
    requires KeysOk(s) && id in s.channels
    ensures KeysOk(Closed(s, id))
  {
    var key := s.channels[id].config.key;
    var s' := Closed(s, id);
    var left := Without(s.keys[key], id);
    WithoutDistinct(s.keys[key], id);
    forall x | x in s'.channels
      ensures s'.channels[x].config.key in s'.keys && x in s'.keys[s'.channels[x].config.key]
    {
      if s.channels[x].config.key == key {
        assert x in left;
      }
    }
  }

  lemma ClosedTableOk(s: State, id: u32)
    requires TableOk(s) && id in s.channels
    ensures TableOk(Closed(s, id))
  {
    var s' := Closed(s, id);
    assert |s'.channels| == |s.channels| - 1 by { assert s'.channels.Keys == s.channels.Keys - {id}; }
    assert |s'.retired| == |s.retired| + 1;
    assert ChannelOk(s, id, s.channels[id]);
    forall x | x in s'.channels
      ensures ChannelOk(s', x, s'.channels[x])
    {
      assert ChannelOk(s, x, s.channels[x]);
    }
  }

  lemma ClosedReadyAndTagsOk(s: State, id: u32)
    requires ReadyOk(s) && TagsOk(s) && id in s.channels
    ensures ReadyOk(Closed(s, id)) && TagsOk(Closed(s, id))
  {
    WithoutDistinct(s.ready, id);
  }

  lemma ClosedCountOk(s: State, id: u32)
    requires CountOk(s) && id in s.channels
    ensures s.totalPending >= |s.channels[id].queue|
    ensures CountOk(Closed(s, id))
  {
    SumRemove(QueueLens(s.channels), id);
    assert QueueLens(Closed(s, id).channels) == QueueLens(s.channels) - {id};
  }

  lemma ClosedValid(s: State, id: u32)
    requires Valid(s) && id in s.channels
    ensures s.totalPending >= |s.channels[id].queue|
    ensures Valid(Closed(s, id))
  {
    ClosedKeysOk(s, id);
    ClosedTableOk(s, id);
    ClosedReadyAndTagsOk(s, id);
    ClosedCountOk(s, id);
  }

  lemma EmptiedTableOk(s: State)
    requires TableOk(s)
    ensures TableOk(Emptied(s))
  {
    var s' := Emptied(s);
    assert s'.channels.Keys == s.channels.Keys;
    assert |s'.channels| == |s.channels|;
    forall x | x in s'.channels
      ensures ChannelOk(s', x, s'.channels[x])
    {
      assert ChannelOk(s, x, s.channels[x]);
    }
  }

  lemma EmptiedKeysOk(s: State)
    requires KeysOk(s)
    ensures KeysOk(Emptied(s))
  {
    assert forall id :: id in s.channels ==> Emptied(s).channels[id].config == s.channels[id].config;
  }

  lemma EmptiedValid(s: State)
    requires Valid(s)
    ensures Valid(Emptied(s))
  {
    SumZero(QueueLens(Emptied(s).channels));
    EmptiedTableOk(s);
    EmptiedKeysOk(s);
  }
}
