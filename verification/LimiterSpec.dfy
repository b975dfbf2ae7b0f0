/**
  Sliding-window admission (`rate_limit.rs` of the pairing crate, `lib.rs` of the discovery crate).
  Both limiters keep a queue of recent admissions per peer; the specification keeps everything
  that was ever admitted.
 */
module LimiterSpec {
  import opened Base

  datatype Config = Config(maximum: nat, maxPeers: nat, window: nat) {
    predicate IsValid() { maximum > 0 && maxPeers > 0 && window > 0 }
  }

  datatype Attempt<+P> = Attempt(peer: P, now: nat)

  type Table<P(==)> = map<P, seq<nat>>

  /** Time since `earlier`, zero if the clock has gone back. */
  function Since(now: nat, earlier: nat): nat { Max(now - earlier, 0) }

  /* ------------------------------- The bounded table --------------------------------- */

  predicate Live(entries: seq<nat>, now: nat, window: nat) {
    entries != [] && Since(now, entries[|entries| - 1]) < window
  }

  function Retained<P>(t: Table<P>, now: nat, window: nat): Table<P> {
    map p | p in t && Live(t[p], now, window) :: t[p]
  }

  function Trim(entries: seq<nat>, now: nat, window: nat): seq<nat> {
    if entries != [] && Since(now, entries[0]) >= window then Trim(entries[1..], now, window) else entries
  }

  function Entries<P>(t: Table<P>, peer: P): seq<nat> { if peer in t then t[peer] else [] }

  function Admit<P>(c: Config, t: Table<P>, a: Attempt<P>): (Table<P>, bool) {
    var kept := Retained(t, a.now, c.window);
    if a.peer !in kept && |kept| >= c.maxPeers then (kept, false)
    else
      var entries := Trim(Entries(kept, a.peer), a.now, c.window);
      if |entries| >= c.maximum then (kept[a.peer := entries], false)
      else (kept[a.peer := entries + [a.now]], true)
  }

  ghost function Final<P(!new)>(c: Config, attempts: seq<Attempt<P>>): Table<P> {
    if attempts == [] then map[] else Admit(c, Final(c, attempts[..|attempts| - 1]), attempts[|attempts| - 1]).0
  }

  /* ------------------------------- The full history ----------------------------------- */

  /** The times at which the peer was admitted. */
  function Times<P(==)>(history: seq<Attempt<P>>, peer: P): seq<nat> {
    if history == [] then []
    else
      var n := |history| - 1;
      Times(history[..n], peer) + (if history[n].peer == peer then [history[n].now] else [])
  }

  /** Those still inside the window that ends at `now`. */
  function Recent(times: seq<nat>, now: nat, window: nat): seq<nat> {
    if times == [] then []
    else
      var n := |times| - 1;
      Recent(times[..n], now, window) + (if Since(now, times[n]) < window then [times[n]] else [])
  }

  ghost function Peers<P>(history: seq<Attempt<P>>): set<P> {
    set k | 0 <= k < |history| :: history[k].peer
  }

  /** The peers admitted at least once inside the window. */
  ghost function LivePeers<P>(history: seq<Attempt<P>>, now: nat, window: nat): set<P> {
    set p | p in Peers(history) && Recent(Times(history, p), now, window) != []
  }

  /**
    The rule in terms of everything ever admitted: the peer is already active or there is room for
    another active peer, and it has had fewer than the maximum admissions inside the window.
   */
  ghost predicate Allowed<P>(c: Config, history: seq<Attempt<P>>, a: Attempt<P>) {
    && (a.peer in LivePeers(history, a.now, c.window) || |LivePeers(history, a.now, c.window)| < c.maxPeers)
    && |Recent(Times(history, a.peer), a.now, c.window)| < c.maximum
  }

  ghost function History<P>(c: Config, attempts: seq<Attempt<P>>): seq<Attempt<P>> {
    if attempts == [] then []
    else
      var n := |attempts| - 1;
      var history := History(c, attempts[..n]);
      if Allowed(c, history, attempts[n]) then history + [attempts[n]] else history
  }

  predicate Nondecreasing(times: seq<nat>) {
    forall i, j :: 0 <= i < j < |times| ==> times[i] <= times[j]
  }

  predicate Nonincreasing(times: seq<nat>) {
    forall i, j :: 0 <= i < j < |times| ==> times[i] >= times[j]
  }

  /** What the clock showed at each attempt. */
  function Readings<P>(attempts: seq<Attempt<P>>): (r: seq<nat>)
    ensures |r| == |attempts| && forall k :: 0 <= k < |r| ==> r[k] == attempts[k].now
  {
    seq(|attempts|, k requires 0 <= k < |attempts| => attempts[k].now)
  }

  /* ----------------------------------- Refinement ------------------------------------- */

  predicate AllOld(times: seq<nat>, now: nat, window: nat) {
    forall k :: 0 <= k < |times| ==> Since(now, times[k]) >= window
  }

  /** The table's queue is the tail of the peer's admissions; whatever it dropped has left the window. */
  ghost predicate Tracks(entries: seq<nat>, times: seq<nat>, now: nat, window: nat) {
    && |entries| <= |times| && entries == times[|times| - |entries|..]
    && AllOld(times[..|times| - |entries|], now, window)
    && Nondecreasing(times) && (times != [] ==> times[|times| - 1] <= now)
  }

  lemma {:induction false} RecentAppend(a: seq<nat>, b: seq<nat>, now: nat, window: nat)
    ensures Recent(a + b, now, window) == Recent(a, now, window) + Recent(b, now, window)
  {
    if b == [] {
      assert a + b == a;
    } else {
      assert (a + b)[..|a + b| - 1] == a + b[..|b| - 1];
      RecentAppend(a, b[..|b| - 1], now, window);
    }
  }

  lemma {:induction false} RecentOfOld(times: seq<nat>, now: nat, window: nat)
    requires AllOld(times, now, window)
    ensures Recent(times, now, window) == []
  {
    if times != [] {
      RecentOfOld(times[..|times| - 1], now, window);
    }
  }

  lemma {:induction false} RecentOfFresh(times: seq<nat>, now: nat, window: nat)
    requires forall k :: 0 <= k < |times| ==> Since(now, times[k]) < window
    ensures Recent(times, now, window) == times
  {
    if times != [] {
      RecentOfFresh(times[..|times| - 1], now, window);
      assert times == times[..|times| - 1] + [times[|times| - 1]];
    }
  }

  /** Where trimming cuts: everything before is old, and what comes next is not. */
  lemma {:induction false} TrimCut(entries: seq<nat>, now: nat, window: nat) returns (k: nat)
    ensures k <= |entries| && Trim(entries, now, window) == entries[k..]
    ensures AllOld(entries[..k], now, window)
    ensures k < |entries| ==> Since(now, entries[k]) < window
  {
    if entries != [] && Since(now, entries[0]) >= window {
      var j := TrimCut(entries[1..], now, window);
      k := j + 1;
      assert entries[1..][j..] == entries[k..];
      forall i | 0 <= i < k
        ensures Since(now, entries[..k][i]) >= window
      {
        if i > 0 {
          assert entries[..k][i] == entries[1..][..j][i - 1];
        }
      }
    } else {
      k := 0;
    }
  }

  /** Popping old entries off the front of an ordered queue leaves exactly the recent ones. */
  lemma TrimIsRecent(entries: seq<nat>, now: nat, window: nat)
    requires Nondecreasing(entries)
    ensures Trim(entries, now, window) == Recent(entries, now, window)
  {
    hide Trim, Recent;
    var k := TrimCut(entries, now, window);
    assert entries == entries[..k] + entries[k..];
    RecentAppend(entries[..k], entries[k..], now, window);
    RecentOfOld(entries[..k], now, window);
    forall i | 0 <= i < |entries[k..]|
      ensures Since(now, entries[k..][i]) < window
    {
      assert entries[k] <= entries[k + i];
    }
    RecentOfFresh(entries[k..], now, window);
  }

  lemma {:induction false} TrimShrinks(entries: seq<nat>, now: nat, window: nat)
    ensures |Trim(entries, now, window)| <= |entries|
  {
    if entries != [] && Since(now, entries[0]) >= window {
      TrimShrinks(entries[1..], now, window);
    }
  }

  lemma OldLater(times: seq<nat>, before: nat, now: nat, window: nat)
    requires AllOld(times, before, window) && before <= now
    ensures AllOld(times, now, window)
  {
  }

  lemma OldAppend(a: seq<nat>, b: seq<nat>, now: nat, window: nat)
    requires AllOld(a, now, window) && AllOld(b, now, window)
    ensures AllOld(a + b, now, window)
  {
  }

  lemma TrimTracks(entries: seq<nat>, times: seq<nat>, before: nat, now: nat, window: nat)
    requires Tracks(entries, times, before, window) && before <= now
    ensures Tracks(Trim(entries, now, window), times, now, window)
  {
    hide Trim, AllOld;
    var cut := |times| - |entries|;
    var k := TrimCut(entries, now, window);
    var dropped := times[..cut];
    OldLater(dropped, before, now, window);
    OldAppend(dropped, entries[..k], now, window);
    assert times[..cut + k] == dropped + entries[..k];
    assert entries[k..] == times[cut + k..];
  }

  lemma DroppedNotRecent(entries: seq<nat>, times: seq<nat>, before: nat, now: nat, window: nat)
    requires Tracks(entries, times, before, window) && before <= now
    ensures Recent(times, now, window) == Recent(entries, now, window)
    ensures Nondecreasing(entries)
  {
    hide Recent, AllOld;
    var dropped := times[..|times| - |entries|];
    assert times == dropped + entries;
    OldLater(dropped, before, now, window);
    RecentAppend(dropped, entries, now, window);
    RecentOfOld(dropped, now, window);
  }

  /** What the queue says about the window is what the full history says. */
  lemma TrackedRecent(entries: seq<nat>, times: seq<nat>, before: nat, now: nat, window: nat)
    requires Tracks(entries, times, before, window) && before <= now
    ensures Trim(entries, now, window) == Recent(times, now, window)
    ensures Tracks(Trim(entries, now, window), times, now, window)
    ensures Live(entries, now, window) <==> Recent(times, now, window) != []
  {
    hide Tracks, Nondecreasing, Trim, Recent, Live;
    TrimTracks(entries, times, before, now, window);
    DroppedNotRecent(entries, times, before, now, window);
    TrimIsRecent(entries, now, window);
    LiveIsRecent(entries, now, window);
  }

  lemma LiveIsRecent(entries: seq<nat>, now: nat, window: nat)
    requires Nondecreasing(entries)
    ensures Live(entries, now, window) <==> Recent(entries, now, window) != []
  {
    if entries != [] && Since(now, entries[|entries| - 1]) >= window {
      RecentOfOld(entries, now, window);
    }
  }

  lemma NondecreasingNext(times: seq<nat>, now: nat)
    requires Nondecreasing(times) && (times != [] ==> times[|times| - 1] <= now)
    ensures Nondecreasing(times + [now])
  {
  }

  lemma NewTracked(entries: seq<nat>, times: seq<nat>, now: nat, window: nat)
    requires Tracks(entries, times, now, window)
    ensures Tracks(entries + [now], times + [now], now, window)
  {
    hide Nondecreasing, AllOld;
    NondecreasingNext(times, now);
    var longer := times + [now];
    assert longer[..|longer| - |entries + [now]|] == times[..|times| - |entries|];
  }

  lemma DeadTracked(entries: seq<nat>, times: seq<nat>, before: nat, now: nat, window: nat)
    requires Tracks(entries, times, before, window) && before <= now && !Live(entries, now, window)
    ensures Tracks([], times, now, window)
  {
    var cut := |times| - |entries|;
    assert times == times[..cut] + entries;
    assert times[..|times|] == times;
    forall k | 0 <= k < |times|
      ensures Since(now, times[k]) >= window
    {
      if k < cut {
        assert times[..cut][k] == times[k];
      } else {
        assert times[k] == entries[k - cut];
      }
    }
  }

  lemma LaterTracked(entries: seq<nat>, times: seq<nat>, before: nat, now: nat, window: nat)
    requires Tracks(entries, times, before, window) && before <= now
    ensures Tracks(entries, times, now, window)
  {
  }

  /** The table keeps nothing empty, stays within its size, and tracks the history of every peer. */
  ghost predicate Refines<P(!new)>(c: Config, t: Table<P>, history: seq<Attempt<P>>, now: nat) {
    && |t| <= c.maxPeers
    && (forall p :: p in t ==> t[p] != [] && p in Peers(history))
    && forall p :: Tracks(Entries(t, p), Times(history, p), now, c.window)
  }

  lemma {:induction false} NoTimes<P>(history: seq<Attempt<P>>, peer: P)
    requires peer !in Peers(history)
    ensures Times(history, peer) == []
  {
    if history != [] {
      var n := |history| - 1;
      assert history[n].peer in Peers(history);
      assert forall k :: 0 <= k < n ==> history[..n][k].peer in Peers(history);
      NoTimes(history[..n], peer);
    }
  }

  /** Dropping idle queues keeps exactly the peers active inside the window. */
  lemma RetainedIsLive<P(!new)>(c: Config, t: Table<P>, history: seq<Attempt<P>>, before: nat, now: nat)
    requires Refines(c, t, history, before) && before <= now
    ensures Retained(t, now, c.window).Keys == LivePeers(history, now, c.window)
    ensures Refines(c, Retained(t, now, c.window), history, now)
  {
    hide Tracks, Live, Recent, Times, Trim;
    var kept := Retained(t, now, c.window);
    forall p
      ensures p in kept <==> p in LivePeers(history, now, c.window)
      ensures Tracks(Entries(kept, p), Times(history, p), now, c.window)
    {
      TrackedRecent(Entries(t, p), Times(history, p), before, now, c.window);
      if Live(Entries(t, p), now, c.window) {
        LaterTracked(Entries(t, p), Times(history, p), before, now, c.window);
        LiveKept(Entries(t, p), now, c.window);
      } else {
        DeadTracked(Entries(t, p), Times(history, p), before, now, c.window);
      }
    }
    assert kept.Keys <= t.Keys;
    SubsetSize(kept.Keys, t.Keys);
  }

  lemma LiveKept(entries: seq<nat>, now: nat, window: nat)
    requires Live(entries, now, window)
    ensures entries != []
  {
  }

  lemma AdmitRefines<P(!new)>(c: Config, t: Table<P>, history: seq<Attempt<P>>, before: nat, a: Attempt<P>)
    requires c.IsValid() && Refines(c, t, history, before) && before <= a.now
    ensures Admit(c, t, a).1 <==> Allowed(c, history, a)
    ensures Refines(c, Admit(c, t, a).0, if Allowed(c, history, a) then history + [a] else history, a.now)
  {
    hide Tracks, Live, Recent, Times, Trim, Retained, LivePeers, Refines, Entries;
    RetainedIsLive(c, t, history, before, a.now);
    var kept := Retained(t, a.now, c.window);
    var entries := Trim(Entries(kept, a.peer), a.now, c.window);
    TracksOf(c, kept, history, a.now, a.peer);
    TrackedRecent(Entries(kept, a.peer), Times(history, a.peer), a.now, a.now, c.window);
    assert |kept| == |kept.Keys|;
    if a.peer in kept || |kept| < c.maxPeers {
      if |entries| >= c.maximum {
        assert entries != [];
        PutRefines(c, kept, history, a.now, a.peer, entries);
      } else {
        AddRefines(c, kept, history, a, entries);
      }
    }
  }

  lemma TracksOf<P(!new)>(c: Config, t: Table<P>, history: seq<Attempt<P>>, now: nat, peer: P)
    requires Refines(c, t, history, now)
    ensures Tracks(Entries(t, peer), Times(history, peer), now, c.window)
  {
  }

  lemma PutSize<P>(t: Table<P>, peer: P, entries: seq<nat>, limit: nat)
    requires |t| <= limit && (peer in t || |t| < limit)
    ensures |t[peer := entries]| <= limit
  {
    assert t[peer := entries].Keys == t.Keys + {peer};
  }

  lemma PutRefines<P(!new)>(c: Config, t: Table<P>, history: seq<Attempt<P>>, now: nat, peer: P, entries: seq<nat>)
    requires Refines(c, t, history, now) && (peer in t || |t| < c.maxPeers) && entries != []
    requires Tracks(entries, Times(history, peer), now, c.window)
    ensures Refines(c, t[peer := entries], history, now)
  {
    hide Times;
    PutSize(t, peer, entries, c.maxPeers);
    if peer !in Peers(history) {
      NoTimes(history, peer);
    }
    hide Tracks;
    var after := t[peer := entries];
    forall p
      ensures Tracks(Entries(after, p), Times(history, p), now, c.window)
    {
      assert Tracks(Entries(t, p), Times(history, p), now, c.window);
    }
  }

  lemma AddRefines<P(!new)>(c: Config, t: Table<P>, history: seq<Attempt<P>>, a: Attempt<P>, entries: seq<nat>)
    requires Refines(c, t, history, a.now) && (a.peer in t || |t| < c.maxPeers)
    requires Tracks(entries, Times(history, a.peer), a.now, c.window)
    ensures Refines(c, t[a.peer := entries + [a.now]], history + [a], a.now)
  {
    hide Tracks;
    PutSize(t, a.peer, entries + [a.now], c.maxPeers);
    NewTracked(entries, Times(history, a.peer), a.now, c.window);
    var after, longer := t[a.peer := entries + [a.now]], history + [a];
    assert longer[..|history|] == history;
    forall p
      ensures Tracks(Entries(after, p), Times(longer, p), a.now, c.window)
    {
      assert Tracks(Entries(t, p), Times(history, p), a.now, c.window);
      assert Times(longer, p) == Times(history, p) + if p == a.peer then [a.now] else [];
      assert p != a.peer ==> Times(longer, p) == Times(history, p);
    }
    forall p | p in after
      ensures after[p] != [] && p in Peers(longer)
    {
      if p == a.peer {
        assert longer[|history|].peer == p;
      } else {
        var k :| 0 <= k < |history| && history[k].peer == p;
        assert longer[k].peer == p;
      }
    }
  }

  function LastTime<P>(attempts: seq<Attempt<P>>): nat {
    if attempts == [] then 0 else attempts[|attempts| - 1].now
  }

  lemma NothingRefines<P(!new)>(c: Config)
    ensures Refines<P>(c, map[], [], 0)
  {
  }

  lemma DecidesNext<P(!new)>(c: Config, attempts: seq<Attempt<P>>)
    requires attempts != [] && DecidesAsHistory(c, attempts[..|attempts| - 1])
    requires var m := |attempts| - 1;
             Admit(c, Final(c, attempts[..m]), attempts[m]).1 <==> Allowed(c, History(c, attempts[..m]), attempts[m])
    ensures DecidesAsHistory(c, attempts)
  {
    hide Admit, Allowed, Final, History;
    var m := |attempts| - 1;
    forall n | 0 <= n < |attempts|
      ensures Admit(c, Final(c, attempts[..n]), attempts[n]).1 <==> Allowed(c, History(c, attempts[..n]), attempts[n])
    {
      if n < m {
        assert attempts[..m][..n] == attempts[..n] && attempts[..m][n] == attempts[n];
      }
    }
  }

  lemma NothingDecided<P(!new)>(c: Config)
    ensures DecidesAsHistory<P>(c, [])
  {
  }

  /** With a clock that never goes back the table refines the history after every run. */
  lemma {:induction false} AdvancingRefines<P(!new)>(c: Config, attempts: seq<Attempt<P>>)
    requires c.IsValid() && Nondecreasing(Readings(attempts))
    ensures Refines(c, Final(c, attempts), History(c, attempts), LastTime(attempts))
    ensures DecidesAsHistory(c, attempts)
  {
    hide Refines, Admit, Allowed, DecidesAsHistory;
    if attempts == [] {
      NothingDecided<P>(c);
      NothingRefines<P>(c);
    } else {
      var m := |attempts| - 1;
      AdvancingRefines(c, attempts[..m]);
      AdmitRefines(c, Final(c, attempts[..m]), History(c, attempts[..m]), LastTime(attempts[..m]), attempts[m]);
      DecidesNext(c, attempts);
    }
  }

  /** `p` tries at the chosen moments and `q` at all others. */
  function Mixed<P>(nows: seq<nat>, own: set<nat>, p: P, q: P): (r: seq<Attempt<P>>)
    ensures |r| == |nows| && Readings(r) == nows
    ensures forall i :: 0 <= i < |nows| ==> r[i] == Attempt(if i in own then p else q, nows[i])
  {
    seq(|nows|, i requires 0 <= i < |nows| => Attempt(if i in own then p else q, nows[i]))
  }

  /* ------------------------------------ Admissions ------------------------------------- */

  /** The attempts the bounded table admits over the run. */
  ghost function Granted<P(!new)>(c: Config, attempts: seq<Attempt<P>>): seq<Attempt<P>> {
    if attempts == [] then []
    else
      var n := |attempts| - 1;
      Granted(c, attempts[..n]) + (if Admit(c, Final(c, attempts[..n]), attempts[n]).1 then [attempts[n]] else [])
  }

  /** The table admits exactly the attempts the full history allows. */
  ghost predicate DecidesAsHistory<P(!new)>(c: Config, attempts: seq<Attempt<P>>) {
    forall n :: 0 <= n < |attempts| ==>
      (Admit(c, Final(c, attempts[..n]), attempts[n]).1 <==> Allowed(c, History(c, attempts[..n]), attempts[n]))
  }

  lemma TimesNext<P>(history: seq<Attempt<P>>, a: Attempt<P>, peer: P)
    ensures Times(history + [a], peer)
         == if a.peer == peer then Times(history, peer) + [a.now] else Times(history, peer)
  {
    assert (history + [a])[..|history|] == history;
  }

  /** An attempt of a peer nothing is kept of, with room for it, is admitted. */
  lemma AdmitNewcomer<P>(c: Config, t: Table<P>, a: Attempt<P>)
    requires c.IsValid()
    requires a.peer !in Retained(t, a.now, c.window) && |Retained(t, a.now, c.window)| < c.maxPeers
    ensures Admit(c, t, a) == (Retained(t, a.now, c.window)[a.peer := [a.now]], true)
  {
    assert Entries(Retained(t, a.now, c.window), a.peer) == [];
    assert [] + [a.now] == [a.now];
  }
}
