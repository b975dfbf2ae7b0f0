/** Which clocks the bounded table is right for: exactly those that never turn. */
module LimiterClock {
  import opened Base
  import opened LimiterSpec

  /* ------------------------------- A clock that only falls ------------------------------ */

  predicate AtLeast(times: seq<nat>, now: nat) {
    forall k :: 0 <= k < |times| ==> times[k] >= now
  }

  /** While nothing leaves the window the table holds every admission. */
  ghost predicate Mirrors<P(!new)>(t: Table<P>, history: seq<Attempt<P>>) {
    && (forall p :: Entries(t, p) == Times(history, p))
    && forall p :: p in t ==> t[p] != []
  }

  lemma {:induction false} TimesAtLeast<P>(history: seq<Attempt<P>>, peer: P, now: nat)
    requires forall k :: 0 <= k < |history| ==> history[k].now >= now
    ensures AtLeast(Times(history, peer), now)
  {
    if history != [] {
      TimesAtLeast(history[..|history| - 1], peer, now);
    }
  }

  lemma MirrorAdmits<P(!new)>(c: Config, t: Table<P>, history: seq<Attempt<P>>, a: Attempt<P>)
    requires c.IsValid() && Mirrors(t, history) && forall k :: 0 <= k < |history| ==> history[k].now >= a.now
    ensures Admit(c, t, a).1 <==> Allowed(c, history, a)
    ensures Mirrors(Admit(c, t, a).0, if Allowed(c, history, a) then history + [a] else history)
  {
    hide Trim, Recent, Times, Peers, Mirrors;
    MirrorKeeps(c, t, history, a.now);
    MirrorLives(c, t, history, a.now);
    MirrorEntries(c, t, history, a.peer, a.now);
    var entries := Times(history, a.peer);
    assert |t| == |t.Keys|;
    if a.peer in t || |t| < c.maxPeers {
      if |entries| < c.maximum {
        MirrorAdds(t, history, a);
      } else {
        MirrorPuts(t, history, a.peer);
      }
    }
  }

  lemma MirrorKeeps<P(!new)>(c: Config, t: Table<P>, history: seq<Attempt<P>>, now: nat)
    requires c.window > 0 && Mirrors(t, history) && forall k :: 0 <= k < |history| ==> history[k].now >= now
    ensures Retained(t, now, c.window) == t
  {
    hide Times;
    forall p | p in t
      ensures Live(t[p], now, c.window)
    {
      TimesAtLeast(history, p, now);
      assert Entries(t, p) == t[p];
    }
  }

  lemma MirrorEntries<P(!new)>(c: Config, t: Table<P>, history: seq<Attempt<P>>, peer: P, now: nat)
    requires c.window > 0 && Mirrors(t, history) && forall k :: 0 <= k < |history| ==> history[k].now >= now
    ensures Trim(Entries(t, peer), now, c.window) == Entries(t, peer) == Times(history, peer)
    ensures Recent(Times(history, peer), now, c.window) == Times(history, peer)
  {
    hide Times, Recent;
    TimesAtLeast(history, peer, now);
    RecentOfFresh(Times(history, peer), now, c.window);
  }

  lemma MirrorLives<P(!new)>(c: Config, t: Table<P>, history: seq<Attempt<P>>, now: nat)
    requires c.window > 0 && Mirrors(t, history) && forall k :: 0 <= k < |history| ==> history[k].now >= now
    ensures LivePeers(history, now, c.window) == t.Keys
  {
    hide Times, Recent, Peers;
    forall p
      ensures p in LivePeers(history, now, c.window) <==> p in t
    {
      MirrorEntries(c, t, history, p, now);
      if p !in Peers(history) {
        NoTimes(history, p);
      }
    }
  }

  lemma MirrorAdds<P(!new)>(t: Table<P>, history: seq<Attempt<P>>, a: Attempt<P>)
    requires Mirrors(t, history)
    ensures Mirrors(t[a.peer := Times(history, a.peer) + [a.now]], history + [a])
  {
    hide Times;
    forall p
      ensures Entries(t[a.peer := Times(history, a.peer) + [a.now]], p) == Times(history + [a], p)
    {
      TimesNext(history, a, p);
      assert Entries(t, p) == Times(history, p);
    }
  }

  lemma MirrorPuts<P(!new)>(t: Table<P>, history: seq<Attempt<P>>, peer: P)
    requires Mirrors(t, history) && Times(history, peer) != []
    ensures Mirrors(t[peer := Times(history, peer)], history)
  {
    hide Times;
    assert Entries(t, peer) == Times(history, peer);
    assert t[peer := Times(history, peer)] == t;
  }

  lemma {:induction false} FallingMirrors<P(!new)>(c: Config, attempts: seq<Attempt<P>>)
    requires c.IsValid() && Nonincreasing(Readings(attempts))
    ensures Mirrors(Final(c, attempts), History(c, attempts))
    ensures DecidesAsHistory(c, attempts)
  {
    hide Admit, Allowed, Mirrors, DecidesAsHistory;
    if attempts == [] {
      NothingDecided<P>(c);
      NothingMirrors<P>();
    } else {
      var m := |attempts| - 1;
      FallingMirrors(c, attempts[..m]);
      HistoryAtLeast(c, attempts[..m], attempts[m].now);
      MirrorAdmits(c, Final(c, attempts[..m]), History(c, attempts[..m]), attempts[m]);
      DecidesNext(c, attempts);
    }
  }

  lemma NothingMirrors<P(!new)>()
    ensures Mirrors<P>(map[], [])
  {
  }

  lemma {:induction false} HistoryAtLeast<P>(c: Config, attempts: seq<Attempt<P>>, now: nat)
    requires forall k :: 0 <= k < |attempts| ==> attempts[k].now >= now
    ensures forall k :: 0 <= k < |History(c, attempts)| ==> History(c, attempts)[k].now >= now
  {
    hide Allowed;
    if attempts != [] {
      HistoryAtLeast(c, attempts[..|attempts| - 1], now);
    }
  }

  /* --------------------------------- A clock that turns --------------------------------- */

  /** The first reading that goes against the ones before it. */
  predicate Turns(nows: seq<nat>, k: nat) {
    && 2 <= k < |nows|
    && ((nows[0] < nows[k - 1] && nows[k] < nows[k - 1]) || (nows[0] > nows[k - 1] && nows[k] > nows[k - 1]))
  }

  lemma {:induction false} FirstTurn(nows: seq<nat>) returns (k: nat)
    requires !Nondecreasing(nows) && !Nonincreasing(nows)
    ensures Turns(nows, k)
  {
    var m := |nows| - 1;
    if Nondecreasing(nows[..m]) {
      RisingTurn(nows);
      k := m;
    } else if Nonincreasing(nows[..m]) {
      FallingTurn(nows);
      k := m;
    } else {
      k := FirstTurn(nows[..m]);
    }
  }

  lemma RisingTurn(nows: seq<nat>)
    requires !Nondecreasing(nows) && !Nonincreasing(nows) && Nondecreasing(nows[..|nows| - 1])
    ensures Turns(nows, |nows| - 1)
  {
    var m := |nows| - 1;
    var before := nows[..m];
    assert forall i :: 0 <= i < m ==> before[i] == nows[i];
    var i, j :| 0 <= i < j < |nows| && nows[i] > nows[j];
    var i', j' :| 0 <= i' < j' < |nows| && nows[i'] < nows[j'];
    assert j == m;
    assert before[i] <= before[m - 1];
    if j' < m {
      assert before[0] <= before[i'] && before[j'] <= before[m - 1];
    } else {
      assert before[0] <= before[i'] && before[i] <= before[m - 1];
    }
  }

  lemma FallingTurn(nows: seq<nat>)
    requires !Nondecreasing(nows) && !Nonincreasing(nows) && Nonincreasing(nows[..|nows| - 1])
    ensures Turns(nows, |nows| - 1)
  {
    var m := |nows| - 1;
    var before := nows[..m];
    assert forall i :: 0 <= i < m ==> before[i] == nows[i];
    var i, j :| 0 <= i < j < |nows| && nows[i] < nows[j];
    var i', j' :| 0 <= i' < j' < |nows| && nows[i'] > nows[j'];
    assert j == m;
    assert before[i] >= before[m - 1];
    if j' < m {
      assert before[0] >= before[i'] && before[j'] >= before[m - 1];
    } else {
      assert before[0] >= before[i'] && before[i] >= before[m - 1];
    }
  }

  lemma FinalNext<P(!new)>(c: Config, attempts: seq<Attempt<P>>, n: nat)
    requires n < |attempts|
    ensures Final(c, attempts[..n + 1]) == Admit(c, Final(c, attempts[..n]), attempts[n]).0
    ensures History(c, attempts[..n + 1])
         == if Allowed(c, History(c, attempts[..n]), attempts[n]) then History(c, attempts[..n]) + [attempts[n]]
            else History(c, attempts[..n])
  {
    hide Admit, Allowed;
    assert attempts[..n + 1][..n] == attempts[..n];
  }

  /* The clock rises and then drops: `p` tries first and at the turn, `q` in between. */

  /** After `n` attempts the table has at most the first admission of `p`, and the history has it. */
  ghost predicate OnceVisited<P(!new)>(t: Table<P>, history: seq<Attempt<P>>, first: nat, p: P, q: P) {
    && t.Keys <= {p, q} && (p in t ==> t[p] == [first])
    && Times(history, p) == [first]
  }

  lemma FirstVisit<P(!new)>(c: Config, a: Attempt<P>, q: P)
    requires c.IsValid() && a.peer != q
    ensures Allowed(c, [], a)
    ensures OnceVisited(Admit(c, map[], a).0, [a], a.now, a.peer, q)
  {
    assert Retained<P>(map[], a.now, c.window) == map[];
    assert LivePeers<P>([], a.now, c.window) == {};
    assert [] + [a] == [a] && [] + [a.now] == [a.now];
    TimesNext([], a, a.peer);
  }

  lemma OtherVisit<P(!new)>(c: Config, t: Table<P>, history: seq<Attempt<P>>, first: nat, p: P, a: Attempt<P>)
    requires OnceVisited(t, history, first, p, a.peer) && p != a.peer
    ensures OnceVisited(Admit(c, t, a).0, if Allowed(c, history, a) then history + [a] else history, first, p, a.peer)
    ensures Since(a.now, first) >= c.window ==> p !in Admit(c, t, a).0
  {
    hide Allowed, Times, Trim;
    TimesNext(history, a, p);
  }

  lemma {:induction false} VisitsOnce<P(!new)>(c: Config, nows: seq<nat>, k: nat, p: P, q: P, n: nat)
    requires c.IsValid() && p != q && 0 < n <= k < |nows|
    ensures var attempts := Mixed(nows, {0, k}, p, q);
            OnceVisited(Final(c, attempts[..n]), History(c, attempts[..n]), nows[0], p, q)
  {
    hide Admit, Allowed, Final, History, OnceVisited;
    var attempts := Mixed(nows, {0, k}, p, q);
    FinalNext(c, attempts, n - 1);
    if n == 1 {
      assert attempts[..0] == [];
      NothingAdmitted<P>(c);
      FirstVisit(c, attempts[0], q);
      assert [] + [attempts[0]] == [attempts[0]];
    } else {
      VisitsOnce(c, nows, k, p, q, n - 1);
      OtherVisit(c, Final(c, attempts[..n - 1]), History(c, attempts[..n - 1]), nows[0], p, attempts[n - 1]);
    }
  }

  lemma NothingAdmitted<P(!new)>(c: Config)
    ensures Final<P>(c, []) == map[] && History<P>(c, []) == []
  {
  }

  lemma ForgottenVisitor<P(!new)>(c: Config, t: Table<P>, history: seq<Attempt<P>>, first: nat, q: P, a: Attempt<P>)
    requires c.maximum == 1 && c.maxPeers == 2 && c.window > 0 && a.peer != q
    requires OnceVisited(t, history, first, a.peer, q) && a.peer !in t && Since(a.now, first) < c.window
    ensures Admit(c, t, a).1 && !Allowed(c, history, a)
  {
    hide LivePeers;
    var kept := Retained(t, a.now, c.window);
    assert kept.Keys <= {q};
    SubsetSize(kept.Keys, {q});
    assert Recent([first], a.now, c.window) == [first] by {
      assert [first][..0] == [];
    }
  }

  lemma RiseThenDropForgets<P(!new)>(nows: seq<nat>, k: nat, p: P, q: P)
    requires p != q && 2 <= k < |nows| && nows[0] < nows[k - 1] && nows[k] < nows[k - 1]
    ensures !DecidesAsHistory(Config(1, 2, nows[k - 1] - nows[0]), Mixed(nows, {0, k}, p, q))
  {
    hide Admit, Allowed, Final, History, OnceVisited;
    var c, attempts := Config(1, 2, nows[k - 1] - nows[0]), Mixed(nows, {0, k}, p, q);
    VisitsOnce(c, nows, k, p, q, k - 1);
    FinalNext(c, attempts, k - 1);
    OtherVisit(c, Final(c, attempts[..k - 1]), History(c, attempts[..k - 1]), nows[0], p, attempts[k - 1]);
    ForgottenVisitor(c, Final(c, attempts[..k]), History(c, attempts[..k]), nows[0], q, attempts[k]);
  }

  /* The clock drops and then rises: `p` tries until the turn, then `q`. */

  /** Only `p` is known: the table ends in its last admission, and the history has them all. */
  ghost predicate Staying<P(!new)>(t: Table<P>, history: seq<Attempt<P>>, times: seq<nat>, p: P) {
    && t.Keys <= {p} && Peers(history) <= {p} && Times(history, p) == times
    && (times != [] ==>
          p in t && 0 < |t[p]| <= |times| && t[p][|t[p]| - 1] == times[|times| - 1])
    && (times == [] ==> t == map[])
  }

  lemma {:induction false} RecentShrinks(times: seq<nat>, now: nat, window: nat)
    ensures |Recent(times, now, window)| <= |times|
  {
    if times != [] {
      RecentShrinks(times[..|times| - 1], now, window);
    }
  }

  lemma PeersNext<P>(history: seq<Attempt<P>>, a: Attempt<P>)
    ensures Peers(history + [a]) <= Peers(history) + {a.peer}
  {
    forall p | p in Peers(history + [a])
      ensures p in Peers(history) + {a.peer}
    {
      var k :| 0 <= k < |history + [a]| && (history + [a])[k].peer == p;
      if k < |history| {
        assert history[k].peer == p;
      }
    }
  }

  lemma StayAdmitted<P(!new)>(c: Config, t: Table<P>, history: seq<Attempt<P>>, times: seq<nat>, a: Attempt<P>)
    requires Staying(t, history, times, a.peer) && |times| < c.maximum && c.maxPeers == 1
    ensures Allowed(c, history, a)
    ensures Staying(Admit(c, t, a).0, history + [a], times + [a.now], a.peer)
  {
    hide Trim, Recent, Times, Peers;
    TrimShrinks(Entries(Retained(t, a.now, c.window), a.peer), a.now, c.window);
    RecentShrinks(times, a.now, c.window);
    var live := LivePeers(history, a.now, c.window);
    assert live <= {a.peer};
    if a.peer !in live {
      assert live == {};
    }
    var kept := Retained(t, a.now, c.window);
    assert kept.Keys <= {a.peer};
    if a.peer !in kept {
      assert kept == map[];
    }
    TimesNext(history, a, a.peer);
    PeersNext(history, a);
  }

  lemma {:induction false} StaysAdmitted<P(!new)>(c: Config, nows: seq<nat>, k: nat, p: P, q: P, n: nat)
    requires c.maximum > |nows| && c.maxPeers == 1 && n <= k < |nows|
    ensures var attempts := Mixed(nows, {k}, q, p);
            Staying(Final(c, attempts[..n]), History(c, attempts[..n]), nows[..n], p)
  {
    hide Admit, Allowed, Final, History, Staying;
    var attempts := Mixed(nows, {k}, q, p);
    if n == 0 {
      assert attempts[..0] == [];
      NothingAdmitted<P>(c);
      NothingStays<P>(p);
    } else {
      FinalNext(c, attempts, n - 1);
      StaysAdmitted(c, nows, k, p, q, n - 1);
      StayAdmitted(c, Final(c, attempts[..n - 1]), History(c, attempts[..n - 1]), nows[..n - 1], attempts[n - 1]);
      assert nows[..n] == nows[..n - 1] + [nows[n - 1]];
    }
  }

  lemma NothingStays<P(!new)>(p: P)
    ensures Staying(map[], [], [], p)
  {
  }

  lemma {:induction false} RecentHas(times: seq<nat>, i: nat, now: nat, window: nat)
    requires i < |times| && Since(now, times[i]) < window
    ensures Recent(times, now, window) != []
  {
    if i < |times| - 1 {
      RecentHas(times[..|times| - 1], i, now, window);
    }
  }

  lemma NewcomerLetIn<P(!new)>(c: Config, t: Table<P>, history: seq<Attempt<P>>, times: seq<nat>, p: P, a: Attempt<P>)
    requires c.IsValid() && c.maxPeers == 1 && p != a.peer && Staying(t, history, times, p) && |times| > 0
    requires Since(a.now, times[0]) < c.window <= Since(a.now, times[|times| - 1])
    ensures Admit(c, t, a).1 && !Allowed(c, history, a)
  {
    hide Recent, Times;
    assert Retained(t, a.now, c.window) == map[];
    AdmitNewcomer(c, t, a);
    RecentHas(times, 0, a.now, c.window);
    if p !in Peers(history) {
      NoTimes(history, p);
    }
    var live := LivePeers(history, a.now, c.window);
    assert live == {p};
  }

  lemma DropThenRiseForgets<P(!new)>(nows: seq<nat>, k: nat, p: P, q: P)
    requires p != q && 2 <= k < |nows| && nows[0] > nows[k - 1] && nows[k] > nows[k - 1]
    ensures !DecidesAsHistory(Config(|nows| + 1, 1, nows[k] - nows[k - 1]), Mixed(nows, {k}, q, p))
  {
    hide Admit, Allowed, Final, History, Staying;
    var c, attempts := Config(|nows| + 1, 1, nows[k] - nows[k - 1]), Mixed(nows, {k}, q, p);
    StaysAdmitted(c, nows, k, p, q, k);
    NewcomerLetIn(c, Final(c, attempts[..k]), History(c, attempts[..k]), nows[..k], p, attempts[k]);
  }

  /* ------------------------------------ Exactly ---------------------------------------- */

  /**
    With a clock that never goes back, or never goes forward, the bounded table decides every
    attempt of every run exactly as a rule over everything ever admitted, so it admits the same.
   */
  lemma TableRefinesHistory<P(!new)>(c: Config, attempts: seq<Attempt<P>>)
    requires c.IsValid() && (Nondecreasing(Readings(attempts)) || Nonincreasing(Readings(attempts)))
    ensures DecidesAsHistory(c, attempts) && Granted(c, attempts) == History(c, attempts)
  {
    hide DecidesAsHistory;
    if Nonincreasing(Readings(attempts)) {
      FallingMirrors(c, attempts);
    } else {
      AdvancingRefines(c, attempts);
    }
    GrantedIsHistory(c, attempts);
  }

  lemma {:induction false} GrantedIsHistory<P(!new)>(c: Config, attempts: seq<Attempt<P>>)
    requires DecidesAsHistory(c, attempts)
    ensures Granted(c, attempts) == History(c, attempts)
  {
    hide Admit, Allowed;
    if attempts != [] {
      var m := |attempts| - 1;
      forall n | 0 <= n < m
        ensures Admit(c, Final(c, attempts[..m][..n]), attempts[..m][n]).1
            <==> Allowed(c, History(c, attempts[..m][..n]), attempts[..m][n])
      {
        assert attempts[..m][..n] == attempts[..n];
      }
      GrantedIsHistory(c, attempts[..m]);
    }
  }

  /** Whatever the clock does, the table stays within its limits and keeps nothing empty. */
  lemma {:induction false} TableBounded<P(!new)>(c: Config, attempts: seq<Attempt<P>>)
    requires c.IsValid()
    ensures |Final(c, attempts)| <= c.maxPeers
    ensures forall p :: p in Final(c, attempts) ==> 0 < |Final(c, attempts)[p]| <= c.maximum
  {
    hide Admit;
    if attempts != [] {
      var m := |attempts| - 1;
      TableBounded(c, attempts[..m]);
      AdmitBounded(c, Final(c, attempts[..m]), attempts[m]);
    }
  }

  lemma AdmitBounded<P(!new)>(c: Config, t: Table<P>, a: Attempt<P>)
    requires c.IsValid() && |t| <= c.maxPeers && forall p :: p in t ==> 0 < |t[p]| <= c.maximum
    ensures |Admit(c, t, a).0| <= c.maxPeers
    ensures forall p :: p in Admit(c, t, a).0 ==> 0 < |Admit(c, t, a).0[p]| <= c.maximum
  {
    hide Trim, Live;
    var kept := Retained(t, a.now, c.window);
    assert kept.Keys <= t.Keys;
    SubsetSize(kept.Keys, t.Keys);
    assert |kept| == |kept.Keys| && |t| == |t.Keys|;
    TrimShrinks(Entries(kept, a.peer), a.now, c.window);
    if a.peer in kept || |kept| < c.maxPeers {
      PutSize(kept, a.peer, Admit(c, t, a).0[a.peer], c.maxPeers);
    }
  }

  /**
    For given clock readings the table decides every attempt as the full history would, whatever
    the limits and whoever makes the attempts, exactly when the readings never turn: they never go
    back, or they never go forward.
   */
  lemma DecidesExactly<P(!new)>(nows: seq<nat>, p: P, q: P)
    requires p != q
    ensures (forall c: Config, attempts: seq<Attempt<P>> ::
               c.IsValid() && Readings(attempts) == nows ==> DecidesAsHistory(c, attempts))
            <==> Nondecreasing(nows) || Nonincreasing(nows)
  {
    hide DecidesAsHistory;
    if Nondecreasing(nows) || Nonincreasing(nows) {
      forall c: Config, attempts: seq<Attempt<P>> | c.IsValid() && Readings(attempts) == nows
        ensures DecidesAsHistory(c, attempts)
      {
        TableRefinesHistory(c, attempts);
      }
    } else {
      var k := FirstTurn(nows);
      if nows[0] < nows[k - 1] {
        RiseThenDropForgets(nows, k, p, q);
        assert Config(1, 2, nows[k - 1] - nows[0]).IsValid();
      } else {
        DropThenRiseForgets(nows, k, p, q);
        assert Config(|nows| + 1, 1, nows[k] - nows[k - 1]).IsValid();
      }
    }
  }
}
