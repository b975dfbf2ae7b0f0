/**
  The guarantee of the limiters: in no stretch of time as long as the window does the table admit
  more than the maximum number of attempts of a peer. It holds for exactly the clocks that do not
  come back to a time they have made the table forget.
 */
module LimiterWindow {
  import opened Base
  import opened LimiterClock
  import opened LimiterSpec

  predicate Inside(time: nat, from: nat, window: nat) { from <= time < from + window }

  /** How many of the times fall in `from..from + window`. */
  function Within(times: seq<nat>, from: nat, window: nat): nat {
    if times == [] then 0
    else
      var n := |times| - 1;
      Within(times[..n], from, window) + (if Inside(times[n], from, window) then 1 else 0)
  }

  ghost predicate WithinMaximum<P(!new)>(c: Config, attempts: seq<Attempt<P>>, peer: P, from: nat) {
    Within(Times(Granted(c, attempts), peer), from, c.window) <= c.maximum
  }

  /* ----------------------------------- The clocks --------------------------------------- */

  function Distance(a: nat, b: nat): nat { if a <= b then b - a else a - b }

  function Spread(a: nat, b: nat, c: nat): nat { Max(a, Max(b, c)) - Min(a, Min(b, c)) }

  /** From `i` the clock goes far ahead at `j`, and at `k` it is nearer to where it was at `i`. */
  predicate ComesBack(nows: seq<nat>, i: nat, j: nat, k: nat) {
    i < j < k < |nows| && nows[j] - nows[i] > Distance(nows[k], nows[i])
  }

  /**
    At `b` the clock is so far behind `j` that the table, which looks at the latest entry only,
    forgets `i` as well, although `i` is nearer to `k1` and `k2`.
   */
  predicate FallsBehind(nows: seq<nat>, i: nat, b: nat, j: nat, k1: nat, k2: nat) {
    && i < b < j <= k1 < k2 < |nows|
    && nows[j] - nows[b] > Spread(nows[i], nows[k1], nows[k2])
  }

  /** A clock after which nothing forgotten is ever near again. */
  predicate Steady(nows: seq<nat>) {
    && (forall i, j, k :: 0 <= i < j < k < |nows| ==> !ComesBack(nows, i, j, k))
    && (forall i, b, j, k1, k2 :: 0 <= i < b < j <= k1 < k2 < |nows| ==> !FallsBehind(nows, i, b, j, k1, k2))
  }

  /** A clock that never goes back, or never goes forward, is steady. */
  lemma MonotoneIsSteady(nows: seq<nat>)
    requires Nondecreasing(nows) || Nonincreasing(nows)
    ensures Steady(nows)
  {
  }

  /** Steadiness asks for less: this clock rises, falls and never forgets anything near. */
  lemma SteadyMayTurn()
    ensures Steady([10, 11, 0]) && !Nondecreasing([10, 11, 0]) && !Nonincreasing([10, 11, 0])
  {
    var nows: seq<nat> := [10, 11, 0];
    assert nows[1] > nows[2] && nows[0] < nows[1];
  }

  /* ------------------------------- What the table remembers ----------------------------- */

  /** The attempts of the peer that were admitted, by position in the run. */
  ghost function Grants<P(!new)>(c: Config, attempts: seq<Attempt<P>>, peer: P): seq<nat> {
    if attempts == [] then []
    else
      var n := |attempts| - 1;
      Grants(c, attempts[..n], peer)
      + (if attempts[n].peer == peer && Admit(c, Final(c, attempts[..n]), attempts[n]).1 then [n] else [])
  }

  /** `times` are the readings at the increasing positions `at`. */
  ghost predicate ReadAt(times: seq<nat>, nows: seq<nat>, at: seq<nat>) {
    && |at| == |times|
    && (forall x :: 0 <= x < |at| ==> at[x] < |nows| && times[x] == nows[at[x]])
    && forall x, y :: 0 <= x < y < |at| ==> at[x] < at[y]
  }

  ghost predicate SuffixOf(entries: seq<nat>, times: seq<nat>) {
    |entries| <= |times| && entries == times[|times| - |entries|..]
  }

  /** Nothing inside the stretch has been forgotten. */
  predicate Remembers(entries: seq<nat>, times: seq<nat>, from: nat, window: nat)
    requires |entries| <= |times|
  {
    forall x :: 0 <= x < |times| - |entries| ==> !Inside(times[x], from, window)
  }

  /** The clock was inside the stretch before `m` and then, before `m`, a window ahead of that. */
  ghost predicate Left(nows: seq<nat>, m: nat, from: nat, window: nat) {
    exists i: nat, j: nat ::
      i < j < m <= |nows| && Inside(nows[i], from, window) && nows[j] - nows[i] >= window
  }

  /** An entry from inside the stretch was forgotten behind a later and lower one. */
  ghost predicate Hidden(nows: seq<nat>, i: nat, b: nat, j: nat, from: nat, window: nat) {
    i < b < j < |nows| && Inside(nows[i], from, window) && nows[j] - nows[b] >= window
  }

  /** In that case the lower entry took a place, so one admission fewer was inside before. */
  ghost predicate Behind(nows: seq<nat>, m: nat, n: nat, times: seq<nat>, maximum: nat, from: nat, window: nat) {
    exists i: nat, b: nat, j: nat ::
      && Hidden(nows, i, b, j, from, window) && j < m
      && (Within(times, from, window) < maximum
          || exists k: nat :: j <= k < n <= |nows| && Inside(nows[k], from, window))
  }

  /** Attempts before `m` may have made the table forget, and attempts before `n` were admitted. */
  ghost predicate Safe(nows: seq<nat>, m: nat, n: nat, entries: seq<nat>, times: seq<nat>, maximum: nat, from: nat,
                       window: nat)
  {
    && SuffixOf(entries, times) && |entries| <= maximum
    && Within(times, from, window) <= maximum
    && (Remembers(entries, times, from, window) || Left(nows, m, from, window)
        || Behind(nows, m, n, times, maximum, from, window))
  }

  lemma {:induction false} WithinSome(times: seq<nat>, d: nat, from: nat, window: nat)
    requires d <= |times| && forall x :: 0 <= x < d ==> !Inside(times[x], from, window)
    ensures Within(times, from, window) <= |times| - d
  {
    if |times| > d {
      WithinSome(times[..|times| - 1], d, from, window);
    } else if times != [] {
      WithinSome(times[..|times| - 1], d - 1, from, window);
    }
  }

  lemma WithinNext(times: seq<nat>, now: nat, from: nat, window: nat)
    ensures Within(times + [now], from, window)
         == Within(times, from, window) + (if Inside(now, from, window) then 1 else 0)
  {
    assert (times + [now])[..|times|] == times;
  }

  /** An idle queue is dropped whole: its last entry is a window old, whatever the others are. */
  lemma DropSafe(nows: seq<nat>, n: nat, entries: seq<nat>, times: seq<nat>, at: seq<nat>, maximum: nat, from: nat,
                 window: nat)
    requires Safe(nows, n, n, entries, times, maximum, from, window) && n < |nows| && entries != []
    requires ReadAt(times, nows[..n], at) && nows[n] - entries[|entries| - 1] >= window
    ensures Safe(nows, n + 1, n, [], times, maximum, from, window)
  {
    hide Inside;
    var last, d := |times| - 1, |times| - |entries|;
    assert entries[|entries| - 1] == times[last];
    assert times[|times|..] == [];
    if !Remembers(entries, times, from, window) {
    } else if Inside(times[last], from, window) {
      assert at[last] < n < n + 1 <= |nows| && nows[at[last]] == times[last];
      assert Left(nows, n + 1, from, window);
    } else if x :| d <= x < last && Inside(times[x], from, window) {
      assert Hidden(nows, at[x], at[last], n, from, window);
      WithinSome(times[..last], d, from, window);
      assert Within(times, from, window) < maximum;
    } else {
      assert Remembers([], times, from, window);
    }
  }

  /** Trimming drops entries that are a window old. */
  lemma TrimSafe(nows: seq<nat>, n: nat, entries: seq<nat>, times: seq<nat>, at: seq<nat>, k: nat, maximum: nat,
                 from: nat, window: nat)
    requires Safe(nows, n + 1, n, entries, times, maximum, from, window) && n < |nows| && k <= |entries|
    requires ReadAt(times, nows[..n], at) && window > 0 && AllOld(entries[..k], nows[n], window)
    ensures Safe(nows, n + 1, n, entries[k..], times, maximum, from, window)
  {
    hide Inside, Within;
    var d := |times| - |entries|;
    assert entries[k..] == times[d + k..];
    if Remembers(entries, times, from, window) {
      if x :| d <= x < d + k && Inside(times[x], from, window) {
        assert times[x] == entries[..k][x - d];
        assert at[x] < n < n + 1 <= |nows| && nows[at[x]] == times[x];
        assert Left(nows, n + 1, from, window);
      } else {
        assert Remembers(entries[k..], times, from, window);
      }
    }
  }

  lemma NeverBack(nows: seq<nat>, n: nat, from: nat, window: nat)
    requires Steady(nows) && n < |nows| && Left(nows, n + 1, from, window)
    ensures !Inside(nows[n], from, window)
  {
    var i: nat, j: nat :| i < j < n + 1 && Inside(nows[i], from, window) && nows[j] - nows[i] >= window;
    if j < n {
      assert !ComesBack(nows, i, j, n);
    }
  }

  lemma NeverTwice(nows: seq<nat>, n: nat, times: seq<nat>, maximum: nat, from: nat, window: nat)
    requires Steady(nows) && n < |nows| && Inside(nows[n], from, window)
    requires Behind(nows, n + 1, n, times, maximum, from, window)
    ensures Within(times, from, window) < maximum
    ensures exists i: nat, b: nat, j: nat :: Hidden(nows, i, b, j, from, window) && j <= n
  {
    var i: nat, b: nat, j: nat :|
      && Hidden(nows, i, b, j, from, window) && j < n + 1
      && (Within(times, from, window) < maximum
          || exists k: nat :: j <= k < n <= |nows| && Inside(nows[k], from, window));
    if Within(times, from, window) >= maximum {
      var k: nat :| j <= k < n && Inside(nows[k], from, window);
      assert FallsBehind(nows, i, b, j, k, n);
    }
  }

  /** An admission: on a steady clock nothing forgotten can be counted past the maximum. */
  lemma PushSafe(nows: seq<nat>, n: nat, entries: seq<nat>, times: seq<nat>, maximum: nat, from: nat, window: nat)
    requires Steady(nows) && n < |nows| && |entries| < maximum
    requires Safe(nows, n + 1, n, entries, times, maximum, from, window)
    ensures Safe(nows, n + 1, n + 1, entries + [nows[n]], times + [nows[n]], maximum, from, window)
  {
    hide Steady, Within, Inside;
    var now := nows[n];
    var longer, kept := times + [now], entries + [now];
    WithinNext(times, now, from, window);
    assert kept == longer[|longer| - |kept|..];
    if Remembers(entries, times, from, window) {
      assert Remembers(kept, longer, from, window);
      WithinSome(longer, |longer| - |kept|, from, window);
    } else if Left(nows, n + 1, from, window) {
      NeverBack(nows, n, from, window);
    } else if Inside(now, from, window) {
      NeverTwice(nows, n, times, maximum, from, window);
      assert Behind(nows, n + 1, n + 1, longer, maximum, from, window);
    } else {
      assert Behind(nows, n + 1, n + 1, longer, maximum, from, window);
    }
  }

  lemma NoPushSafe(nows: seq<nat>, m: nat, n: nat, entries: seq<nat>, times: seq<nat>, maximum: nat, from: nat,
                   window: nat)
    requires Safe(nows, m, n, entries, times, maximum, from, window) && m <= n + 1 <= |nows|
    ensures Safe(nows, n + 1, n + 1, entries, times, maximum, from, window)
    ensures Safe(nows, n + 1, n, entries, times, maximum, from, window)
  {
    hide Within, Inside, SuffixOf, Remembers;
  }

  /**
    What one attempt does to a peer's entries: retention, and for the peer's own attempt trimming
    and, if it is admitted, the new entry.
   */
  predicate Moves(c: Config, before: seq<nat>, after: seq<nat>, now: nat, own: bool, granted: bool) {
    var kept := if before != [] && !Live(before, now, c.window) then [] else before;
    var trimmed := Trim(kept, now, c.window);
    if granted then |trimmed| < c.maximum && after == trimmed + [now]
    else after == kept || (own && after == trimmed)
  }

  lemma AdmitMoves<P>(c: Config, t: Table<P>, a: Attempt<P>, peer: P)
    requires c.IsValid() && forall p :: p in t ==> t[p] != []
    ensures Moves(c, Entries(t, peer), Entries(Admit(c, t, a).0, peer), a.now, a.peer == peer,
                  a.peer == peer && Admit(c, t, a).1)
  {
    hide Trim;
  }

  lemma AttemptSafe(c: Config, nows: seq<nat>, n: nat, before: seq<nat>, times: seq<nat>, at: seq<nat>, from: nat)
    returns (kept: seq<nat>)
    requires c.IsValid() && n < |nows| && Safe(nows, n, n, before, times, c.maximum, from, c.window)
    requires ReadAt(times, nows[..n], at)
    ensures kept == if before != [] && !Live(before, nows[n], c.window) then [] else before
    ensures Safe(nows, n + 1, n, kept, times, c.maximum, from, c.window)
    ensures Safe(nows, n + 1, n, Trim(kept, nows[n], c.window), times, c.maximum, from, c.window)
  {
    hide Safe, ReadAt, Trim;
    if before != [] && !Live(before, nows[n], c.window) {
      kept := [];
      DropSafe(nows, n, before, times, at, c.maximum, from, c.window);
    } else {
      kept := before;
      NoPushSafe(nows, n, n, before, times, c.maximum, from, c.window);
    }
    var k := TrimCut(kept, nows[n], c.window);
    TrimSafe(nows, n, kept, times, at, k, c.maximum, from, c.window);
  }

  lemma MoveSafe(c: Config, nows: seq<nat>, n: nat, before: seq<nat>, after: seq<nat>, times: seq<nat>, at: seq<nat>,
                 from: nat, own: bool, granted: bool)
    requires c.IsValid() && Steady(nows) && n < |nows| && Moves(c, before, after, nows[n], own, granted)
    requires Safe(nows, n, n, before, times, c.maximum, from, c.window) && ReadAt(times, nows[..n], at)
    ensures Safe(nows, n + 1, n + 1, after, if granted then times + [nows[n]] else times, c.maximum, from, c.window)
    ensures ReadAt(if granted then times + [nows[n]] else times, nows[..n + 1], if granted then at + [n] else at)
  {
    hide Safe, ReadAt, Steady, Trim, Live;
    var kept := AttemptSafe(c, nows, n, before, times, at, from);
    ReadAtNext(times, nows, at, n);
    if granted {
      PushSafe(nows, n, Trim(kept, nows[n], c.window), times, c.maximum, from, c.window);
    } else {
      NoPushSafe(nows, n + 1, n, after, times, c.maximum, from, c.window);
    }
  }

  lemma ReadAtNext(times: seq<nat>, nows: seq<nat>, at: seq<nat>, n: nat)
    requires n < |nows| && ReadAt(times, nows[..n], at)
    ensures ReadAt(times, nows[..n + 1], at)
    ensures ReadAt(times + [nows[n]], nows[..n + 1], at + [n])
  {
  }

  lemma RunNext<P(!new)>(c: Config, attempts: seq<Attempt<P>>, peer: P, n: nat)
    requires n < |attempts|
    ensures var granted := attempts[n].peer == peer && Admit(c, Final(c, attempts[..n]), attempts[n]).1;
            var at, times := Grants(c, attempts[..n], peer), Times(Granted(c, attempts[..n]), peer);
            && Final(c, attempts[..n + 1]) == Admit(c, Final(c, attempts[..n]), attempts[n]).0
            && Grants(c, attempts[..n + 1], peer) == (if granted then at + [n] else at)
            && Times(Granted(c, attempts[..n + 1]), peer) == (if granted then times + [attempts[n].now] else times)
  {
    hide Admit, Times;
    assert attempts[..n + 1][..n] == attempts[..n];
    if Admit(c, Final(c, attempts[..n]), attempts[n]).1 {
      TimesNext(Granted(c, attempts[..n]), attempts[n], peer);
    } else {
      assert Granted(c, attempts[..n]) + [] == Granted(c, attempts[..n]);
    }
  }

  lemma NothingYet<P(!new)>(c: Config, nows: seq<nat>, peer: P, from: nat)
    ensures Safe(nows, 0, 0, Entries(Final<P>(c, []), peer), Times(Granted<P>(c, []), peer), c.maximum, from, c.window)
    ensures ReadAt(Times(Granted<P>(c, []), peer), [], Grants<P>(c, [], peer))
  {
  }

  lemma {:induction false} RunSafe<P(!new)>(c: Config, attempts: seq<Attempt<P>>, peer: P, from: nat, n: nat)
    requires c.IsValid() && Steady(Readings(attempts)) && n <= |attempts|
    ensures Safe(Readings(attempts), n, n, Entries(Final(c, attempts[..n]), peer),
                 Times(Granted(c, attempts[..n]), peer), c.maximum, from, c.window)
    ensures ReadAt(Times(Granted(c, attempts[..n]), peer), Readings(attempts)[..n], Grants(c, attempts[..n], peer))
  {
    hide Safe, ReadAt, Steady, Admit, Times, Granted, Grants, Final, Entries, Moves;
    var nows := Readings(attempts);
    if n == 0 {
      assert attempts[..0] == [] && nows[..0] == [];
      NothingYet(c, nows, peer, from);
    } else {
      RunSafe(c, attempts, peer, from, n - 1);
      RunNext(c, attempts, peer, n - 1);
      TableBounded(c, attempts[..n - 1]);
      var t, a := Final(c, attempts[..n - 1]), attempts[n - 1];
      AdmitMoves(c, t, a, peer);
      MoveSafe(c, nows, n - 1, Entries(t, peer), Entries(Admit(c, t, a).0, peer),
               Times(Granted(c, attempts[..n - 1]), peer), Grants(c, attempts[..n - 1], peer), from,
               a.peer == peer, a.peer == peer && Admit(c, t, a).1);
    }
  }

  /**
    The guarantee over whole runs, for every steady clock: in no stretch of time as long as the
    window does the table admit more than the maximum number of attempts of any peer.
   */
  lemma NeverMoreThanMaximum<P(!new)>(c: Config, attempts: seq<Attempt<P>>, peer: P, from: nat)
    requires c.IsValid() && Steady(Readings(attempts))
    ensures WithinMaximum(c, attempts, peer, from)
  {
    hide Steady, Granted, Times, Within;
    RunSafe(c, attempts, peer, from, |attempts|);
    assert attempts[..|attempts|] == attempts;
  }

  /* ------------------------------- A clock that is not steady --------------------------- */

  ghost predicate Pair<P(!new)>(t: Table<P>, p: P, q: P) {
    t.Keys <= {p, q} && forall x :: x in t ==> t[x] != []
  }

  /** With room for two peers, `p` is admitted whenever fewer than the maximum of its entries are kept. */
  lemma PairAdmits<P(!new)>(c: Config, t: Table<P>, a: Attempt<P>, p: P, q: P)
    requires c.IsValid() && c.maxPeers == 2 && p != q && a.peer in {p, q} && Pair(t, p, q)
    ensures Pair(Admit(c, t, a).0, p, q)
    ensures var before, after := Entries(t, p), Entries(Admit(c, t, a).0, p);
            var kept := if before != [] && !Live(before, a.now, c.window) then [] else before;
            && (a.peer == q ==> after == kept)
            && (a.peer == p && |kept| < c.maximum ==>
                  Admit(c, t, a).1 && 0 < |after| <= |kept| + 1 && after[|after| - 1] == a.now
                  && (kept == [] ==> after == [a.now]))
  {
    hide Trim;
    var kept := Retained(t, a.now, c.window);
    assert kept.Keys <= {p, q};
    if a.peer !in kept {
      assert kept.Keys <= {if a.peer == p then q else p};
      SubsetSize(kept.Keys, {if a.peer == p then q else p});
      assert |kept| == |kept.Keys|;
    }
    TrimShrinks(Entries(kept, a.peer), a.now, c.window);
  }

  /** The run so far: who is known, what is kept of `p`, and what was admitted of it. */
  ghost predicate PairAfter<P(!new)>(c: Config, attempts: seq<Attempt<P>>, n: nat, p: P, q: P, times: seq<nat>)
    requires n <= |attempts|
  {
    Pair(Final(c, attempts[..n]), p, q) && Times(Granted(c, attempts[..n]), p) == times
  }

  ghost function Kept<P(!new)>(c: Config, attempts: seq<Attempt<P>>, n: nat, p: P): seq<nat>
    requires n <= |attempts|
  {
    Entries(Final(c, attempts[..n]), p)
  }

  lemma PairStart<P(!new)>(c: Config, attempts: seq<Attempt<P>>, p: P, q: P)
    ensures PairAfter(c, attempts, 0, p, q, []) && Kept(c, attempts, 0, p) == []
  {
    assert attempts[..0] == [];
  }

  lemma PairNext<P(!new)>(c: Config, attempts: seq<Attempt<P>>, n: nat, p: P, q: P, times: seq<nat>)
    requires c.IsValid() && c.maxPeers == 2 && p != q && n < |attempts| && attempts[n].peer in {p, q}
    requires PairAfter(c, attempts, n, p, q, times)
    ensures var a, before, after := attempts[n], Kept(c, attempts, n, p), Kept(c, attempts, n + 1, p);
            var kept := if before != [] && !Live(before, a.now, c.window) then [] else before;
            && (a.peer == q ==> after == kept && PairAfter(c, attempts, n + 1, p, q, times))
            && (a.peer == p && |kept| < c.maximum ==>
                  PairAfter(c, attempts, n + 1, p, q, times + [a.now])
                  && 0 < |after| <= |kept| + 1 && after[|after| - 1] == a.now
                  && (kept == [] ==> after == [a.now]))
  {
    hide Final, Granted, Times, Grants, Admit, Pair, Live;
    RunNext(c, attempts, p, n);
    PairAdmits(c, Final(c, attempts[..n]), attempts[n], p, q);
  }

  lemma {:induction false} WithinGrows<P(!new)>(c: Config, attempts: seq<Attempt<P>>, n: nat, p: P, from: nat)
    requires n <= |attempts|
    ensures Within(Times(Granted(c, attempts[..n]), p), from, c.window)
         <= Within(Times(Granted(c, attempts), p), from, c.window)
    decreases |attempts| - n
  {
    hide Granted, Times, Within, Admit, Final, Grants;
    if n == |attempts| {
      assert attempts[..n] == attempts;
    } else {
      RunNext(c, attempts, p, n);
      WithinNext(Times(Granted(c, attempts[..n]), p), attempts[n].now, from, c.window);
      WithinGrows(c, attempts, n + 1, p, from);
    }
  }

  /** `p` at `i` and `k`: by `j` the first admission is forgotten. */
  lemma {:induction false} ForgottenOnce<P(!new)>(nows: seq<nat>, i: nat, j: nat, k: nat, p: P, q: P, n: nat)
    requires p != q && ComesBack(nows, i, j, k) && n <= k
    ensures var c, attempts := Config(1, 2, nows[j] - nows[i]), Mixed(nows, {i, k}, p, q);
            && PairAfter(c, attempts, n, p, q, if n <= i then [] else [nows[i]])
            && (n <= i || j < n ==> Kept(c, attempts, n, p) == [])
            && (i < n <= j ==> Kept(c, attempts, n, p) in {[], [nows[i]]})
  {
    hide PairAfter, Kept;
    var c, attempts := Config(1, 2, nows[j] - nows[i]), Mixed(nows, {i, k}, p, q);
    if n == 0 {
      PairStart(c, attempts, p, q);
    } else {
      ForgottenOnce(nows, i, j, k, p, q, n - 1);
      PairNext(c, attempts, n - 1, p, q, if n - 1 <= i then [] else [nows[i]]);
      assert [] + [nows[i]] == [nows[i]];
    }
  }

  lemma TwoInside(a: nat, b: nat, from: nat, window: nat)
    requires Inside(a, from, window) && Inside(b, from, window)
    ensures Within([a] + [b], from, window) == 2
  {
    WithinNext([a], b, from, window);
    assert Within([a], from, window) == 1 by {
      WithinNext([], a, from, window);
      assert [] + [a] == [a];
    }
  }

  lemma ComingBackExceeds<P(!new)>(nows: seq<nat>, i: nat, j: nat, k: nat, p: P, q: P)
    requires p != q && ComesBack(nows, i, j, k)
    ensures !WithinMaximum(Config(1, 2, nows[j] - nows[i]), Mixed(nows, {i, k}, p, q), p, Min(nows[i], nows[k]))
  {
    hide Granted, Times, Within, Kept;
    var c, attempts := Config(1, 2, nows[j] - nows[i]), Mixed(nows, {i, k}, p, q);
    ForgottenOnce(nows, i, j, k, p, q, k);
    PairNext(c, attempts, k, p, q, [nows[i]]);
    TwoInside(nows[i], nows[k], Min(nows[i], nows[k]), c.window);
    WithinGrows(c, attempts, k + 1, p, Min(nows[i], nows[k]));
  }

  /** `p` at `i`, `b`, `k1` and `k2`: by `j` the first two admissions are forgotten. */
  function TimesBehind(nows: seq<nat>, i: nat, b: nat, k: nat, n: nat): seq<nat>
    requires i < |nows| && b < |nows| && k < |nows|
  {
    if n <= i then []
    else if n <= b then [nows[i]]
    else if n <= k then [nows[i], nows[b]]
    else [nows[i], nows[b], nows[k]]
  }

  lemma TimesBehindNext(nows: seq<nat>, i: nat, b: nat, k: nat, n: nat)
    requires i < b < k < |nows| && n < |nows|
    ensures TimesBehind(nows, i, b, k, 0) == []
    ensures TimesBehind(nows, i, b, k, n + 1)
         == if n in {i, b, k} then TimesBehind(nows, i, b, k, n) + [nows[n]] else TimesBehind(nows, i, b, k, n)
  {
  }

  lemma {:induction false} ForgottenTwice<P(!new)>(
    nows: seq<nat>, i: nat, b: nat, j: nat, k1: nat, k2: nat, p: P, q: P, n: nat)
    requires p != q && FallsBehind(nows, i, b, j, k1, k2) && n <= k2
    ensures var c, attempts := Config(2, 2, nows[j] - nows[b]), Mixed(nows, {i, b, k1, k2}, p, q);
            var kept := Kept(c, attempts, n, p);
            && PairAfter(c, attempts, n, p, q, TimesBehind(nows, i, b, k1, n))
            && (n <= i || j < n <= k1 ==> kept == [])
            && (i < n <= b || k1 < n ==> |kept| <= 1)
            && (b < n <= j ==> kept == [] || kept[|kept| - 1] == nows[b])
  {
    hide PairAfter, Kept, TimesBehind;
    var c, attempts := Config(2, 2, nows[j] - nows[b]), Mixed(nows, {i, b, k1, k2}, p, q);
    TimesBehindNext(nows, i, b, k1, if n == 0 then 0 else n - 1);
    if n == 0 {
      PairStart(c, attempts, p, q);
    } else {
      ForgottenTwice(nows, i, b, j, k1, k2, p, q, n - 1);
      PairNext(c, attempts, n - 1, p, q, TimesBehind(nows, i, b, k1, n - 1));
    }
  }

  lemma ThreeInside(a: nat, b: nat, c: nat, d: nat, from: nat, window: nat)
    requires Inside(a, from, window) && Inside(c, from, window) && Inside(d, from, window)
    ensures Within([a, b, c] + [d], from, window) >= 3
  {
    hide Inside;
    assert [a, b, c] == [a, b] + [c] && [a, b] == [a] + [b] && [a] == [] + [a];
    WithinNext([a, b, c], d, from, window);
    WithinNext([a, b], c, from, window);
    WithinNext([a], b, from, window);
    WithinNext([], a, from, window);
  }

  lemma FallingBehindExceeds<P(!new)>(nows: seq<nat>, i: nat, b: nat, j: nat, k1: nat, k2: nat, p: P, q: P)
    requires p != q && FallsBehind(nows, i, b, j, k1, k2)
    ensures !WithinMaximum(Config(2, 2, nows[j] - nows[b]), Mixed(nows, {i, b, k1, k2}, p, q), p,
                           Min(nows[i], Min(nows[k1], nows[k2])))
  {
    hide Granted, Times, Within, Kept;
    var c, attempts := Config(2, 2, nows[j] - nows[b]), Mixed(nows, {i, b, k1, k2}, p, q);
    var from := Min(nows[i], Min(nows[k1], nows[k2]));
    ForgottenTwice(nows, i, b, j, k1, k2, p, q, k2);
    PairNext(c, attempts, k2, p, q, TimesBehind(nows, i, b, k1, k2));
    ThreeInside(nows[i], nows[b], nows[k1], nows[k2], from, c.window);
    WithinGrows(c, attempts, k2 + 1, p, from);
  }

  /* ------------------------------------ Exactly ----------------------------------------- */

  /**
    For given clock readings the bound holds, whatever the limits, whoever makes the attempts and
    wherever the stretch begins, exactly when the readings are steady.
   */
  lemma BoundExactly<P(!new)>(nows: seq<nat>, p: P, q: P)
    requires p != q
    ensures (forall c: Config, attempts: seq<Attempt<P>>, peer: P, from: nat ::
               c.IsValid() && Readings(attempts) == nows ==> WithinMaximum(c, attempts, peer, from))
            <==> Steady(nows)
  {
    hide WithinMaximum;
    if Steady(nows) {
      forall c: Config, attempts: seq<Attempt<P>>, peer: P, from: nat | c.IsValid() && Readings(attempts) == nows
        ensures WithinMaximum(c, attempts, peer, from)
      {
        NeverMoreThanMaximum(c, attempts, peer, from);
      }
    } else if i: nat, j: nat, k: nat :| ComesBack(nows, i, j, k) {
      ComingBackExceeds(nows, i, j, k, p, q);
      assert Config(1, 2, nows[j] - nows[i]).IsValid();
    } else {
      var i: nat, b: nat, j: nat, k1: nat, k2: nat :| FallsBehind(nows, i, b, j, k1, k2);
      FallingBehindExceeds(nows, i, b, j, k1, k2, p, q);
      assert Config(2, 2, nows[j] - nows[b]).IsValid();
    }
  }

  /** The smallest clock that goes too far back: two admissions at one moment where one is allowed. */
  lemma ClockBackExceeds<P(!new)>(p: P, q: P)
    requires p != q
    ensures var attempts := Mixed([5, 20, 5], {0, 2}, p, q);
            attempts == [Attempt(p, 5), Attempt(q, 20), Attempt(p, 5)]
            && !WithinMaximum(Config(1, 2, 15), attempts, p, 5)
  {
    assert ComesBack([5, 20, 5], 0, 1, 2);
    ComingBackExceeds([5, 20, 5], 0, 1, 2, p, q);
  }
}
