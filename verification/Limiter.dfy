/** The two limiters as the imperative code keeps them. */
module Limiter {
  import opened Base
  import opened LimiterSpec

  /** `retain`: visits every queue and removes the idle ones. */
  method RetainLive<P>(table: Table<P>, now: nat, window: nat) returns (kept: Table<P>)
    ensures kept == Retained(table, now, window)
  {
    kept := table;
    var todo := table.Keys;
    while todo != {}
      invariant todo <= table.Keys && kept.Keys <= table.Keys
      invariant forall p :: p in table ==> (p in kept <==> p in todo || Live(table[p], now, window))
      invariant forall p :: p in kept ==> kept[p] == table[p]
      decreases |todo|
    {
      var p :| p in todo;
      if !Live(table[p], now, window) {
        kept := kept - {p};
      }
      todo := todo - {p};
    }
  }

  /** Pops entries off the front while they are outside the window. */
  method PopOld(entries: seq<nat>, now: nat, window: nat) returns (kept: seq<nat>)
    ensures kept == Trim(entries, now, window)
  {
    kept := entries;
    while kept != [] && Since(now, kept[0]) >= window
      invariant Trim(kept, now, window) == Trim(entries, now, window)
    {
      kept := kept[1..];
    }
  }

  /** The shared admission routine of the pairing limiter. */
  method AdmitPeer<P>(peers: Table<P>, peer: P, maximum: nat, maxPeers: nat, window: nat, now: nat)
    returns (after: Table<P>, admitted: bool)
    ensures (after, admitted) == Admit(Config(maximum, maxPeers, window), peers, Attempt(peer, now))
  {
    hide Retained, Trim;
    after := RetainLive(peers, now, window);
    if peer !in after && |after| >= maxPeers {
      return after, false;
    }
    var entries := PopOld(if peer in after then after[peer] else [], now, window);
    if |entries| >= maximum {
      return after[peer := entries], false;
    }
    return after[peer := entries + [now]], true;
  }

  datatype PairingRateLimit = PairingRateLimit(maxAttempts: nat, maxFailures: nat, maxPeers: nat, windowMs: nat) {
    function Attempts(): Config { Config(maxAttempts, maxPeers, windowMs) }
    function Failures(): Config { Config(maxFailures, maxPeers, windowMs) }
  }

  class PairingAttemptLimiter {
    const limit: PairingRateLimit
    var attempts: Table<Id32>
    var failures: Table<Id32>

    constructor (limit: PairingRateLimit)
      ensures this.limit == limit && attempts == map[] && failures == map[]
    {
      this.limit, attempts, failures := limit, map[], map[];
    }

    static method New(limit: PairingRateLimit) returns (r: Option<PairingAttemptLimiter>)
      ensures r.Some? <==> && limit.maxAttempts > 0 && limit.maxFailures > 0 && limit.maxPeers > 0
                           && limit.windowMs > 0
      ensures r.Some? ==> fresh(r.value) && r.value.limit == limit
      ensures r.Some? ==> r.value.attempts == map[] && r.value.failures == map[]
    {
      if limit.maxAttempts == 0 || limit.maxFailures == 0 || limit.maxPeers == 0 || limit.windowMs == 0 {
        return None;
      }
      var limiter := new PairingAttemptLimiter(limit);
      return Some(limiter);
    }

    method Begin(peer: Id32, now: nat) returns (admitted: bool)
      modifies this`attempts
      ensures (attempts, admitted) == Admit(limit.Attempts(), old(attempts), Attempt(peer, now))
    {
      attempts, admitted := AdmitPeer(attempts, peer, limit.maxAttempts, limit.maxPeers, limit.windowMs, now);
    }

    method RecordFailure(peer: Id32, now: nat) returns (admitted: bool)
      modifies this`failures
      ensures (failures, admitted) == Admit(limit.Failures(), old(failures), Attempt(peer, now))
    {
      failures, admitted := AdmitPeer(failures, peer, limit.maxFailures, limit.maxPeers, limit.windowMs, now);
    }
  }

  /** The discovery crate's own copy of the same window, keyed by source name. */
  class AttemptRateLimiter {
    const limit: Config
    var attempts: Table<Bytes>

    constructor (limit: Config)
      requires limit.IsValid()
      ensures this.limit == limit && attempts == map[]
    {
      this.limit, attempts := limit, map[];
    }

    method Allow(source: Bytes, now: nat) returns (allowed: bool)
      modifies this`attempts
      ensures (attempts, allowed) == Admit(limit, old(attempts), Attempt(source, now))
    {
      hide Retained, Live;
      attempts := RetainLive(attempts, now, limit.window);
      if source !in attempts && |attempts| >= limit.maxPeers {
        return false;
      }
      var entries := Entries(attempts, source);
      ghost var all := entries;
      while entries != [] && Since(now, entries[0]) >= limit.window
        invariant Trim(entries, now, limit.window) == Trim(all, now, limit.window)
        invariant attempts == Retained(old(attempts), now, limit.window)
      {
        entries := entries[1..];
      }
      allowed := |entries| < limit.maximum;
      attempts := attempts[source := if allowed then entries + [now] else entries];
    }
  }
}
