/** The reconnect controller and its backoff arithmetic (`reconnect.rs`). */
module ReconnectSpec {
  import opened Base

  datatype Failure =
    | TemporarilyUnreachable | NetworkChanged | SleepWake | TransportClosed | AuthenticationFailed | IdentityExpired
    | PairingRevoked | ProtocolIncompatible | ResourceExhausted | Cancelled

  predicate IsPermanent(f: Failure) {
    f in {AuthenticationFailed, IdentityExpired, PairingRevoked, ProtocolIncompatible, Cancelled}
  }

  datatype RetryLimit = RetryLimit(maxAttempts: u32, maxElapsedMs: u64) {
    predicate IsValid() { maxAttempts > 0 && maxElapsedMs > 0 }
  }

  datatype Backoff = Backoff(
    initialDelayMs: u64, maximumDelayMs: u64, multiplierPerThousand: u32, jitterPerThousand: u16, limit: RetryLimit)
  {
    predicate IsValid() {
      && initialDelayMs > 0 && maximumDelayMs >= initialDelayMs && multiplierPerThousand >= 1000
      && jitterPerThousand <= 1000 && limit.IsValid()
    }
  }

  datatype Policy = Disabled | Immediate(limit: RetryLimit) | Exponential(config: Backoff) | ApplicationControlled

  predicate PolicyValid(p: Policy) {
    match p
    case Disabled => true
    case ApplicationControlled => true
    case Immediate(limit) => limit.IsValid()
    case Exponential(config) => config.IsValid()
  }

  datatype StopReason =
    | PolicyDisabled | PermanentFailure(failure: Failure) | AttemptsExhausted | DeadlineExceeded | CancelRequested

  datatype Action = AttemptAt(unixMs: u64, attempt: u32) | AwaitApplication | Stop(reason: StopReason)

  function SaturatingMul(a: u64, b: nat): u64 { Min(a * b, U64_MAX) }

  function Grow(c: Backoff, delay: u64): u64 {
    Min(SaturatingMul(delay, c.multiplierPerThousand) / 1000, c.maximumDelayMs)
  }

  function ExponentialDelay(c: Backoff, attempt: nat): u64 {
    if attempt == 0 then c.initialDelayMs else Grow(c, ExponentialDelay(c, attempt - 1))
  }

  function JitterSpan(base: u64, jitter: u16): u64 {
    SaturatingMul(base, jitter) / 1000
  }

  function JitteredDelay(base: u64, jitter: u16, sample: u16): u64 {
    if jitter == 0 then base
    else
      var span := JitterSpan(base, jitter);
      var offset := SaturatingMul(SaturatingMul(span, sample), 2) / 1000;
      SaturatingAdd64(Max(base - span, 0), offset)
  }

  /* ------------------------------ The delay arithmetic -------------------------------- */

  lemma ScaleUp(delay: nat, factor: nat)
    requires factor >= 1000
    ensures delay <= delay * factor / 1000
  {
    assert delay * 1000 <= delay * factor;
  }

  /** Above this many milliseconds the 64-bit product saturates even for a multiplier of one. */
  const MILLISECOND_CEILING: u64 := U64_MAX / 1000

  /** Growth is exact until the product saturates, and saturates to the ceiling. */
  lemma GrowValue(c: Backoff, delay: u64)
    requires c.IsValid()
    ensures Grow(c, delay) <= MILLISECOND_CEILING && Grow(c, delay) <= c.maximumDelayMs
    ensures Grow(c, delay) == Min(Min(delay * c.multiplierPerThousand / 1000, MILLISECOND_CEILING), c.maximumDelayMs)
  {
  }

  lemma GrowNeverShrinks(c: Backoff, delay: u64)
    requires c.IsValid() && delay <= c.maximumDelayMs && delay <= MILLISECOND_CEILING
    ensures delay <= Grow(c, delay)
  {
    GrowValue(c, delay);
    ScaleUp(delay, c.multiplierPerThousand);
  }

  lemma {:induction false} DelayBounded(c: Backoff, n: nat)
    requires c.IsValid()
    ensures ExponentialDelay(c, n) <= c.maximumDelayMs
    ensures n > 0 || c.initialDelayMs <= MILLISECOND_CEILING ==> ExponentialDelay(c, n) <= MILLISECOND_CEILING
  {
    hide Grow;
    if n > 0 {
      GrowValue(c, ExponentialDelay(c, n - 1));
    }
  }

  lemma DelayStep(c: Backoff, n: nat)
    requires c.IsValid()
    ensures ExponentialDelay(c, n) <= ExponentialDelay(c, n + 1) <==> n > 0 || c.initialDelayMs <= MILLISECOND_CEILING
  {
    hide Grow;
    DelayBounded(c, n);
    DelayBounded(c, n + 1);
    if ExponentialDelay(c, n) <= MILLISECOND_CEILING {
      GrowNeverShrinks(c, ExponentialDelay(c, n));
    }
  }

  /**
    The base delay never falls from one attempt to the next exactly when the initial delay is at
    most the ceiling; a larger one drops on the first retry.
   */
  lemma DelayMonotoneExactly(c: Backoff)
    requires c.IsValid()
    ensures (forall n: nat :: ExponentialDelay(c, n) <= ExponentialDelay(c, n + 1))
            <==> c.initialDelayMs <= MILLISECOND_CEILING
  {
    hide ExponentialDelay;
    forall n: nat
      ensures ExponentialDelay(c, n) <= ExponentialDelay(c, n + 1) <==>
              n > 0 || c.initialDelayMs <= MILLISECOND_CEILING
    {
      DelayStep(c, n);
    }
    DelayStep(c, 0);
  }

  function Power(k: nat, n: nat): nat { if n == 0 then 1 else k * Power(k, n - 1) }

  function Geometric(c: Backoff, k: nat, n: nat): int { Min(c.initialDelayMs * Power(k, n), c.maximumDelayMs) }

  lemma {:induction false} PowerOfOne(n: nat)
    ensures Power(1, n) == 1
  {
    if n > 0 {
      PowerOfOne(n - 1);
    }
  }

  lemma MinTimes(k: nat, a: nat, b: nat)
    requires k > 0
    ensures Min(k * Min(a, b), b) == Min(k * a, b)
  {
    if a <= b {
    } else {
      TimesMonotone(1, k, b);
      TimesMonotone(1, k, a);
    }
  }

  lemma ThousandsCancel(k: nat, delay: nat)
    ensures delay * (1000 * k) / 1000 == k * delay
  {
    assert delay * (1000 * k) == (k * delay) * 1000;
  }

  lemma Reassociate(i: nat, k: nat, p: nat)
    ensures i * (k * p) == k * (i * p)
  {
  }

  /** Whether a whole-number multiplier stays clear of saturation. */
  predicate Representable(c: Backoff, k: nat) {
    if k == 1 then c.initialDelayMs <= MILLISECOND_CEILING else c.maximumDelayMs <= MILLISECOND_CEILING
  }

  lemma {:induction false} DelayIsGeometric(c: Backoff, k: nat, n: nat)
    requires c.IsValid() && c.multiplierPerThousand == 1000 * k && Representable(c, k)
    ensures ExponentialDelay(c, n) == Geometric(c, k, n)
  {
    hide Grow;
    if n > 0 {
      DelayIsGeometric(c, k, n - 1);
      DelayBounded(c, n - 1);
      var before := ExponentialDelay(c, n - 1);
      GrowValue(c, before);
      ThousandsCancel(k, before);
      MinTimes(k, c.initialDelayMs * Power(k, n - 1), c.maximumDelayMs);
      Reassociate(c.initialDelayMs, k, Power(k, n - 1));
    }
  }

  lemma {:induction false} PowerSplits(k: nat, m: nat, n: nat)
    ensures Power(k, m + n) == Power(k, m) * Power(k, n)
  {
    if m > 0 {
      PowerSplits(k, m - 1, n);
      Associate(k, Power(k, m - 1), Power(k, n));
    }
  }

  lemma Associate(a: nat, b: nat, c: nat)
    ensures a * (b * c) == (a * b) * c
  {
  }

  lemma {:induction false} PowerOutgrows(k: nat, m: nat, n: nat)
    requires k >= m
    ensures Power(k, n) >= Power(m, n)
  {
    if n > 0 {
      PowerOutgrows(k, m, n - 1);
      TimesMonotone(m, k, Power(k, n - 1));
      TimesMonotone(Power(m, n - 1), Power(k, n - 1), m);
    }
  }

  lemma TwoToTheEighth()
    ensures Power(2, 8) == 256
  {
    assert Power(2, 4) == 16;
  }

  /** Sixty-four doublings leave every 64-bit maximum behind. */
  lemma PowerOf64(k: nat)
    requires k >= 2
    ensures Power(k, 64) > U64_MAX
  {
    hide Power;
    PowerOutgrows(k, 2, 64);
    TwoToTheEighth();
    PowerSplits(2, 8, 8);
    PowerSplits(2, 16, 16);
    PowerSplits(2, 32, 32);
  }

  /**
    Where the geometric value has reached a maximum above the ceiling, the code falls short of it:
    on the first retry for a multiplier of one, and otherwise by the 64th.
   */
  lemma FallsShort(c: Backoff, k: nat) returns (n: u32)
    requires c.IsValid() && c.multiplierPerThousand == 1000 * k && !Representable(c, k)
    ensures n <= 64 && ExponentialDelay(c, n) != Geometric(c, k, n)
  {
    hide ExponentialDelay, Power;
    if k == 1 {
      n := 1;
      PowerOfOne(1);
    } else {
      n := 64;
      PowerOf64(k);
      TimesMonotone(1, c.initialDelayMs, Power(k, n));
    }
    DelayBounded(c, n);
  }

  /**
    For a whole-number multiplier the base delay of every attempt number is the geometric sequence
    cut off at the maximum, exactly when the maximum (for a multiplier of one, the initial delay)
    is at most the ceiling.
   */
  lemma DelayIsGeometricExactly(c: Backoff, k: nat)
    requires c.IsValid() && c.multiplierPerThousand == 1000 * k
    ensures (forall n: u32 :: ExponentialDelay(c, n) == Geometric(c, k, n)) <==> Representable(c, k)
  {
    hide ExponentialDelay, Geometric;
    if Representable(c, k) {
      forall n: u32
        ensures ExponentialDelay(c, n) == Geometric(c, k, n)
      {
        DelayIsGeometric(c, k, n);
      }
    } else {
      var n := FallsShort(c, k);
    }
  }

  lemma SpanWithin(base: u64, jitter: u16)
    requires jitter <= 1000
    ensures JitterSpan(base, jitter) <= base
  {
    TimesMonotone(jitter, 1000, base);
  }

  /** Jitter moves the delay by at most its span in either direction, whatever the sample. */
  lemma JitterBounded(base: u64, jitter: u16, sample: u16)
    requires jitter <= 1000 && sample <= 1000
    ensures var span := JitterSpan(base, jitter);
            base - span <= JitteredDelay(base, jitter, sample) <= base + span
  {
    SpanWithin(base, jitter);
    var span := JitterSpan(base, jitter);
    TimesMonotone(sample, 1000, span);
    var most: nat := span * 1000;
    assert SaturatingMul(SaturatingMul(span, sample), 2) <= most * 2;
  }

  /* ------------------------------------ Controller ------------------------------------ */

  datatype Controller = Controller(policy: Policy, started: Option<u64>, attempts: u32, paused: bool)

  function Schedule(s: Controller, now: u64, started: u64, delay: u64, limit: RetryLimit): (Controller, Action) {
    if s.attempts >= limit.maxAttempts then (s, Stop(AttemptsExhausted))
    else
      var elapsed := Max(now - started, 0);
      if elapsed >= limit.maxElapsedMs || SaturatingAdd64(elapsed, delay) > limit.maxElapsedMs then
        (s, Stop(DeadlineExceeded))
      else
        (s.(attempts := s.attempts + 1), AttemptAt(SaturatingAdd64(now, delay), s.attempts + 1))
  }

  function AfterFailure(s: Controller, cancelled: bool, f: Failure, now: u64, sample: u16): (Controller, Action) {
    if cancelled || f == Cancelled then (s, Stop(CancelRequested))
    else if IsPermanent(f) then (s, Stop(PermanentFailure(f)))
    else if s.paused then (s, AwaitApplication)
    else
      var started := if s.started.Some? then s.started.value else now;
      var running := s.(started := Some(started));
      match s.policy
      case Disabled => (running, Stop(PolicyDisabled))
      case ApplicationControlled => (running, AwaitApplication)
      case Immediate(limit) => Schedule(running, now, started, 0, limit)
      case Exponential(c) =>
        var base := ExponentialDelay(c, s.attempts);
        Schedule(running, now, started, JitteredDelay(base, c.jitterPerThousand, Min(sample, 1000)), c.limit)
  }

  datatype Op =
    | Failed(cancelled: bool, failure: Failure, now: u64, sample: u16)
    | Pause
    | Resume
    | Reset

  function Step(s: Controller, op: Op): (Controller, Option<Action>) {
    match op
    case Failed(cancelled, failure, now, sample) =>
      var (after, action) := AfterFailure(s, cancelled, failure, now, sample); (after, Some(action))
    case Pause => (s.(paused := true), None)
    case Resume => (s.(paused := false), None)
    case Reset => (s.(started := None, attempts := 0), None)
  }

  function Final(s: Controller, ops: seq<Op>): Controller {
    if ops == [] then s else Step(Final(s, ops[..|ops| - 1]), ops[|ops| - 1]).0
  }

  /** The attempts scheduled over the run, in order. */
  function Attempts(s: Controller, ops: seq<Op>): seq<Action> {
    if ops == [] then []
    else
      var n := |ops| - 1;
      var action := Step(Final(s, ops[..n]), ops[n]).1;
      Attempts(s, ops[..n]) + (if action.Some? && action.value.AttemptAt? then [action.value] else [])
  }

  function LimitOf(p: Policy): Option<RetryLimit> {
    match p
    case Immediate(limit) => Some(limit)
    case Exponential(c) => Some(c.limit)
    case Disabled => None
    case ApplicationControlled => None
  }

  predicate Fresh(s: Controller) {
    PolicyValid(s.policy) && s.started.None? && s.attempts == 0
  }

  /**
    What one call does to the series. An attempt is never before the failure it answers nor after
    the start plus the allowed time, even where the clock has gone back behind the start.
   */
  lemma StepBounds(s: Controller, op: Op)
    requires PolicyValid(s.policy) && !op.Reset?
    ensures var (after, action) := Step(s, op);
            && after.policy == s.policy && (action.Some? ==> op.Failed?)
            && (s.started.Some? ==> after.started == s.started)
            && (if action.Some? && action.value.AttemptAt? then
                  && LimitOf(s.policy).Some? && after.started.Some?
                  && after.attempts == s.attempts + 1 == action.value.attempt <= LimitOf(s.policy).value.maxAttempts
                  && op.now <= action.value.unixMs
                  && action.value.unixMs <= after.started.value + LimitOf(s.policy).value.maxElapsedMs
                else after.attempts == s.attempts)
  {
    hide ExponentialDelay, JitteredDelay;
  }

  /** The attempts of one series are numbered 1, 2, 3, ... and never more than the limit. */
  lemma {:induction false} AttemptsNumbered(s: Controller, ops: seq<Op>)
    requires Fresh(s) && forall k :: 0 <= k < |ops| ==> !ops[k].Reset?
    ensures Final(s, ops).policy == s.policy && Final(s, ops).attempts == |Attempts(s, ops)|
    ensures forall k :: 0 <= k < |Attempts(s, ops)| ==>
              Attempts(s, ops)[k].AttemptAt? && Attempts(s, ops)[k].attempt == k + 1
    ensures Attempts(s, ops) != [] ==>
              LimitOf(s.policy).Some? && |Attempts(s, ops)| <= LimitOf(s.policy).value.maxAttempts
  {
    hide Step;
    if ops != [] {
      var n := |ops| - 1;
      AttemptsNumbered(s, ops[..n]);
      StepBounds(Final(s, ops[..n]), ops[n]);
    }
  }

  /**
    Within one series every attempt is scheduled no later than the start plus the allowed time,
    whatever the clock does in between.
   */
  lemma {:induction false} AttemptsWithinDeadline(s: Controller, ops: seq<Op>)
    requires Fresh(s) && forall k :: 0 <= k < |ops| ==> !ops[k].Reset?
    ensures Final(s, ops).policy == s.policy
    ensures Attempts(s, ops) != [] ==> Final(s, ops).started.Some? && LimitOf(s.policy).Some?
    ensures forall k :: 0 <= k < |Attempts(s, ops)| ==>
              Attempts(s, ops)[k].AttemptAt?
              && Attempts(s, ops)[k].unixMs <= Final(s, ops).started.value + LimitOf(s.policy).value.maxElapsedMs
  {
    hide Step;
    if ops != [] {
      var n := |ops| - 1;
      AttemptsWithinDeadline(s, ops[..n]);
      StepBounds(Final(s, ops[..n]), ops[n]);
      var earlier, all := Attempts(s, ops[..n]), Attempts(s, ops);
      var latest: nat :=
        if all == [] then 0 else Final(s, ops).started.value + LimitOf(s.policy).value.maxElapsedMs;
      forall k | 0 <= k < |all|
        ensures all[k].AttemptAt? && all[k].unixMs <= latest
      {
        if k < |earlier| {
          assert all[k] == earlier[k];
        }
      }
    }
  }
}

/** The controller as the imperative code keeps it. */
module Reconnect {
  import opened Base
  import opened ReconnectSpec

  class ReconnectController {
    const policy: Policy
    var started: Option<u64>
    var attempts: u32
    var paused: bool

    ghost function Model(): Controller
      reads this
    {
      Controller(policy, started, attempts, paused)
    }

    constructor (policy: Policy)
      requires PolicyValid(policy)
      ensures Model() == Controller(policy, None, 0, false)
    {
      this.policy, started, attempts, paused := policy, None, 0, false;
    }

    static method New(policy: Policy) returns (r: Option<ReconnectController>)
      ensures r.Some? <==> PolicyValid(policy)
      ensures r.Some? ==> fresh(r.value) && r.value.Model() == Controller(policy, None, 0, false)
    {
      if !PolicyValid(policy) {
        return None;
      }
      var controller := new ReconnectController(policy);
      return Some(controller);
    }

    method Pause()
      modifies this`paused
      ensures Model() == Step(old(Model()), Op.Pause).0
    {
      paused := true;
    }

    method Resume()
      modifies this`paused
      ensures Model() == Step(old(Model()), Op.Resume).0
    {
      paused := false;
    }

    method Reset()
      modifies this`started, this`attempts
      ensures Model() == Step(old(Model()), Op.Reset).0
    {
      started, attempts := None, 0;
    }

    method AfterFailure(cancelled: bool, failure: Failure, now: u64, sample: u16) returns (action: Action)
      modifies this`started, this`attempts
      ensures (Model(), action) == ReconnectSpec.AfterFailure(old(Model()), cancelled, failure, now, sample)
    {
      if cancelled || failure == Cancelled {
        return Stop(CancelRequested);
      }
      if IsPermanent(failure) {
        return Stop(PermanentFailure(failure));
      }
      if paused {
        return AwaitApplication;
      }
      if started.None? {
        started := Some(now);
      }
      match policy {
        case Disabled => action := Stop(PolicyDisabled);
        case ApplicationControlled => action := AwaitApplication;
        case Immediate(limit) => action := Schedule(now, started.value, 0, limit);
        case Exponential(config) =>
          var base := BaseDelay(config, attempts);
          var delay := JitteredDelay(base, config.jitterPerThousand, Min(sample, 1000));
          action := Schedule(now, started.value, delay, config.limit);
      }
    }

    method Schedule(now: u64, start: u64, delay: u64, limit: RetryLimit) returns (action: Action)
      modifies this`attempts
      ensures (Model(), action) == ReconnectSpec.Schedule(old(Model()), now, start, delay, limit)
    {
      if attempts >= limit.maxAttempts {
        return Stop(AttemptsExhausted);
      }
      var elapsed := Max(now - start, 0);
      if elapsed >= limit.maxElapsedMs || SaturatingAdd64(elapsed, delay) > limit.maxElapsedMs {
        return Stop(DeadlineExceeded);
      }
      attempts := attempts + 1;
      return AttemptAt(SaturatingAdd64(now, delay), attempts);
    }
  }

  /** The growth loop. */
  method BaseDelay(config: Backoff, attempt: u32) returns (delay: u64)
    ensures delay == ExponentialDelay(config, attempt)
  {
    hide Grow;
    delay := config.initialDelayMs;
    for n := 0 to attempt
      invariant delay == ExponentialDelay(config, n)
    {
      delay := Grow(config, delay);
    }
  }
}
