/**
  What the reconnect controller answers, in terms of the calls made so far: the reference is the
  history of one series, not the controller's fields.
 */
module ReconnectRun {
  import opened Base
  import opened ReconnectSpec

  /* ------------------------------ What the history says ------------------------------- */

  /** Whether the application has the controller paused: the last word of `Pause` and `Resume`. */
  function PausedBy(initially: bool, ops: seq<Op>): bool {
    if ops == [] then initially
    else
      match ops[|ops| - 1]
      case Pause => true
      case Resume => false
      case Failed(_, _, _, _) => PausedBy(initially, ops[..|ops| - 1])
      case Reset => PausedBy(initially, ops[..|ops| - 1])
  }

  /** Failures that end the connection for good. */
  const PERMANENT: set<Failure> := {
    AuthenticationFailed, IdentityExpired, PairingRevoked, ProtocolIncompatible, Cancelled
  }

  /** A failure the policy is asked about. */
  predicate Counts(op: Op, paused: bool) {
    op.Failed? && !op.cancelled && op.failure !in PERMANENT && !paused
  }

  /** When the series began: at the first failure the policy was asked about. */
  function Began(initially: bool, ops: seq<Op>): Option<u64> {
    if ops == [] then None
    else
      var n := |ops| - 1;
      if Began(initially, ops[..n]).Some? then Began(initially, ops[..n])
      else if Counts(ops[n], PausedBy(initially, ops[..n])) then Some(ops[n].now)
      else None
  }

  /* --------------------------------- The delays ---------------------------------------- */

  /** Successive base delays: each the last one times the multiplier, rounded down, and cut off. */
  ghost predicate Progression(c: Backoff, delays: seq<nat>) {
    && delays != [] && delays[0] == c.initialDelayMs
    && forall k :: 0 <= k < |delays| - 1 ==>
         delays[k + 1] == Min(Min(delays[k] * c.multiplierPerThousand / 1000, U64_MAX / 1000), c.maximumDelayMs)
  }

  /** A delay within its jitter share of the base, in proportion to the sample where 64 bits suffice. */
  ghost predicate Jittered(c: Backoff, base: nat, sample: u16, delay: nat) {
    var share := Min(base * c.jitterPerThousand, U64_MAX) / 1000;
    var used := if sample > 1000 then 1000 else sample;
    && base - share <= delay <= base + share
    && (base + share <= U64_MAX && 2 * share * used <= U64_MAX ==> delay == base - share + 2 * share * used / 1000)
  }

  /** The delay before attempt `k + 1`: none, or a jittered member of the progression. */
  ghost predicate Waits(policy: Policy, k: nat, sample: u16, delay: nat) {
    match policy
    case Immediate(_) => delay == 0
    case Exponential(c) =>
      exists delays: seq<nat> :: |delays| == k + 1 && Progression(c, delays) && Jittered(c, delays[k], sample, delay)
    case Disabled => false
    case ApplicationControlled => false
  }

  /** The answer to a failure, given the pauses, start and attempts of the series so far. */
  ghost predicate Answers(policy: Policy, op: Op, paused: bool, start: u64, k: nat, action: Action)
    requires op.Failed?
  {
    if op.cancelled || op.failure == Cancelled then action == Stop(CancelRequested)
    else if op.failure in PERMANENT then action == Stop(PermanentFailure(op.failure))
    else if paused then action == AwaitApplication
    else if policy == Disabled then action == Stop(PolicyDisabled)
    else if policy == ApplicationControlled then action == AwaitApplication
    else
      var limit := if policy.Immediate? then policy.limit else policy.config.limit;
      if k >= limit.maxAttempts then action == Stop(AttemptsExhausted)
      else
        exists delay: nat :: Waits(policy, k, op.sample, delay) && Timed(limit, op.now, start, k, delay, action)
  }

  /**
    An attempt is made after the delay if that is still within the allowed time of the series. A
    limit of 2^64 - 1 allows every delay.
   */
  predicate Timed(limit: RetryLimit, now: u64, start: u64, k: nat, delay: nat, action: Action) {
    var elapsed := if now > start then now - start else 0;
    if elapsed < limit.maxElapsedMs && (elapsed + delay <= limit.maxElapsedMs || limit.maxElapsedMs == U64_MAX) then
      action.AttemptAt? && action.attempt == k + 1
      && action.unixMs == if now + delay > U64_MAX then U64_MAX else now + delay
    else action == Stop(DeadlineExceeded)
  }

  /** What the controller answers to the failure at position `n` of the run. */
  function AnswerAt(s: Controller, ops: seq<Op>, n: nat): Action
    requires n < |ops| && ops[n].Failed?
  {
    Step(Final(s, ops[..n]), ops[n]).1.value
  }

  /* ------------------------------------ The proofs ------------------------------------- */

  lemma {:induction false} BaseDelays(c: Backoff, k: nat) returns (delays: seq<nat>)
    requires c.IsValid()
    ensures |delays| == k + 1 && Progression(c, delays) && delays[k] == ExponentialDelay(c, k)
  {
    hide Grow;
    if k == 0 {
      delays := [c.initialDelayMs];
    } else {
      var earlier := BaseDelays(c, k - 1);
      GrowValue(c, ExponentialDelay(c, k - 1));
      delays := earlier + [ExponentialDelay(c, k)];
    }
  }

  lemma JitterIsProportional(c: Backoff, base: u64, sample: u16)
    requires c.jitterPerThousand <= 1000
    ensures Jittered(c, base, sample, JitteredDelay(base, c.jitterPerThousand, Min(sample, 1000)))
  {
    var used := Min(sample, 1000);
    JitterBounded(base, c.jitterPerThousand, used);
    SpanWithin(base, c.jitterPerThousand);
    var share := JitterSpan(base, c.jitterPerThousand);
    if base + share <= U64_MAX && 2 * share * used <= U64_MAX {
      ExactOffset(base, c.jitterPerThousand, used);
    }
  }

  lemma ExactOffset(base: u64, jitter: u16, sample: u16)
    requires jitter <= 1000 && sample <= 1000
    requires var share := JitterSpan(base, jitter); base + share <= U64_MAX && 2 * share * sample <= U64_MAX
    ensures var share := JitterSpan(base, jitter);
            JitteredDelay(base, jitter, sample) == base - share + 2 * share * sample / 1000
  {
    SpanWithin(base, jitter);
    var share := JitterSpan(base, jitter);
    TimesMonotone(sample, 1000, share);
    assert 2 * share * sample == share * sample * 2;
    if jitter == 0 {
      assert base * jitter == 0;
      assert share == 0 && 2 * share * sample == 0;
    }
  }

  /** The controller's fields are what the history says. */
  ghost predicate Remembers(s: Controller, ops: seq<Op>) {
    var now := Final(s, ops);
    && now.policy == s.policy && now.paused == PausedBy(s.paused, ops) && now.started == Began(s.paused, ops)
    && now.attempts == |Attempts(s, ops)|
  }

  lemma PermanentAgrees(f: Failure)
    ensures IsPermanent(f) <==> f in PERMANENT
  {
  }

  lemma ScheduleKeeps(s: Controller, now: u64, start: u64, delay: u64, limit: RetryLimit)
    ensures Schedule(s, now, start, delay, limit).0.(attempts := s.attempts) == s
  {
  }

  lemma StepRemembers(s: Controller, op: Op)
    requires PolicyValid(s.policy) && !op.Reset?
    ensures var after := Step(s, op).0;
            && after.policy == s.policy && after.paused == PausedBy(s.paused, [op])
            && after.started == if s.started.Some? then s.started
                                else if Counts(op, s.paused) then Some(op.now) else None
  {
    hide Schedule, ExponentialDelay, JitteredDelay, IsPermanent;
    assert [op][..0] == [];
    if op.Failed? {
      PermanentAgrees(op.failure);
      if Counts(op, s.paused) {
        var start := if s.started.Some? then s.started.value else op.now;
        var running := s.(started := Some(start));
        match s.policy {
          case Disabled =>
          case ApplicationControlled =>
          case Immediate(limit) => ScheduleKeeps(running, op.now, start, 0, limit);
          case Exponential(c) =>
            var base := ExponentialDelay(c, s.attempts);
            ScheduleKeeps(running, op.now, start, JitteredDelay(base, c.jitterPerThousand, Min(op.sample, 1000)),
                          c.limit);
        }
      }
    }
  }

  lemma {:induction false} RunRemembers(s: Controller, ops: seq<Op>)
    requires Fresh(s) && forall k :: 0 <= k < |ops| ==> !ops[k].Reset?
    ensures Remembers(s, ops)
  {
    hide Step;
    AttemptsNumbered(s, ops);
    if ops != [] {
      var n := |ops| - 1;
      RunRemembers(s, ops[..n]);
      StepRemembers(Final(s, ops[..n]), ops[n]);
      assert [ops[n]][..0] == [];
    }
  }

  lemma ScheduleTimes(s: Controller, now: u64, start: u64, delay: u64, limit: RetryLimit)
    ensures var action := Schedule(s, now, start, delay, limit).1;
            if s.attempts >= limit.maxAttempts then action == Stop(AttemptsExhausted)
            else Timed(limit, now, start, s.attempts, delay, action)
  {
  }

  lemma StepAnswers(s: Controller, op: Op)
    requires PolicyValid(s.policy) && op.Failed?
    ensures var start := if s.started.Some? then s.started.value else op.now;
            Answers(s.policy, op, s.paused, start, s.attempts, Step(s, op).1.value)
  {
    hide Schedule, ExponentialDelay, JitteredDelay, IsPermanent, Timed, Jittered, Progression;
    PermanentAgrees(op.failure);
    if Counts(op, s.paused) {
      var start := if s.started.Some? then s.started.value else op.now;
      var running := s.(started := Some(start));
      match s.policy {
        case Disabled =>
        case ApplicationControlled =>
        case Immediate(limit) =>
          ScheduleTimes(running, op.now, start, 0, limit);
          assert Waits(s.policy, s.attempts, op.sample, 0);
        case Exponential(c) =>
          var base := ExponentialDelay(c, s.attempts);
          var delay := JitteredDelay(base, c.jitterPerThousand, Min(op.sample, 1000));
          ScheduleTimes(running, op.now, start, delay, c.limit);
          var delays := BaseDelays(c, s.attempts);
          JitterIsProportional(c, base, op.sample);
          assert Waits(s.policy, s.attempts, op.sample, delay);
      }
    }
  }

  /**
    Every answer of a series is what its history calls for: cancelled, permanent, paused and policy
    answers in that order, then the attempt limit, then the allowed time; and an attempt is numbered
    one past those made and timed by the jittered delay of its place in the progression.
   */
  lemma AnswersFollowHistory(s: Controller, ops: seq<Op>, n: nat)
    requires Fresh(s) && n < |ops| && ops[n].Failed? && forall k :: 0 <= k < n ==> !ops[k].Reset?
    ensures var before := ops[..n];
            var start := if Began(s.paused, before).Some? then Began(s.paused, before).value else ops[n].now;
            Answers(s.policy, ops[n], PausedBy(s.paused, before), start, |Attempts(s, before)|, AnswerAt(s, ops, n))
  {
    hide Step, Answers, Began, PausedBy;
    RunRemembers(s, ops[..n]);
    StepAnswers(Final(s, ops[..n]), ops[n]);
  }

  /** A reset begins a new series under the same policy, paused or not as before. */
  lemma ResetStartsAnew(s: Controller)
    requires PolicyValid(s.policy)
    ensures var after := Step(s, Op.Reset).0;
            Fresh(after) && after.policy == s.policy && after.paused == s.paused && Step(s, Op.Reset).1.None?
  {
  }

  lemma {:induction false} ProgressionIsGeometric(c: Backoff, m: nat, delays: seq<nat>, k: nat)
    requires c.IsValid() && c.multiplierPerThousand == 1000 * m && Representable(c, m)
    requires Progression(c, delays) && k < |delays|
    ensures delays[k] == Geometric(c, m, k)
  {
    hide Geometric, Grow;
    var same := BaseDelays(c, k);
    SameProgression(c, delays, same, k);
    DelayIsGeometric(c, m, k);
  }

  lemma {:induction false} SameProgression(c: Backoff, a: seq<nat>, b: seq<nat>, k: nat)
    requires Progression(c, a) && Progression(c, b) && k < |a| && k < |b|
    ensures a[k] == b[k]
  {
    if k > 0 {
      SameProgression(c, a, b, k - 1);
    }
  }

  /**
    In particular, under a geometric policy attempt `k + 1` answering a failure at `now` is timed at
    `now` plus min(maximum, initial * m^k), give or take its jitter share, and exactly so without
    jitter.
   */
  lemma GeometricAttempts(s: Controller, ops: seq<Op>, n: nat, m: nat)
    requires Fresh(s) && n < |ops| && ops[n].Failed? && forall k :: 0 <= k < n ==> !ops[k].Reset?
    requires s.policy.Exponential? && s.policy.config.multiplierPerThousand == 1000 * m
    requires Representable(s.policy.config, m) && AnswerAt(s, ops, n).AttemptAt?
    ensures AnswerAt(s, ops, n).attempt == |Attempts(s, ops[..n])| + 1
    ensures OnTime(s.policy.config, m, |Attempts(s, ops[..n])|, ops[n].now, AnswerAt(s, ops, n).unixMs)
  {
    hide Timed, Waits, AnswerAt, Began, PausedBy, Attempts, OnTime;
    var before := ops[..n];
    var c, k, action := s.policy.config, |Attempts(s, before)|, AnswerAt(s, ops, n);
    var start := if Began(s.paused, before).Some? then Began(s.paused, before).value else ops[n].now;
    AnswersFollowHistory(s, ops, n);
    var delay: nat :| Waits(s.policy, k, ops[n].sample, delay) && Timed(c.limit, ops[n].now, start, k, delay, action);
    TimedOnTime(s.policy, m, k, ops[n], start, delay, action);
  }

  /** Whether a time is `now` plus the geometric delay, give or take its jitter share. */
  predicate OnTime(c: Backoff, m: nat, k: nat, now: u64, unixMs: u64) {
    var base := Min(c.initialDelayMs * Power(m, k), c.maximumDelayMs);
    var share := base * c.jitterPerThousand / 1000;
    && Min(now + base - share, U64_MAX) <= unixMs <= Min(now + base + share, U64_MAX)
    && (c.jitterPerThousand == 0 ==> unixMs == Min(now + base, U64_MAX))
  }

  lemma TimedOnTime(policy: Policy, m: nat, k: nat, op: Op, start: u64, delay: nat, action: Action)
    requires policy.Exponential? && policy.config.IsValid() && op.Failed?
    requires policy.config.multiplierPerThousand == 1000 * m && Representable(policy.config, m)
    requires Waits(policy, k, op.sample, delay) && Timed(policy.config.limit, op.now, start, k, delay, action)
    requires action.AttemptAt?
    ensures action.attempt == k + 1 && OnTime(policy.config, m, k, op.now, action.unixMs)
  {
    hide Progression, Power;
    var c := policy.config;
    var delays: seq<nat> :| |delays| == k + 1 && Progression(c, delays) && Jittered(c, delays[k], op.sample, delay);
    ProgressionIsGeometric(c, m, delays, k);
    ShareWithin(delays[k], c.jitterPerThousand);
  }

  lemma ShareWithin(base: nat, jitter: u16)
    ensures Min(base * jitter, U64_MAX) / 1000 <= base * jitter / 1000
    ensures jitter == 0 ==> base * jitter / 1000 == 0
  {
  }
}
