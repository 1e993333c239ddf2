/** The retry loop of the proxy handler, one request at a time. */
module RetryLoop {
  import opened Prelude

  const U64_MAX := 0xFFFF_FFFF_FFFF_FFFF

  // ------------------------------------------------------------------ backoff

  function Pow2(n: nat): nat {
    if n == 0 then 1 else 2 * Pow2(n - 1)
  }

  function SaturatingMul(a: nat, b: nat): nat {
    Min(a * b, U64_MAX)
  }

  function BackoffMs(attempt: nat, base: nat, cap: nat): nat {
    var shift := Min(Max(attempt - 1, 0), 10);
    Min(SaturatingMul(base, Pow2(shift)), cap)
  }

  lemma {:induction false} Pow2Increases(a: nat, b: nat)
    requires a <= b
    ensures Pow2(a) <= Pow2(b)
  {
    if a < b {
      Pow2Increases(a, b - 1);
    }
  }

  lemma ScaleIncreases(base: nat, x: nat, y: nat)
    requires x <= y
    ensures base * x <= base * y
  {
  }

  /** For 64-bit caps saturation is invisible, and waiting never gets shorter with more attempts. */
  lemma BackoffExact(attempt: nat, later: nat, base: nat, cap: nat)
    requires cap <= U64_MAX && attempt <= later
    ensures BackoffMs(attempt, base, cap) == Min(cap, base * Pow2(Min(Max(attempt - 1, 0), 10)))
    ensures BackoffMs(attempt, base, cap) <= BackoffMs(later, base, cap) <= cap
  {
    var a, b := Min(Max(attempt - 1, 0), 10), Min(Max(later - 1, 0), 10);
    Pow2Increases(a, b);
    ScaleIncreases(base, Pow2(a), Pow2(b));
    hide Pow2;
  }

  /** A deterministic jitter; the product wraps in 64 bits. */
  function CheapJitterMs(attempt: nat): (ms: nat)
    ensures ms <= 22
  {
    (attempt * 37) % (U64_MAX + 1) % 23
  }

  // ------------------------------------------------------------ what may happen

  datatype Outcome = Answered(status: nat) | SendError(timeoutOrConnect: bool)

  /** What an attempt would meet: how long the send takes, how it ends, what the gate says and how late. */
  datatype Attempt = Attempt(duration: nat, outcome: Outcome, gate: bool, gateMs: nat)

  datatype RetryPolicy = RetryPolicy(maxAttempts: nat, baseBackoffMs: nat, maxBackoffMs: nat)

  datatype Call = Call(policy: RetryPolicy, idempotent: bool, retry429: bool, timeoutMs: int, start: int,
                       env: nat -> Attempt)
  {
    function Deadline(): int {
      start + Max(timeoutMs, 1)
    }

    predicate Retryable(outcome: Outcome) {
      match outcome
      case Answered(status) => status in {408, 500, 502, 503, 504} || (status == 429 && retry429)
      case SendError(timeoutOrConnect) => timeoutOrConnect
    }

    /** The sum wraps in 64 bits. */
    function SleepMs(attempt: nat): nat {
      (BackoffMs(attempt, policy.baseBackoffMs, policy.maxBackoffMs) + CheapJitterMs(attempt)) % (U64_MAX + 1)
    }

    /** When attempt `n` begins, if the loop gets that far. */
    function StartOf(n: nat): int
      requires n >= 1
    {
      if n == 1 then start else StartOf(n - 1) + env(n - 1).duration + env(n - 1).gateMs + SleepMs(n - 1)
    }

    /** Attempt `n` is sent, ends in time and asks the gate for another. */
    predicate Asks(n: nat)
      requires n >= 1
    {
      && StartOf(n) < Deadline()
      && StartOf(n) + env(n).duration <= Deadline()
      && idempotent && Retryable(env(n).outcome) && n < policy.maxAttempts
    }

    predicate Continues(n: nat)
      requires n >= 1
    {
      Asks(n) && env(n).gate
    }

    /** How long the gate took when it was last asked, if the loop makes `n` passes. */
    function LastGateMs(n: nat): nat {
      if n >= 1 && Asks(n) then env(n).gateMs else if n >= 2 then env(n - 1).gateMs else 0
    }

    /** The loop makes exactly `n` passes. */
    ghost predicate StopsAt(n: nat) {
      n >= 1 && (forall k | 1 <= k < n :: Continues(k)) && !Continues(n)
    }
  }

  datatype Result = GatewayTimeout | Upstream(status: nat) | BadGateway

  method RunAttempts(c: Call)
    returns (result: Result, attempt: nat, sends: nat, retriesUsed: nat, budgetBlocked: bool, end: int)
    ensures c.StopsAt(attempt)
    ensures retriesUsed == attempt - 1
    ensures sends == if c.StartOf(attempt) < c.Deadline() then attempt else attempt - 1
    ensures end == if c.StartOf(attempt) >= c.Deadline() then c.StartOf(attempt)
                   else Min(c.Deadline(), c.StartOf(attempt) + c.env(attempt).duration)
                        + if budgetBlocked then c.env(attempt).gateMs else 0
    ensures result == if c.StartOf(attempt) >= c.Deadline()
                         || c.StartOf(attempt) + c.env(attempt).duration > c.Deadline() then GatewayTimeout
                      else if c.env(attempt).outcome.Answered? then Upstream(c.env(attempt).outcome.status)
                      else BadGateway
    ensures budgetBlocked <==> c.Asks(attempt)
    ensures end <= c.start + (if c.timeoutMs >= 1 then c.timeoutMs else 1)
                   + c.LastGateMs(attempt) + c.policy.maxBackoffMs + 22
  {
    hide Call.SleepMs, Call.Retryable;
    var deadline := c.start + Max(c.timeoutMs, 1);
    var now := c.start;
    attempt, sends, retriesUsed, budgetBlocked := 0, 0, 0, false;
    while true
      invariant retriesUsed == sends == attempt && !budgetBlocked
      invariant now == c.StartOf(attempt + 1)
      invariant forall k | 1 <= k <= attempt :: c.Continues(k)
      decreases c.policy.maxAttempts - attempt
    {
      attempt := attempt + 1;
      StartBound(c, attempt);
      if now >= deadline {
        return GatewayTimeout, attempt, sends, retriesUsed, budgetBlocked, now;
      }
      var remaining := deadline - now;
      sends := sends + 1;
      var Attempt(duration, outcome, gate, gateMs) := c.env(attempt);
      if duration > remaining {
        return GatewayTimeout, attempt, sends, retriesUsed, budgetBlocked, deadline;
      }
      now := now + duration;
      if c.idempotent && c.Retryable(outcome) && attempt < c.policy.maxAttempts {
        now := now + gateMs;
        if gate {
          retriesUsed := retriesUsed + 1;
          now := now + c.SleepMs(attempt);
          continue;
        }
        budgetBlocked := true;
      }
      result := if outcome.Answered? then Upstream(outcome.status) else BadGateway;
      return result, attempt, sends, retriesUsed, budgetBlocked, now;
    }
  }

  lemma SleepBound(c: Call, n: nat)
    ensures c.SleepMs(n) <= c.policy.maxBackoffMs + 22
  {
    var wait := BackoffMs(n, c.policy.baseBackoffMs, c.policy.maxBackoffMs) + CheapJitterMs(n);
    assert wait <= c.policy.maxBackoffMs + 22;
    hide BackoffMs, CheapJitterMs;
  }

  /** What every run of the loop keeps, for any policy, upstream and gate. */
  lemma LoopBounds(c: Call, n: nat)
    requires c.StopsAt(n)
    ensures n <= Max(1, c.policy.maxAttempts)
    ensures !c.idempotent ==> n == 1
    ensures c.StartOf(1) < c.Deadline()
    ensures n > 1 ==> c.StartOf(n) <= c.Deadline() + c.env(n - 1).gateMs + c.policy.maxBackoffMs + 22
  {
    hide Call.SleepMs, Call.Retryable;
    StartBound(c, n);
    assert n > 1 ==> c.Continues(1) && c.Continues(n - 1);
  }

  /** A pass begins no later than the gate and the longest wait after the deadline. */
  lemma StartBound(c: Call, n: nat)
    requires n >= 1 && forall k | 1 <= k < n :: c.Continues(k)
    ensures n == 1 ==> c.StartOf(n) < c.Deadline()
    ensures n > 1 ==> c.StartOf(n) <= c.Deadline() + c.env(n - 1).gateMs + c.policy.maxBackoffMs + 22
  {
    hide Call.SleepMs, Call.Retryable;
    if n > 1 {
      assert c.Continues(n - 1);
      SleepBound(c, n - 1);
    }
  }

  /**
   * Between a pass and the next lie its send, its gate and the wait: the base doubled with each pass up
   * to ten times, within the cap, and a jitter of at most 22 ms on top.
   */
  lemma WaitExactly(c: Call, n: nat, k: nat)
    requires c.StopsAt(n) && 1 < k <= n && c.policy.maxBackoffMs <= U64_MAX - 22
    ensures var wait := c.StartOf(k) - (c.StartOf(k - 1) + c.env(k - 1).duration + c.env(k - 1).gateMs);
            var backoff := Min(c.policy.maxBackoffMs, c.policy.baseBackoffMs * Pow2(Min(k - 2, 10)));
            && wait == backoff + (k - 1) * 37 % 0x1_0000_0000_0000_0000 % 23
            && backoff <= wait <= backoff + 22
    ensures c.StartOf(1) == c.start
  {
    var base, cap := c.policy.baseBackoffMs, c.policy.maxBackoffMs;
    BackoffExact(k - 1, k - 1, base, cap);
    var jitter := CheapJitterMs(k - 1);
    hide BackoffMs, Pow2;
    assert c.SleepMs(k - 1) == BackoffMs(k - 1, base, cap) + jitter;
  }

  /** The powers in the backoff. */
  lemma Pow2Doubles(n: nat)
    ensures Pow2(0) == 1 && Pow2(n + 1) == 2 * Pow2(n) && Pow2(10) == 1024
  {
  }

  /** A timeout or a failure of the server or of the connection; 429 where the partner allows it. */
  ghost predicate WorthRetrying(outcome: Outcome, retry429: bool) {
    || (outcome.Answered? && (outcome.status == 408 || outcome.status == 500 || 502 <= outcome.status <= 504))
    || (outcome == Answered(429) && retry429)
    || outcome == SendError(true)
  }

  /**
   * A pass is followed by another only for an idempotent caller, after an outcome worth retrying - never
   * after an answer of 200 - and with the gate's consent; and in time such an outcome is returned to an
   * idempotent caller only when the attempts are used up or the gate refuses.
   */
  lemma RetriedOutcomes(c: Call, n: nat)
    requires c.StopsAt(n)
    ensures forall k | 1 <= k < n ::
              && c.idempotent && c.env(k).gate
              && WorthRetrying(c.env(k).outcome, c.retry429) && c.env(k).outcome != Answered(200)
    ensures c.idempotent && WorthRetrying(c.env(n).outcome, c.retry429)
            && c.StartOf(n) < c.Deadline() && c.StartOf(n) + c.env(n).duration <= c.Deadline()
            ==> n >= c.policy.maxAttempts || !c.env(n).gate
  {
    forall k | 1 <= k < n
      ensures c.idempotent && c.env(k).gate && c.Retryable(c.env(k).outcome)
    {
      assert c.Continues(k);
    }
  }
}
