/**
 * The per-key token bucket kept in the Redis hash `rl:{vk_id}`.
 *
 * Amounts are in thousandths of a token and times in milliseconds, so the refill
 * `delta / 1000.0 * rate` is the exact integer `delta * rate`.
 */
module TokenBucket {
  import opened Prelude

  const UNIT := 1000
  const TTL_SECS := 60 * 60 * 24 * 7
  const TTL_MS := TTL_SECS * 1000

  /** The two hash fields the script writes together. */
  datatype Bucket = Bucket(tokens: int, ts: int)

  /** `ttl` is how long Redis keeps an untouched key; `None` stands for a key that never expires. */
  datatype Config = Config(rate: int, cap: int, ttl: Option<nat>) {
    /** What `enforce_limits` hands over for a key whose configured rate is not negative. */
    ghost predicate Sane() {
      rate >= 0 && cap >= 1
    }

    function Forever(): Config {
      this.(ttl := None)
    }

    /** The key never expires, or not before a week has refilled a whole burst. */
    ghost predicate Steady() {
      Sane() && (ttl == None || (ttl == Some(TTL_MS) && rate * TTL_SECS >= cap))
    }
  }

  // ---------------------------------------------------------------- one call

  /** What the script finds when it reads the key at `now`. */
  function Live(b: Option<Bucket>, now: int, c: Config): Option<Bucket> {
    if b.Some? && c.ttl.Some? && b.value.ts + c.ttl.value <= now then None else b
  }

  /** The tokens available to a call at `now`, after the refill and before the admission test. */
  function Refill(b: Option<Bucket>, now: int, c: Config): int {
    var live := Live(b, now, c);
    var tokens := if live.Some? then live.value.tokens else c.cap * UNIT;
    var last := if live.Some? then live.value.ts else now;
    Min(c.cap * UNIT, tokens + Max(0, now - last) * c.rate)
  }

  function Call(b: Option<Bucket>, now: int, c: Config): (bool, Bucket) {
    var tokens := Refill(b, now, c);
    if tokens >= UNIT then (true, Bucket(tokens - UNIT, now)) else (false, Bucket(tokens, now))
  }

  /** The Redis key, updated in place by the script. */
  class LimiterKey {
    var tokens: Option<int>
    var tsMs: Option<int>
    var expiresAtMs: int

    ghost predicate Valid()
      reads this
    {
      && (tokens.Some? <==> tsMs.Some?)
      && (tsMs.Some? ==> expiresAtMs == tsMs.value + TTL_MS)
    }

    ghost function Stored(): Option<Bucket>
      reads this
      requires Valid()
    {
      if tokens.Some? then Some(Bucket(tokens.value, tsMs.value)) else None
    }

    constructor ()
      ensures Valid() && Stored() == None
    {
      tokens, tsMs, expiresAtMs := None, None, 0;
    }

    method TokenBucketAllow(nowMs: int, rate: int, cap: int) returns (allowed: bool)
      requires Valid()
      modifies this
      ensures Valid()
      ensures var (admit, bucket) := Call(old(Stored()), nowMs, Config(rate, cap, Some(TTL_MS)));
              allowed == admit && Stored() == Some(bucket)
      ensures expiresAtMs == nowMs + 7 * 24 * 60 * 60 * 1000
    {
      if tsMs.Some? && expiresAtMs <= nowMs {
        tokens, tsMs := None, None; // Redis drops the key
      }
      var available := if tokens == None then cap * UNIT else tokens.value;
      var lastMs := if tsMs == None then nowMs else tsMs.value;
      var delta := Max(0, nowMs - lastMs);
      available := Min(cap * UNIT, available + delta * rate);
      allowed := false;
      if available >= UNIT {
        allowed := true;
        available := available - UNIT;
      }
      tokens, tsMs := Some(available), Some(nowMs);
      expiresAtMs := nowMs + TTL_MS;
    }
  }

  // ------------------------------------------------------------- whole runs

  /** The stored bucket after calls at `times`, starting with no key. */
  function After(times: seq<int>, c: Config): Option<Bucket> {
    if times == [] then None
    else
      var n := |times| - 1;
      Some(Call(After(times[..n], c), times[n], c).1)
  }

  function Tokens(times: seq<int>, i: nat, c: Config): int
    requires i < |times|
  {
    Refill(After(times[..i], c), times[i], c)
  }

  predicate Admit(times: seq<int>, i: nat, c: Config)
    requires i < |times|
  {
    Call(After(times[..i], c), times[i], c).0
  }

  function Decisions(times: seq<int>, c: Config): (d: seq<bool>)
    ensures |d| == |times|
    ensures forall i | 0 <= i < |times| :: d[i] == Admit(times, i, c)
  {
    seq(|times|, i requires 0 <= i < |times| => Admit(times, i, c))
  }

  /** How many of `d[j..i)` are admissions. */
  function Count(d: seq<bool>, j: nat, i: nat): nat
    requires j <= i <= |d|
  {
    if i == j then 0 else Count(d, j, i - 1) + if d[i - 1] then 1 else 0
  }

  lemma {:induction false} CountSplit(d: seq<bool>, j: nat, k: nat, i: nat)
    requires j <= k <= i <= |d|
    ensures Count(d, j, i) == Count(d, j, k) + Count(d, k, i)
  {
    if i > k {
      CountSplit(d, j, k, i - 1);
    }
  }

  lemma AfterPrefix(times: seq<int>, i: nat, c: Config)
    requires i < |times|
    ensures After(times[..i + 1], c) == Some(Call(After(times[..i], c), times[i], c).1)
  {
    assert times[..i + 1][..i] == times[..i];
  }

  /** A key that has expired would have been full by then. */
  lemma ExpiredMeansFull(b: Bucket, now: int, c: Config)
    requires c.Sane() && 0 <= b.tokens && b.ts + TTL_MS <= now && c.rate * TTL_SECS >= c.cap
    ensures Refill(Some(b), now, c.Forever()) == c.cap * UNIT
  {
    assert (now - b.ts) * c.rate >= TTL_MS * c.rate;
    assert TTL_MS * c.rate == c.rate * TTL_SECS * UNIT >= c.cap * UNIT;
  }

  lemma SteadyRefill(times: seq<int>, now: int, c: Config)
    requires c.Steady()
    ensures Refill(After(times, c), now, c) == Refill(After(times, c), now, c.Forever())
  {
    LevelStaysInRange(times, c);
    var b := After(times, c);
    if c.ttl.Some? && b.Some? && b.value.ts + TTL_MS <= now {
      ExpiredMeansFull(b.value, now, c);
    }
  }

  lemma {:induction false} LevelStaysInRange(times: seq<int>, c: Config)
    requires c.Sane()
    ensures After(times, c).Some? ==> 0 <= After(times, c).value.tokens <= c.cap * UNIT
  {
    if times != [] {
      var n := |times| - 1;
      LevelStaysInRange(times[..n], c);
      var b := Live(After(times[..n], c), times[n], c);
      if b.Some? {
        assert Max(0, times[n] - b.value.ts) * c.rate >= 0;
      }
    }
  }

  /** What a clock step earns: its refill, or a whole burst when the key expires in it. */
  function Credit(step: int, c: Config): int {
    if c.ttl.Some? && step >= c.ttl.value then c.cap * UNIT else Max(0, step) * c.rate
  }

  /** The recurrence the stored fields implement, for any clock and any TTL. */
  lemma TokensRecurrence(times: seq<int>, i: nat, c: Config)
    requires i + 1 < |times| && c.Sane()
    ensures Tokens(times, i + 1, c)
         == Min(c.cap * UNIT,
                Tokens(times, i, c) - (if Admit(times, i, c) then UNIT else 0) + Credit(times[i + 1] - times[i], c))
    ensures Credit(times[i + 1] - times[i], c) >= 0
  {
    AfterPrefix(times, i, c);
    LevelStaysInRange(times[..i + 1], c);
    CreditIsEarned(times[i + 1] - times[i], c);
  }

  lemma CreditIsEarned(step: int, c: Config)
    requires c.Sane()
    ensures Credit(step, c) >= 0
  {
  }

  // -------------------------------------------- window bounds and optimality

  /** What the clock steps between calls `j` and `i` earn. */
  function Earned(times: seq<int>, j: nat, i: nat, c: Config): int
    requires j <= i < |times|
  {
    if i == j then 0 else Earned(times, j, i - 1, c) + Credit(times[i] - times[i - 1], c)
  }

  /** What the window of calls `j..i` still allows when call `i` arrives. */
  ghost function Allowance(times: seq<int>, d: seq<bool>, j: nat, i: nat, c: Config): int
    requires j <= i < |times| == |d|
  {
    c.cap * UNIT + Earned(times, j, i, c) - UNIT * Count(d, j, i)
  }

  lemma AllowanceStep(times: seq<int>, d: seq<bool>, j: nat, i: nat, c: Config)
    requires j <= i && i + 1 < |times| == |d|
    ensures Allowance(times, d, j, i + 1, c)
         == Allowance(times, d, j, i, c) - (if d[i] then UNIT else 0) + Credit(times[i + 1] - times[i], c)
  {
  }

  lemma AllowanceOfLast(times: seq<int>, d: seq<bool>, i: nat, c: Config)
    requires i < |times| == |d|
    ensures Allowance(times, d, i, i, c) == c.cap * UNIT
  {
  }

  lemma FirstCall(times: seq<int>, c: Config)
    requires times != []
    ensures Tokens(times, 0, c) == c.cap * UNIT
  {
    assert times[..0] == [];
  }

  /** For any clock and TTL, the bucket level is the least allowance over all windows ending at the call. */
  lemma {:induction false} MinPlusForm(times: seq<int>, i: nat, c: Config)
    requires i < |times| && c.Sane()
    ensures forall j | 0 <= j <= i :: Tokens(times, i, c) <= Allowance(times, Decisions(times, c), j, i, c)
    ensures exists j | 0 <= j <= i :: Tokens(times, i, c) == Allowance(times, Decisions(times, c), j, i, c)
  {
    hide Tokens, Allowance, Admit, Decisions, Credit;
    var d := Decisions(times, c);
    AllowanceOfLast(times, d, i, c);
    if i == 0 {
      FirstCall(times, c);
    } else {
      MinPlusForm(times, i - 1, c);
      TokensRecurrence(times, i - 1, c);
      forall j | 0 <= j <= i - 1
        ensures Tokens(times, i, c) <= Allowance(times, d, j, i, c)
      {
        AllowanceStep(times, d, j, i - 1, c);
      }
      var k :| 0 <= k <= i - 1 && Tokens(times, i - 1, c) == Allowance(times, d, k, i - 1, c);
      AllowanceStep(times, d, k, i - 1, c);
    }
  }

  /** `d` never lets a window `j..i` admit more than a burst plus what was earned in it. */
  ghost predicate WithinWindows(times: seq<int>, d: seq<bool>, c: Config)
    requires |times| == |d|
  {
    forall j, i | 0 <= j <= i < |times| && d[i] ::
      UNIT * Count(d, j, i + 1) <= c.cap * UNIT + Earned(times, j, i, c)
  }

  /** A call is admitted exactly when every window it closes would still be within its bound. */
  lemma AdmitExactly(times: seq<int>, i: nat, c: Config)
    requires i < |times| && c.Sane()
    ensures Admit(times, i, c) <==>
            forall j | 0 <= j <= i ::
              UNIT * (Count(Decisions(times, c), j, i) + 1) <= c.cap * UNIT + Earned(times, j, i, c)
  {
    hide Admit, Tokens, Decisions;
    MinPlusForm(times, i, c);
    AdmitMeansLevel(times, i, c);
    if Admit(times, i, c) {
      forall j | 0 <= j <= i
        ensures UNIT * (Count(Decisions(times, c), j, i) + 1) <= c.cap * UNIT + Earned(times, j, i, c)
      {
        assert Tokens(times, i, c) <= Allowance(times, Decisions(times, c), j, i, c);
      }
    } else {
      var k :| 0 <= k <= i && Tokens(times, i, c) == Allowance(times, Decisions(times, c), k, i, c);
      assert UNIT * (Count(Decisions(times, c), k, i) + 1) > c.cap * UNIT + Earned(times, k, i, c);
    }
  }

  lemma AdmitMeansLevel(times: seq<int>, i: nat, c: Config)
    requires i < |times|
    ensures Admit(times, i, c) <==> Tokens(times, i, c) >= UNIT
  {
  }

  lemma RunWithinWindows(times: seq<int>, c: Config)
    requires c.Sane()
    ensures WithinWindows(times, Decisions(times, c), c)
  {
    var d := Decisions(times, c);
    forall j, i | 0 <= j <= i < |times| && d[i]
      ensures UNIT * Count(d, j, i + 1) <= c.cap * UNIT + Earned(times, j, i, c)
    {
      AdmitExactly(times, i, c);
    }
  }

  /** A refused call would have exceeded some window. */
  lemma RefusedWindow(times: seq<int>, i: nat, c: Config) returns (j: nat)
    requires i < |times| && c.Sane() && !Decisions(times, c)[i]
    ensures j <= i && UNIT * (Count(Decisions(times, c), j, i) + 1) > c.cap * UNIT + Earned(times, j, i, c)
  {
    AdmitExactly(times, i, c);
    assert !Admit(times, i, c);
    hide Admit, Decisions;
    j :| 0 <= j <= i && UNIT * (Count(Decisions(times, c), j, i) + 1) > c.cap * UNIT + Earned(times, j, i, c);
  }

  /** Where the limiter refuses a call that another schedule admits, it was at least one ahead. */
  lemma GreedyStep(times: seq<int>, other: seq<bool>, i: nat, c: Config)
    requires i < |times| == |other| && c.Sane() && WithinWindows(times, other, c)
    requires other[i] && !Decisions(times, c)[i]
    requires forall n | 0 <= n <= i :: Count(other, 0, n) <= Count(Decisions(times, c), 0, n)
    ensures Count(other, 0, i + 1) <= Count(Decisions(times, c), 0, i)
  {
    hide Decisions, Earned;
    var d := Decisions(times, c);
    var j := RefusedWindow(times, i, c);
    assert UNIT * Count(other, j, i + 1) <= c.cap * UNIT + Earned(times, j, i, c);
    hide Count, WithinWindows;
    CountSplit(d, 0, j, i);
    CountSplit(other, 0, j, i + 1);
    assert Count(other, 0, j) <= Count(d, 0, j);
  }

  /** No schedule that respects the windows has admitted more after any number of calls. */
  lemma {:induction false} GreedyIsOptimal(times: seq<int>, other: seq<bool>, k: nat, c: Config)
    requires k <= |times| == |other| && c.Sane() && WithinWindows(times, other, c)
    ensures forall n | 0 <= n <= k :: Count(other, 0, n) <= Count(Decisions(times, c), 0, n)
  {
    hide Decisions, WithinWindows;
    if k > 0 {
      GreedyIsOptimal(times, other, k - 1, c);
      if other[k - 1] && !Decisions(times, c)[k - 1] {
        GreedyStep(times, other, k - 1, c);
      }
    }
  }

  lemma Product(rate: int, x: int, y: int)
    requires rate >= 0 && x <= y
    ensures rate * x <= rate * y
  {
  }

  lemma Distribute(rate: int, x: int, y: int)
    ensures rate * (x + y) == rate * x + y * rate
  {
  }

  /** Any stretch of calls, whatever the clock and the TTL, admits a burst plus what was earned in it. */
  lemma AnyClockBound(times: seq<int>, j: nat, i: nat, c: Config)
    requires j <= i < |times| && c.Sane()
    ensures UNIT * Count(Decisions(times, c), j, i + 1) <= c.cap * UNIT + Earned(times, j, i, c)
    decreases i
  {
    hide Decisions, Credit;
    RunWithinWindows(times, c);
    if !Decisions(times, c)[i] && i > j {
      AnyClockBound(times, j, i - 1, c);
      CreditIsEarned(times[i] - times[i - 1], c);
    }
  }

  // ---------------------------------------- windows by the rate, for clocks in order

  /** The familiar bound: a window of calls `j..i` admits a burst plus rate times its duration. */
  ghost predicate WithinRate(times: seq<int>, d: seq<bool>, c: Config)
    requires |times| == |d|
  {
    forall j, i | 0 <= j <= i < |times| && d[i] ::
      UNIT * Count(d, j, i + 1) <= c.cap * UNIT + c.rate * (times[i] - times[j])
  }

  lemma {:induction false} EarnedByTheClock(times: seq<int>, j: nat, i: nat, c: Config)
    requires j <= i < |times| && NonDecreasing(times) && c.ttl == None
    ensures Earned(times, j, i, c) == c.rate * (times[i] - times[j])
  {
    if j < i {
      EarnedByTheClock(times, j, i - 1, c);
      Distribute(c.rate, times[i - 1] - times[j], times[i] - times[i - 1]);
      hide Earned;
    }
  }

  lemma SameWindows(times: seq<int>, d: seq<bool>, c: Config)
    requires |times| == |d| && NonDecreasing(times)
    ensures WithinRate(times, d, c) <==> WithinWindows(times, d, c.Forever())
  {
    forall j, i | 0 <= j <= i < |times|
      ensures Earned(times, j, i, c.Forever()) == c.rate * (times[i] - times[j])
    {
      EarnedByTheClock(times, j, i, c.Forever());
    }
    hide Earned, Count;
  }

  /** What a window by the rate still allows when call `i` arrives. */
  ghost function RateAllowance(times: seq<int>, d: seq<bool>, j: nat, i: nat, c: Config): int
    requires j <= i < |times| == |d|
  {
    c.cap * UNIT + c.rate * (times[i] - times[j]) - UNIT * Count(d, j, i)
  }

  /**
   * With a clock that never steps back, and a key that never expires or that a week refills, the
   * level is the minimum over all windows of burst + rate * duration - admitted.
   */
  lemma MinPlusByTheClock(times: seq<int>, i: nat, c: Config)
    requires i < |times| && NonDecreasing(times) && c.Steady()
    ensures forall j | 0 <= j <= i :: Tokens(times, i, c) <= RateAllowance(times, Decisions(times, c), j, i, c)
    ensures exists j | 0 <= j <= i :: Tokens(times, i, c) == RateAllowance(times, Decisions(times, c), j, i, c)
  {
    hide Decisions, Tokens, Allowance, RateAllowance;
    SteadyForever(times, i, c);
    MinPlusForm(times, i, c.Forever());
    forall j | 0 <= j <= i
      ensures Allowance(times, Decisions(times, c), j, i, c.Forever())
           == RateAllowance(times, Decisions(times, c), j, i, c)
    {
      SameAllowance(times, Decisions(times, c), j, i, c);
    }
  }

  lemma SteadyForever(times: seq<int>, i: nat, c: Config)
    requires i < |times| && c.Steady()
    ensures Tokens(times, i, c) == Tokens(times, i, c.Forever())
    ensures Decisions(times, c) == Decisions(times, c.Forever())
  {
    hide Decisions, Refill, After;
    if c.ttl.Some? {
      ExpiryUnobservable(times, c);
      ExpiryUnobservable(times[..i], c);
    } else {
      assert c == c.Forever();
    }
    SteadyRefill(times[..i], times[i], c);
  }

  lemma SameAllowance(times: seq<int>, d: seq<bool>, j: nat, i: nat, c: Config)
    requires j <= i < |times| == |d| && NonDecreasing(times)
    ensures Allowance(times, d, j, i, c.Forever()) == RateAllowance(times, d, j, i, c)
  {
    hide Count, Earned;
    EarnedByTheClock(times, j, i, c.Forever());
  }

  // ------------------------------------------------------ clocks in any order

  /** The part of a clock step that can earn tokens: a step forward, up to the key's TTL. */
  function Forward(step: int, ttl: Option<nat>): nat {
    if ttl.Some? then Min(ttl.value, Max(0, step)) else Max(0, step)
  }

  /** How far the clock climbs between calls `j` and `i`, each step counted up to the TTL. */
  function ForwardSteps(times: seq<int>, j: nat, i: nat, ttl: Option<nat>): nat
    requires j <= i < |times|
  {
    if i == j then 0 else ForwardSteps(times, j, i - 1, ttl) + Forward(times[i] - times[i - 1], ttl)
  }

  lemma CreditOfForward(step: int, c: Config)
    requires c.Steady()
    ensures Credit(step, c) <= c.rate * Forward(step, c.ttl)
  {
    if c.ttl.Some? && step >= TTL_MS {
      assert c.rate * TTL_MS == c.rate * TTL_SECS * UNIT;
    }
  }

  lemma {:induction false} EarnedByClimbing(times: seq<int>, j: nat, i: nat, c: Config)
    requires j <= i < |times| && c.Steady()
    ensures Earned(times, j, i, c) <= c.rate * ForwardSteps(times, j, i, c.ttl)
  {
    if j < i {
      hide Credit, Forward;
      EarnedByClimbing(times, j, i - 1, c);
      var step := times[i] - times[i - 1];
      CreditOfForward(step, c);
      Distribute(c.rate, ForwardSteps(times, j, i - 1, c.ttl), Forward(step, c.ttl));
    }
  }

  function High(times: seq<int>, j: nat, i: nat): int
    requires j <= i < |times|
  {
    if i == j then times[j] else Max(High(times, j, i - 1), times[i])
  }

  function Low(times: seq<int>, j: nat, i: nat): int
    requires j <= i < |times|
  {
    if i == j then times[j] else Min(Low(times, j, i - 1), times[i])
  }

  /** How far apart the timestamps of calls `j` to `i` lie. */
  function Spread(times: seq<int>, j: nat, i: nat): int
    requires j <= i < |times|
  {
    High(times, j, i) - Low(times, j, i)
  }

  /** No stretch of calls admits more than a burst plus what the rate earns over its timestamps. */
  ghost predicate WithinSpread(times: seq<int>, c: Config) {
    forall j, i | 0 <= j <= i < |times| ::
      UNIT * Count(Decisions(times, c), j, i + 1) <= c.cap * UNIT + c.rate * Spread(times, j, i)
  }

  /** `n` calls at one instant. */
  function Together(n: nat, t: int): seq<int> {
    seq(n, _ => t)
  }

  /** `n` calls at each reading of a clock. */
  function Bursts(clock: seq<int>, n: nat): seq<int> {
    if clock == [] then []
    else
      var m := |clock| - 1;
      Bursts(clock[..m], n) + Together(n, clock[m])
  }

  lemma {:induction false} BurstsAt(clock: seq<int>, n: nat, m: nat, p: nat)
    requires m < |clock| && InBurst(n, m, p)
    ensures p < |Bursts(clock, n)| && Bursts(clock, n)[p] == clock[m]
  {
    var last := |clock| - 1;
    BurstsLength(clock, n);
    BurstsLength(clock[..last], n);
    if m < last {
      BurstsAt(clock[..last], n, m, p);
    }
  }

  lemma OneMoreBurst(m: nat, n: nat)
    requires m >= 1
    ensures m * n == (m - 1) * n + n >= n
  {
  }

  lemma {:induction false} BurstsLength(clock: seq<int>, n: nat)
    ensures |Bursts(clock, n)| == |clock| * n
  {
    if clock != [] {
      BurstsLength(clock[..|clock| - 1], n);
      OneMoreBurst(|clock|, n);
    }
  }

  /** Call `p` of a run of bursts belongs to burst `x`. */
  ghost predicate InBurst(n: nat, x: nat, p: nat) {
    x * n <= p < x * n + n
  }

  /** Calls `p` and `q` of the bursts at readings `x` and `y` see what those readings say. */
  lemma {:induction false} BurstsWindow(
    clock: seq<int>, n: nat, x: nat, y: nat, p: nat, q: nat, ttl: Option<nat>)
    requires x < |clock| && y < |clock| && p <= q && InBurst(n, x, p) && InBurst(n, y, q)
    ensures x <= y && q < |Bursts(clock, n)|
    ensures var run := Bursts(clock, n);
            && ForwardSteps(run, p, q, ttl) == ForwardSteps(clock, x, y, ttl)
            && High(run, p, q) == High(clock, x, y) && Low(run, p, q) == Low(clock, x, y)
    decreases q
  {
    hide Bursts, InBurst;
    BurstsAt(clock, n, y, q);
    BurstsInOrder(n, x, y, p, q);
    if p == q {
      BurstsInOrder(n, y, x, p, p);
    } else {
      var z := BurstBefore(n, x, y, p, q);
      BurstsAt(clock, n, z, q - 1);
      BurstsWindow(clock, n, x, z, p, q - 1, ttl);
      ReadingWithin(clock, x, z);
    }
  }

  lemma BurstsInOrder(n: nat, x: nat, y: nat, p: nat, q: nat)
    requires InBurst(n, x, p) && InBurst(n, y, q) && p <= q
    ensures x <= y
  {
    assert y + 1 <= x ==> (y + 1) * n <= x * n;
  }

  lemma BurstBefore(n: nat, x: nat, y: nat, p: nat, q: nat) returns (z: nat)
    requires InBurst(n, x, p) && InBurst(n, y, q) && p < q
    ensures InBurst(n, z, q - 1) && x <= z && (z == y || z + 1 == y)
  {
    BurstsInOrder(n, x, y, p, q);
    z := if y * n <= q - 1 then y else y - 1;
    assert z < y ==> y * n == z * n + n;
    BurstsInOrder(n, x, z, p, q - 1);
  }

  lemma ReadingWithin(times: seq<int>, j: nat, i: nat)
    requires j <= i < |times|
    ensures Low(times, j, i) <= times[i] <= High(times, j, i)
  {
  }

  lemma {:induction false} SliceWindow(clock: seq<int>, j: nat, i: nat, x: nat, y: nat, ttl: Option<nat>)
    requires x <= y < i - j && i <= |clock|
    ensures var part := clock[j..i];
            && ForwardSteps(part, x, y, ttl) == ForwardSteps(clock, j + x, j + y, ttl)
            && Spread(part, x, y) == Spread(clock, j + x, j + y)
            && High(part, x, y) == High(clock, j + x, j + y)
    decreases y
  {
    if x < y {
      SliceWindow(clock, j, i, x, y - 1, ttl);
    }
  }

  lemma BurstOf(n: nat, bursts: nat, p: nat) returns (x: nat)
    requires p < bursts * n
    ensures x < bursts && InBurst(n, x, p)
  {
    x := p / n;
    assert x * n == p - p % n;
    assert bursts <= x ==> bursts * n <= x * n;
  }

  lemma BurstsWithinSpread(clock: seq<int>, j: nat, i: nat, n: nat, c: Config)
    requires j <= i <= |clock| && c.Steady()
    requires forall x, y | 0 <= x <= y < |clock| :: ForwardSteps(clock, x, y, c.ttl) <= Spread(clock, x, y)
    ensures WithinSpread(Bursts(clock[j..i], n), c)
  {
    var part := clock[j..i];
    var run := Bursts(part, n);
    BurstsLength(part, n);
    forall p, q | 0 <= p <= q < |run|
      ensures UNIT * Count(Decisions(run, c), p, q + 1) <= c.cap * UNIT + c.rate * Spread(run, p, q)
    {
      hide Bursts, Decisions, Count, ForwardSteps, High, Low, Earned;
      var x := BurstOf(n, |part|, p);
      var y := BurstOf(n, |part|, q);
      BurstsWindow(part, n, x, y, p, q, c.ttl);
      SliceWindow(clock, j, i, x, y, c.ttl);
      AnyClockBound(run, p, q, c);
      EarnedByClimbing(run, p, q, c);
      Product(c.rate, ForwardSteps(run, p, q, c.ttl), Spread(run, p, q));
    }
  }

  lemma CallAtOnce(b: Option<Bucket>, m: nat, t: int, c: Config)
    requires Refill(b, t, c) == m * UNIT && (c.ttl.Some? ==> c.ttl.value > 0)
    ensures Call(b, t, c).0 <==> m > 0
    ensures Call(b, t, c).1 == Bucket(Max(0, m - 1) * UNIT, t)
    ensures Refill(Some(Call(b, t, c).1), t, c) == Max(0, m - 1) * UNIT
  {
  }

  /** Calls at one instant are admitted until the tokens at hand are spent. */
  lemma {:induction false} Drain(times: seq<int>, n: nat, m: nat, t: int, c: Config)
    requires Refill(After(times, c), t, c) == m * UNIT && (c.ttl.Some? ==> c.ttl.value > 0)
    ensures var run := times + Together(n, t);
            && Refill(After(run, c), t, c) == Max(0, m - n) * UNIT
            && (n > 0 ==> After(run, c) == Some(Bucket(Max(0, m - n) * UNIT, t)))
            && Count(Decisions(run, c), |times|, |run|) == Min(n, m)
  {
    hide Refill, Call, Admit, Decisions, After;
    var run := times + Together(n, t);
    if n == 0 {
      assert run == times;
    } else {
      Drain(times, n - 1, m, t, c);
      var shorter := times + Together(n - 1, t);
      assert run == shorter + [t];
      CallAtOnce(After(shorter, c), Max(0, m - (n - 1)), t, c);
      DecisionsAppend(shorter, t, c);
      var d := Decisions(run, c);
      assert d[..|shorter|] == Decisions(shorter, c);
      CountPrefix(d, |shorter|, |times|, |shorter|);
    }
  }

  lemma {:induction false} StepAtMostTotal(clock: seq<int>, k: nat, m: nat, ttl: Option<nat>)
    requires 0 < k <= m < |clock|
    ensures Forward(clock[k] - clock[k - 1], ttl) <= ForwardSteps(clock, 0, m, ttl)
    decreases m
  {
    if k < m {
      StepAtMostTotal(clock, k, m - 1, ttl);
    }
  }

  /** An emptied bucket at a token a millisecond holds what the clock climbed since. */
  lemma EmptyBucketClimbs(b: Bucket, t: int, c: Config)
    requires c.rate == UNIT && c.Steady() && b.tokens == 0 && Forward(t - b.ts, c.ttl) <= c.cap
    ensures Refill(Some(b), t, c.Forever()) == Forward(t - b.ts, c.ttl) * UNIT
  {
    var step := t - b.ts;
    if c.ttl.Some? && step > TTL_MS {
      assert c.cap == TTL_MS;
      assert step * UNIT >= c.cap * UNIT;
    }
  }

  /** At a token a millisecond, full bursts at each reading spend the burst and every forward step. */
  lemma {:induction false} BurstsSpend(clock: seq<int>, k: nat, c: Config)
    requires k < |clock| && c.rate == UNIT && c.Steady()
    requires forall x | 0 < x < |clock| :: Forward(clock[x] - clock[x - 1], c.ttl) <= c.cap
    ensures var run := Bursts(clock[..k + 1], c.cap);
            && After(run, c) == Some(Bucket(0, clock[k]))
            && Count(Decisions(run, c), 0, |run|) == c.cap + ForwardSteps(clock, 0, k, c.ttl)
  {
    hide Call, Admit, Decisions, After, Bursts, Forward;
    var before := Bursts(clock[..k], c.cap);
    assert Bursts(clock[..k + 1], c.cap) == before + Together(c.cap, clock[k]) by {
      BurstsCons(clock, k, c.cap);
    }
    var run := before + Together(c.cap, clock[k]);
    var m := c.cap;
    if k == 0 {
      NoKeyYet(c, clock[0]);
      assert clock[..0] == [] && before == [] by {
        BurstsCons(clock, 0, c.cap);
      }
    } else {
      BurstsSpend(clock, k - 1, c);
      m := Forward(clock[k] - clock[k - 1], c.ttl);
      SteadyRefill(before, clock[k], c);
      EmptyBucketClimbs(Bucket(0, clock[k - 1]), clock[k], c);
    }
    hide Refill;
    Drain(before, c.cap, m, clock[k], c);
    DecisionsPrefix(run, |before|, c);
    assert run[..|before|] == before;
    CountPrefix(Decisions(run, c), |before|, 0, |before|);
    CountSplit(Decisions(run, c), 0, |before|, |run|);
  }

  lemma BurstsCons(clock: seq<int>, k: nat, n: nat)
    requires k < |clock|
    ensures Bursts([], n) == []
    ensures Bursts(clock[..k + 1], n) == Bursts(clock[..k], n) + Together(n, clock[k])
  {
    assert clock[..k + 1][..k] == clock[..k];
  }

  /** A clock that climbs further than it spreads lets bursts at its readings exceed the bound. */
  lemma BurstsExceedSpread(clock: seq<int>, c: Config)
    requires clock != [] && c.rate == UNIT && c.Steady()
    requires ForwardSteps(clock, 0, |clock| - 1, c.ttl) > Spread(clock, 0, |clock| - 1)
    requires forall x | 0 < x < |clock| :: Forward(clock[x] - clock[x - 1], c.ttl) <= c.cap
    ensures !WithinSpread(Bursts(clock, c.cap), c)
  {
    hide Bursts, Decisions, Count, ForwardSteps, High, Low;
    var m, n := |clock| - 1, c.cap;
    BurstsSpend(clock, m, c);
    assert clock[..m + 1] == clock;
    var run := Bursts(clock, n);
    BurstsLength(clock, n);
    OneMoreBurst(|clock|, n);
    BurstsWindow(clock, n, 0, m, 0, |run| - 1, c.ttl);
    assert UNIT * Count(Decisions(run, c), 0, |run|) > c.cap * UNIT + c.rate * Spread(run, 0, |run| - 1);
  }

  /** A burst that no forward step of the clock refills more than once. */
  lemma WideBurst(clock: seq<int>, ttl: Option<nat>) returns (c: Config)
    requires clock != [] && ttl in {None, Some(TTL_MS)}
    ensures c.rate == UNIT && c.Steady() && c.ttl == ttl
    ensures forall x | 0 < x < |clock| :: Forward(clock[x] - clock[x - 1], ttl) <= c.cap
  {
    var m := |clock| - 1;
    c := Config(UNIT, if ttl.Some? then TTL_MS else Max(1, ForwardSteps(clock, 0, m, ttl)), ttl);
    forall x | 0 < x < |clock| && ttl == None
      ensures Forward(clock[x] - clock[x - 1], ttl) <= c.cap
    {
      StepAtMostTotal(clock, x, m, ttl);
    }
  }

  /**
   * Bursts of calls along a clock keep every stretch of calls within its spread, for all rates and
   * all bursts that the key's life refills, exactly when no stretch of the clock climbs further than
   * it spreads, a step forward counting up to the TTL: after a step back the time between is credited
   * a second time.
   */
  lemma SpreadBoundExactly(clock: seq<int>, ttl: Option<nat>)
    requires ttl in {None, Some(TTL_MS)}
    ensures (forall j, i | 0 <= j <= i < |clock| :: ForwardSteps(clock, j, i, ttl) <= Spread(clock, j, i))
       <==> forall j, i, n, c: Config | 0 <= j <= i <= |clock| && c.Steady() && c.ttl == ttl ::
              WithinSpread(Bursts(clock[j..i], n), c)
  {
    hide Bursts, WithinSpread, ForwardSteps, Spread, High, Low, Forward;
    if j, i :| 0 <= j <= i < |clock| && ForwardSteps(clock, j, i, ttl) > Spread(clock, j, i) {
      var part := clock[j..i + 1];
      SliceWindow(clock, j, i + 1, 0, i - j, ttl);
      var c := WideBurst(part, ttl);
      BurstsExceedSpread(part, c);
    } else {
      forall j, i, n, c: Config | 0 <= j <= i <= |clock| && c.Steady() && c.ttl == ttl
        ensures WithinSpread(Bursts(clock[j..i], n), c)
      {
        BurstsWithinSpread(clock, j, i, n, c);
      }
    }
  }

  /** A clock that never steps back climbs its spread, so the bound holds for it. */
  lemma {:induction false} MonotoneSpread(clock: seq<int>, j: nat, i: nat, ttl: Option<nat>)
    requires j <= i < |clock| && NonDecreasing(clock)
    ensures ForwardSteps(clock, j, i, ttl) <= Spread(clock, j, i) == clock[i] - clock[j]
    ensures ttl == None ==> ForwardSteps(clock, j, i, ttl) == Spread(clock, j, i)
    ensures Low(clock, j, i) == clock[j]
  {
    if j < i {
      MonotoneSpread(clock, j, i - 1, ttl);
    }
  }

  lemma FourCalls(c: Config)
    requires c == Config(UNIT, 1, Some(TTL_MS))
    ensures Decisions([0, 1, 0, 1], c) == [true, true, false, true]
  {
    assert [0] == [] + [0] && [0, 1] == [0] + [1] && [0, 1, 0] == [0, 1] + [0] && [0, 1, 0, 1] == [0, 1, 0] + [1];
    NoKeyYet(c, 0);
    DecisionsAppend([], 0, c);
    DecisionsAppend([0], 1, c);
    DecisionsAppend([0, 1], 0, c);
    DecisionsAppend([0, 1, 0], 1, c);
    hide Decisions, Admit, After;
  }

  /** One token a millisecond and a burst of one: the second climb from 0 to 1 earns a token again. */
  lemma TimeCreditedTwice(c: Config)
    requires c == Config(1000, 1, Some(604_800_000))
    ensures Decisions([0, 1, 0, 1], c) == [true, true, false, true]
    ensures Spread([0, 1, 0, 1], 0, 3) == 1 && !WithinSpread([0, 1, 0, 1], c)
  {
    FourCalls(c);
    hide Decisions;
    assert Count([true, true, false, true], 0, 4) == 3;
  }

  // --------------------------------------------- refused calls leave no trace

  /** The elements of `s` that `keep` marks. */
  function Kept<T>(s: seq<T>, keep: seq<bool>): seq<T>
    requires |s| == |keep|
  {
    if s == [] then []
    else
      var n := |s| - 1;
      Kept(s[..n], keep[..n]) + if keep[n] then [s[n]] else []
  }

  lemma DecisionsPrefix(times: seq<int>, n: nat, c: Config)
    requires n <= |times|
    ensures Decisions(times[..n], c) == Decisions(times, c)[..n]
  {
    forall i | 0 <= i < n
      ensures Admit(times[..n], i, c) == Admit(times, i, c)
    {
      assert times[..n][..i] == times[..i];
    }
  }

  lemma DecisionsAppend(times: seq<int>, t: int, c: Config)
    ensures Decisions(times + [t], c) == Decisions(times, c) + [Call(After(times, c), t, c).0]
    ensures After(times + [t], c) == Some(Call(After(times, c), t, c).1)
  {
    var all := times + [t];
    assert all[..|times|] == times;
    DecisionsPrefix(all, |times|, c);
  }

  /** Two stored buckets no call from `t` on can tell apart. */
  ghost predicate SameFrom(a: Option<Bucket>, b: Option<Bucket>, t: int, c: Config) {
    forall u | u >= t :: Refill(a, u, c) == Refill(b, u, c)
  }

  /** A refusal only moves the timestamp along the refill line. */
  lemma RefusalIsInvisible(b: Option<Bucket>, t: int, c: Config)
    requires c.Sane() && c.ttl == None && (b.Some? ==> b.value.ts <= t) && !Call(b, t, c).0
    ensures SameFrom(Some(Call(b, t, c).1), b, t, c)
  {
    if b.Some? {
      var ts := b.value.ts;
      forall u | u >= t
        ensures Refill(Some(Call(b, t, c).1), u, c) == Refill(b, u, c)
      {
        assert (t - ts) * c.rate + (u - t) * c.rate == (u - ts) * c.rate;
      }
    }
  }

  lemma SameRefillSameCall(a: Option<Bucket>, b: Option<Bucket>, t: int, c: Config)
    requires Refill(a, t, c) == Refill(b, t, c)
    ensures Call(a, t, c) == Call(b, t, c)
  {
  }

  lemma LastTimestamp(times: seq<int>, c: Config)
    requires times != []
    ensures After(times, c).Some? && After(times, c).value.ts == times[|times| - 1]
  {
  }

  lemma KeptAppend<T>(s: seq<T>, x: T, keep: seq<bool>)
    requires |keep| == |s| + 1
    ensures Kept(s + [x], keep) == Kept(s, keep[..|s|]) + if keep[|s|] then [x] else []
  {
    assert (s + [x])[..|s|] == s;
  }

  /** One more call, made or deleted, after runs the next call cannot tell apart. */
  lemma TraceStep(full: seq<int>, kept: seq<int>, t: int, c: Config)
    requires c.Sane() && c.ttl == None
    requires full != [] ==> full[|full| - 1] <= t && SameFrom(After(kept, c), After(full, c), full[|full| - 1], c)
    requires full == [] ==> kept == []
    ensures Call(After(kept, c), t, c) == Call(After(full, c), t, c)
    ensures SameFrom(After(kept + [t], c), After(full + [t], c), t, c)
    ensures !Call(After(full, c), t, c).0 ==> SameFrom(After(kept, c), After(full + [t], c), t, c)
  {
    hide Refill, Call, Admit, Decisions, After;
    DecisionsAppend(full, t, c);
    DecisionsAppend(kept, t, c);
    NoKeyYet(c, t);
    if full != [] {
      LastTimestamp(full, c);
    }
    SameRefillSameCall(After(kept, c), After(full, c), t, c);
    if !Call(After(full, c), t, c).0 {
      RefusalIsInvisible(After(full, c), t, c);
    }
  }

  /** What deleting calls preserves: every other decision, and what a later call will find. */
  ghost predicate NoTrace(times: seq<int>, keep: seq<bool>, c: Config)
    requires |keep| == |times|
  {
    && Decisions(Kept(times, keep), c) == Kept(Decisions(times, c), keep)
    && (times != [] ==> SameFrom(After(Kept(times, keep), c), After(times, c), times[|times| - 1], c))
    && (times == [] ==> Kept(times, keep) == [])
  }

  lemma NoTraceStep(init: seq<int>, t: int, keep: seq<bool>, last: bool, c: Config)
    requires |keep| == |init| && c.Sane() && c.ttl == None
    requires init != [] ==> init[|init| - 1] <= t
    requires Decisions(init + [t], c)[|init|] ==> last
    requires NoTrace(init, keep, c)
    ensures NoTrace(init + [t], keep + [last], c)
  {
    hide Refill, Call, Admit, Decisions, After, SameFrom, Kept;
    var kept := Kept(init, keep);
    assert (keep + [last])[..|init|] == keep;
    DecisionsAppend(init, t, c);
    DecisionsAppend(kept, t, c);
    TraceStep(init, kept, t, c);
    KeptAppend(init, t, keep + [last]);
    KeptAppend(Decisions(init, c), Call(After(init, c), t, c).0, keep + [last]);
    assert kept + [] == kept && Decisions(kept, c) + [] == Decisions(kept, c);
  }

  /** `keep` marks every admitted call of the run, and any of the refused ones. */
  ghost predicate KeepsAdmitted(times: seq<int>, keep: seq<bool>, c: Config) {
    |keep| == |times| && forall i | 0 <= i < |times| && Decisions(times, c)[i] :: keep[i]
  }

  /** Without the deleted calls the others are answered as before. */
  ghost predicate SameAnswers(times: seq<int>, keep: seq<bool>, c: Config)
    requires |keep| == |times|
  {
    Decisions(Kept(times, keep), c) == Kept(Decisions(times, c), keep)
  }

  lemma KeepsPrefix(init: seq<int>, t: int, keep: seq<bool>, c: Config)
    requires KeepsAdmitted(init + [t], keep, c)
    ensures KeepsAdmitted(init, keep[..|init|], c) && keep == keep[..|init|] + [keep[|init|]]
    ensures Call(After(init, c), t, c).0 ==> keep[|init|]
  {
    DecisionsAppend(init, t, c);
    hide Call, Decisions, After;
  }

  /** While the key never expires, refused calls leave no trace. */
  lemma {:induction false} NoTraceWhileKept(times: seq<int>, keep: seq<bool>, c: Config)
    requires NonDecreasing(times) && c.Sane() && c.ttl == None && KeepsAdmitted(times, keep, c)
    ensures NoTrace(times, keep, c)
  {
    if times != [] {
      hide Decisions, NoTrace;
      var n := |times| - 1;
      assert times == times[..n] + [times[n]];
      KeepsPrefix(times[..n], times[n], keep, c);
      NoTraceWhileKept(times[..n], keep[..n], c);
      DecisionsAppend(times[..n], times[n], c);
      NoTraceStep(times[..n], times[n], keep[..n], keep[n], c);
    }
  }

  lemma FastEarnings(delta: int, rate: int)
    requires delta > 0 && rate >= UNIT
    ensures delta * rate >= UNIT
  {
  }

  /** At a token a millisecond, a call is refused only at the instant of the call before it. */
  lemma FastRefusal(b: Option<Bucket>, t: int, c: Config)
    requires c.Sane() && c.rate >= UNIT && !Call(b, t, c).0
    requires b.Some? ==> b.value.ts <= t && 0 <= b.value.tokens <= c.cap * UNIT
    ensures Some(Call(b, t, c).1) == b
  {
    if b.Some? && b.value.ts < t {
      FastEarnings(t - b.value.ts, c.rate);
    }
  }

  lemma {:induction false} FastNoTrace(times: seq<int>, keep: seq<bool>, c: Config)
    requires NonDecreasing(times) && c.Sane() && c.rate >= UNIT && KeepsAdmitted(times, keep, c)
    ensures SameAnswers(times, keep, c) && After(Kept(times, keep), c) == After(times, c)
  {
    if times != [] {
      hide Decisions, Call, After, Kept;
      var n := |times| - 1;
      var init, t := times[..n], times[n];
      assert times == init + [t];
      KeepsPrefix(init, t, keep, c);
      FastNoTrace(init, keep[..n], c);
      KeptAppend(init, t, keep);
      KeptAppend(Decisions(init, c), Call(After(init, c), t, c).0, keep);
      DecisionsAppend(init, t, c);
      DecisionsAppend(Kept(init, keep[..n]), t, c);
      if !keep[n] {
        LevelStaysInRange(init, c);
        if init != [] {
          LastTimestamp(init, c);
        }
        FastRefusal(After(init, c), t, c);
        assert Kept(init, keep[..n]) + [] == Kept(init, keep[..n]);
        assert Kept(Decisions(init, c), keep[..n]) + [] == Kept(Decisions(init, c), keep[..n]);
      }
    } else {
      assert keep == [];
    }
  }

  lemma NoKeyYet(c: Config, t: int)
    ensures After([], c) == None
    ensures c.Sane() ==> Call(None, t, c).0 && Refill(None, t, c) == c.cap * UNIT
  {
  }

  lemma ExpiredAfterTtl(b: Option<Bucket>, now: int, c: Config)
    requires c.ttl.Some? && (b.Some? ==> b.value.ts + c.ttl.value <= now)
    ensures Refill(b, now, c) == c.cap * UNIT
  {
  }

  // ------------------------------------------------------------ the 7-day TTL

  lemma {:induction false} ExpiryUnobservable(times: seq<int>, c: Config)
    requires c.Sane() && c.ttl == Some(TTL_MS) && c.rate * TTL_SECS >= c.cap
    ensures After(times, c) == After(times, c.Forever())
    ensures Decisions(times, c) == Decisions(times, c.Forever())
  {
    if times != [] {
      var n := |times| - 1;
      var init, t := times[..n], times[n];
      assert times == init + [t];
      ExpiryUnobservable(init, c);
      var b := After(init, c);
      LevelStaysInRange(init, c);
      if b.Some? && b.value.ts + TTL_MS <= t {
        ExpiredMeansFull(b.value, t, c);
      }
      assert Refill(b, t, c) == Refill(b, t, c.Forever());
      DecisionsAppend(init, t, c);
      DecisionsAppend(init, t, c.Forever());
    }
  }

  lemma {:induction false} CountPrefix(d: seq<bool>, n: nat, j: nat, i: nat)
    requires j <= i <= n <= |d|
    ensures Count(d[..n], j, i) == Count(d, j, i)
  {
    if i > j {
      CountPrefix(d, n, j, i - 1);
    }
  }

  /** Two full bursts a TTL apart. */
  function TwoBursts(c: Config): seq<int>
    requires c.cap >= 0
  {
    Together(c.cap, 0) + Together(c.cap, TTL_MS)
  }

  lemma TogetherFacts(c: Config)
    requires c.cap >= 1
    ensures var first := Together(c.cap, 0);
            && |first| == c.cap && |TwoBursts(c)| == 2 * c.cap && [] + first == first
            && first[c.cap - 1] == 0 && TwoBursts(c)[..c.cap] == first
  {
  }

  lemma BothBurstsAdmitted(c: Config)
    requires c.Sane() && c.ttl == Some(TTL_MS)
    ensures Count(Decisions(TwoBursts(c), c), 0, 2 * c.cap) == 2 * c.cap
  {
    var first, run := Together(c.cap, 0), TwoBursts(c);
    hide Count, Decisions, Call, Refill, Admit, After;
    hide Together;
    TogetherFacts(c);
    NoKeyYet(c, 0);
    Drain([], c.cap, c.cap, 0, c);
    LastTimestamp(first, c);
    ExpiredAfterTtl(After(first, c), TTL_MS, c);
    Drain(first, c.cap, c.cap, TTL_MS, c);
    DecisionsPrefix(run, c.cap, c);
    CountPrefix(Decisions(run, c), c.cap, 0, c.cap);
    CountSplit(Decisions(run, c), 0, c.cap, 2 * c.cap);
  }

  lemma OneBurstAndARefill(c: Config, times: seq<int>, d: seq<bool>)
    requires c.cap >= 1 && times == TwoBursts(c) && |d| == |times| && WithinRate(times, d, c)
    requires Count(d, 0, 2 * c.cap) == 2 * c.cap
    ensures c.rate * TTL_SECS >= c.cap
  {
    hide Count;
    var n := c.cap;
    LastIsAdmitted(d, 2 * n);
    assert times[0] == 0 && times[2 * n - 1] == TTL_MS;
    assert UNIT * Count(d, 0, 2 * n) <= c.cap * UNIT + c.rate * (times[2 * n - 1] - times[0]);
    assert c.rate * TTL_MS == c.rate * TTL_SECS * UNIT;
  }

  lemma {:induction false} CountAtMost(d: seq<bool>, n: nat)
    requires n <= |d|
    ensures Count(d, 0, n) <= n
  {
    if n > 0 {
      CountAtMost(d, n - 1);
    }
  }

  lemma LastIsAdmitted(d: seq<bool>, n: nat)
    requires 1 <= n <= |d| && Count(d, 0, n) == n
    ensures d[n - 1]
  {
    CountAtMost(d, n - 1);
  }

  /** The 7-day TTL never changes a decision exactly when a week refills a whole burst. */
  lemma ExpiryUnobservableExactly(c: Config)
    requires c.Sane() && c.ttl == Some(TTL_MS)
    ensures c.rate * TTL_SECS >= c.cap
       <==> forall times: seq<int> | NonDecreasing(times) :: Decisions(times, c) == Decisions(times, c.Forever())
  {
    hide Decisions, Count;
    if c.rate * TTL_SECS >= c.cap {
      forall times: seq<int> | NonDecreasing(times)
        ensures Decisions(times, c) == Decisions(times, c.Forever())
      {
        ExpiryUnobservable(times, c);
      }
    } else {
      var times := TwoBursts(c);
      assert NonDecreasing(times);
      BothBurstsAdmitted(c);
      if Decisions(times, c) == Decisions(times, c.Forever()) {
        RunWithinWindows(times, c.Forever());
        SameWindows(times, Decisions(times, c), c);
        OneBurstAndARefill(c, times, Decisions(times, c));
      }
    }
  }

  /** Clocks in order keep the deployed key within burst + rate * duration exactly when a week refills a burst. */
  lemma RateWindowsExactly(c: Config)
    requires c.Sane() && c.ttl == Some(604_800_000)
    ensures c.rate * 604_800 >= c.cap
       <==> forall times: seq<int> | NonDecreasing(times) :: WithinRate(times, Decisions(times, c), c)
  {
    hide Decisions, Count, WithinRate, WithinWindows;
    if c.rate * TTL_SECS >= c.cap {
      forall times: seq<int> | NonDecreasing(times)
        ensures WithinRate(times, Decisions(times, c), c)
      {
        ExpiryUnobservable(times, c);
        RunWithinWindows(times, c.Forever());
        SameWindows(times, Decisions(times, c), c);
      }
    } else {
      var times := TwoBursts(c);
      assert NonDecreasing(times);
      BothBurstsAdmitted(c);
      if WithinRate(times, Decisions(times, c), c) {
        OneBurstAndARefill(c, times, Decisions(times, c));
      }
    }
  }

  // --------------------------------- when refused calls of the deployed key show

  lemma {:induction false} KeptAll<T>(s: seq<T>, keep: seq<bool>)
    requires |s| == |keep| && forall i | 0 <= i < |keep| :: keep[i]
    ensures Kept(s, keep) == s
  {
    if s != [] {
      KeptAll(s[..|s| - 1], keep[..|s| - 1]);
    }
  }

  lemma {:induction false} KeptButOne<T>(s: seq<T>, k: nat, keep: seq<bool>)
    requires k < |s| == |keep| && forall i | 0 <= i < |keep| :: keep[i] <==> i != k
    ensures Kept(s, keep) == s[..k] + s[k + 1..]
  {
    var n := |s| - 1;
    if k == n {
      KeptAll(s[..n], keep[..n]);
    } else {
      KeptButOne(s[..n], k, keep[..n]);
    }
  }

  /** A burst at 0, one call too many at 1, and another burst just before the key expires. */
  function LateRefusal(c: Config): seq<int>
    requires c.cap >= 1
  {
    Together(c.cap, 0) + [1] + Together(c.cap, TTL_MS)
  }

  function AllBut(n: nat, k: nat): seq<bool> {
    seq(n, i => i != k)
  }

  lemma LateRefusalFacts(c: Config)
    requires c.Sane()
    ensures var n, first, times := c.cap, Together(c.cap, 0), LateRefusal(c);
            && |first| == n && |times| == 2 * n + 1 && NonDecreasing(times) && [] + first == first
            && times[..n] == first && times[..n + 1] == first + [1]
            && times == first + [1] + Together(n, TTL_MS)
            && times[..n] + times[n + 1..] == first + Together(n, TTL_MS)
  {
  }

  /** The last call of a burst at `t` is admitted exactly when the whole burst is there to spend. */
  lemma LastOfBurst(before: seq<int>, m: nat, t: int, c: Config)
    requires c.Sane() && Refill(After(before, c), t, c) == m * UNIT && (c.ttl.Some? ==> c.ttl.value > 0)
    ensures var run := before + Together(c.cap, t);
            |run| == |before| + c.cap && (Decisions(run, c)[|run| - 1] <==> m >= c.cap)
  {
    hide Refill, Call, Admit, Decisions, After;
    var shorter := before + Together(c.cap - 1, t);
    Drain(before, c.cap - 1, m, t, c);
    CallAtOnce(After(shorter, c), Max(0, m - (c.cap - 1)), t, c);
    DecisionsAppend(shorter, t, c);
    assert before + Together(c.cap, t) == shorter + [t];
  }

  /** An empty bucket a millisecond later, and what it has earned just before it expires. */
  lemma EmptyBucketLater(c: Config)
    requires c.Sane() && c.ttl == Some(TTL_MS) && c.rate * TTL_SECS < c.cap && c.rate < UNIT
    ensures Call(Some(Bucket(0, 0)), 1, c) == (false, Bucket(c.rate, 1))
    ensures Refill(Some(Bucket(0, 0)), TTL_MS, c) == c.cap * UNIT
    ensures Refill(Some(Bucket(c.rate, 1)), TTL_MS, c) == c.rate * TTL_SECS * UNIT
  {
    assert (TTL_MS - 1) * c.rate == c.rate * TTL_SECS * UNIT - c.rate;
  }

  /** The level at the second burst, with the refused call and without it. */
  lemma LateLevels(c: Config)
    requires c.Sane() && c.ttl == Some(TTL_MS) && c.rate * TTL_SECS < c.cap && c.rate < UNIT
    ensures var first := Together(c.cap, 0);
            && !Call(After(first, c), 1, c).0
            && Refill(After(first, c), TTL_MS, c) == c.cap * UNIT
            && Refill(After(first + [1], c), TTL_MS, c) == c.rate * TTL_SECS * UNIT
  {
    hide After, Decisions, Refill, Call, Together;
    var first := Together(c.cap, 0);
    LateRefusalFacts(c);
    NoKeyYet(c, 0);
    Drain([], c.cap, c.cap, 0, c);
    DecisionsAppend(first, 1, c);
    EmptyBucketLater(c);
  }

  /** The refused call, and the last call with it and without it. */
  lemma LateDecisions(c: Config)
    requires c.Sane() && c.ttl == Some(TTL_MS) && c.rate * TTL_SECS < c.cap && c.rate < UNIT
    ensures var n, d := c.cap, Decisions(LateRefusal(c), c);
            && |d| == 2 * n + 1 && !d[n] && !d[2 * n]
            && |Decisions(Together(n, 0) + Together(n, TTL_MS), c)| == 2 * n
            && Decisions(Together(n, 0) + Together(n, TTL_MS), c)[2 * n - 1]
  {
    hide Decisions, Call, Refill, After, Together, LateRefusal, NonDecreasing;
    var n, first, times := c.cap, Together(c.cap, 0), LateRefusal(c);
    LateRefusalFacts(c);
    LateLevels(c);
    LastOfBurst(first + [1], c.rate * TTL_SECS, TTL_MS, c);
    LastOfBurst(first, n, TTL_MS, c);
    DecisionsPrefix(times, n + 1, c);
    DecisionsAppend(first, 1, c);
    assert Decisions(times, c)[..n + 1][n] == Decisions(times, c)[n];
  }

  lemma AllButOne(n: nat, k: nat)
    ensures |AllBut(n, k)| == n && forall i | 0 <= i < n :: AllBut(n, k)[i] <==> i != k
  {
  }

  lemma LateKept(c: Config, keep: seq<bool>)
    requires c.Sane() && |keep| == 2 * c.cap + 1 && forall i | 0 <= i < |keep| :: keep[i] <==> i != c.cap
    ensures NonDecreasing(LateRefusal(c)) && |LateRefusal(c)| == |keep|
    ensures Kept(LateRefusal(c), keep) == Together(c.cap, 0) + Together(c.cap, TTL_MS)
  {
    hide Kept, LateRefusal, NonDecreasing;
    LateRefusalFacts(c);
    KeptButOne(LateRefusal(c), c.cap, keep);
  }

  /** Had the refused call not been made, the key would have expired and the last call been admitted. */
  lemma LateRefusalShows(c: Config)
    requires c.Sane() && c.ttl == Some(TTL_MS) && c.rate * TTL_SECS < c.cap && c.rate < UNIT
    ensures var times, keep := LateRefusal(c), AllBut(2 * c.cap + 1, c.cap);
            NonDecreasing(times) && KeepsAdmitted(times, keep, c) && !SameAnswers(times, keep, c)
  {
    hide Decisions, Kept, Together, LateRefusal, NonDecreasing, AllBut;
    var n, times, keep := c.cap, LateRefusal(c), AllBut(2 * c.cap + 1, c.cap);
    AllButOne(2 * n + 1, n);
    LateDecisions(c);
    LateKept(c, keep);
    LastDiffers(Decisions(times, c), Decisions(Together(n, 0) + Together(n, TTL_MS), c), n, keep);
  }

  lemma LastDiffers(d: seq<bool>, kept: seq<bool>, n: nat, keep: seq<bool>)
    requires |keep| == |d| && forall i | 0 <= i < |keep| :: keep[i] <==> i != n
    requires n >= 1 && |d| == 2 * n + 1 && |kept| == 2 * n && kept[2 * n - 1] && !d[2 * n]
    ensures kept != Kept(d, keep)
  {
    KeptButOne(d, n, keep);
    assert (d[..n] + d[n + 1..])[2 * n - 1] == d[2 * n];
  }

  /**
   * Refused calls of the deployed key can be deleted from any run without changing another answer
   * exactly when a week refills a burst, or the rate is a token a millisecond or more: otherwise a
   * refused call re-arms an expiry that would have filled the bucket.
   */
  lemma RefusedCallsLeaveNoTraceExactly(c: Config)
    requires c.Sane() && c.ttl == Some(604_800_000)
    ensures c.rate * 604_800 >= c.cap || c.rate >= 1000
       <==> forall times, keep | NonDecreasing(times) && KeepsAdmitted(times, keep, c) :: SameAnswers(times, keep, c)
  {
    hide Decisions, Kept;
    if c.rate * TTL_SECS >= c.cap {
      forall times, keep | NonDecreasing(times) && KeepsAdmitted(times, keep, c)
        ensures SameAnswers(times, keep, c)
      {
        ExpiryUnobservable(times, c);
        NoTraceWhileKept(times, keep, c.Forever());
        ExpiryUnobservable(Kept(times, keep), c);
      }
    } else if c.rate >= UNIT {
      forall times, keep | NonDecreasing(times) && KeepsAdmitted(times, keep, c)
        ensures SameAnswers(times, keep, c)
      {
        FastNoTrace(times, keep, c);
      }
    } else {
      LateRefusalShows(c);
    }
  }

  /** The limiter as deployed: within the rate's windows, and not beaten by any other schedule within them. */
  lemma DeployedLimiterIsOptimal(times: seq<int>, other: seq<bool>, n: nat, c: Config)
    requires NonDecreasing(times) && c.Sane() && c.ttl == Some(TTL_MS) && c.rate * TTL_SECS >= c.cap
    requires n <= |times| == |other| && WithinRate(times, other, c)
    ensures WithinRate(times, Decisions(times, c), c)
    ensures Count(other, 0, n) <= Count(Decisions(times, c), 0, n)
  {
    hide Decisions, Count, WithinRate, WithinWindows;
    ExpiryUnobservable(times, c);
    RunWithinWindows(times, c.Forever());
    SameWindows(times, Decisions(times, c), c);
    SameWindows(times, other, c);
    GreedyIsOptimal(times, other, n, c.Forever());
  }
}
