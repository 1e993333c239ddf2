/** UTC months on a millisecond clock that starts on 1 January 1970. */
module UtcCalendar {
  import opened Prelude

  const DAY_MS := 24 * 60 * 60 * 1000

  datatype YearMonth = YearMonth(year: int, month: int)

  predicate LeapYear(year: int) {
    year % 4 == 0 && (year % 100 != 0 || year % 400 == 0)
  }

  function DaysIn(ym: YearMonth): int {
    if ym.month == 2 then (if LeapYear(ym.year) then 29 else 28)
    else if ym.month in {4, 6, 9, 11} then 30
    else 31
  }

  /** The `k`-th month after January 1970. */
  function Nth(k: nat): YearMonth {
    YearMonth(1970 + k / 12, 1 + k % 12)
  }

  function IndexOf(ym: YearMonth): int {
    (ym.year - 1970) * 12 + ym.month - 1
  }

  function MonthStart(k: nat): nat {
    if k == 0 then 0 else MonthStart(k - 1) + DaysIn(Nth(k - 1)) * DAY_MS
  }

  lemma MonthLength(k: nat)
    ensures MonthStart(k) + 28 * DAY_MS <= MonthStart(k + 1)
  {
  }

  function MonthFrom(k: nat, now: int): (m: nat)
    requires MonthStart(k) <= now
    ensures MonthStart(m) <= now < MonthStart(m + 1)
    decreases now - MonthStart(k)
  {
    MonthLength(k);
    if now < MonthStart(k + 1) then k else MonthFrom(k + 1, now)
  }

  /** The month containing an instant. */
  function MonthIndex(now: nat): (m: nat)
    ensures MonthStart(m) <= now < MonthStart(m + 1)
  {
    MonthFrom(0, now)
  }

  lemma {:induction false} MonthStartsIncrease(a: nat, b: nat)
    requires a <= b
    ensures MonthStart(a) <= MonthStart(b)
  {
    hide MonthStart;
    if a < b {
      MonthStartsIncrease(a, b - 1);
      MonthLength(b - 1);
    }
  }

  lemma MonthIndexUnique(now: nat, k: nat)
    ensures MonthIndex(now) == k <==> MonthStart(k) <= now < MonthStart(k + 1)
  {
    hide MonthStart, MonthIndex;
    var m := MonthIndex(now);
    if m < k {
      MonthStartsIncrease(m + 1, k);
    } else if k < m {
      MonthStartsIncrease(k + 1, m);
    }
  }

  /** Leap days before the first of January of `year`, counted from the year 1. */
  function LeapDaysBefore(year: int): int {
    (year - 1) / 4 - (year - 1) / 100 + (year - 1) / 400
  }

  /** The leap day of `year`, if it has one. */
  function LeapDay(year: int): int {
    LeapDaysBefore(year + 1) - LeapDaysBefore(year)
  }

  /** The days of a common year before each month, and in all. */
  const DAYS_BEFORE := [0, 31, 59, 90, 120, 151, 181, 212, 243, 273, 304, 334, 365]

  lemma DaysOfMonth(year: nat, m: nat)
    requires 1 <= m <= 12
    ensures DaysIn(YearMonth(year, m))
         == DAYS_BEFORE[m] - DAYS_BEFORE[m - 1] + if m == 2 then LeapDay(year) else 0
  {
    LeapDayCounted(year);
    hide LeapDaysBefore, LeapYear;
  }

  lemma MonthStep(y: nat, m: nat)
    requires 1 <= m <= 12
    ensures MonthStart(12 * y + m) == MonthStart(12 * y + m - 1) + DaysIn(YearMonth(1970 + y, m)) * DAY_MS
  {
    assert Nth(12 * y + m - 1) == YearMonth(1970 + y, m);
    hide DaysIn, Nth;
  }

  lemma {:induction false} MonthWithinYear(y: nat, m: nat)
    requires m <= 12
    ensures MonthStart(12 * y + m)
         == MonthStart(12 * y) + (DAYS_BEFORE[m] + if m >= 2 then LeapDay(1970 + y) else 0) * 86_400_000
  {
    hide MonthStart, LeapDay, DaysIn;
    if m > 0 {
      MonthWithinYear(y, m - 1);
      MonthStep(y, m);
      DaysOfMonth(1970 + y, m);
    }
  }

  lemma LeapDayCounted(year: nat)
    ensures LeapDaysBefore(year + 1) == LeapDaysBefore(year) + if LeapYear(year) then 1 else 0
  {
    EveryFourth(year);
    EveryHundredth(year);
    EveryFourHundredth(year);
  }

  lemma EveryFourth(year: int)
    ensures year / 4 == (year - 1) / 4 + if year % 4 == 0 then 1 else 0
  {
  }

  lemma EveryHundredth(year: int)
    ensures year / 100 == (year - 1) / 100 + if year % 100 == 0 then 1 else 0
    ensures year % 100 == 0 ==> year % 4 == 0
  {
  }

  lemma EveryFourHundredth(year: int)
    ensures year / 400 == (year - 1) / 400 + if year % 400 == 0 then 1 else 0
    ensures year % 400 == 0 ==> year % 100 == 0
  {
  }

  lemma FirstMonth()
    ensures MonthStart(0) == 0
  {
  }

  /** A year starts 365 days after the last, and a day later for every leap day in between. */
  lemma {:induction false} YearStart(y: nat)
    ensures MonthStart(12 * y) == (365 * y + LeapDaysBefore(1970 + y) - LeapDaysBefore(1970)) * 86_400_000
  {
    hide MonthStart, LeapDaysBefore;
    if y == 0 {
      FirstMonth();
    } else {
      YearStart(y - 1);
      MonthWithinYear(y - 1, 12);
      assert 12 * (y - 1) + 12 == 12 * y;
    }
  }

  /** Month starts in closed form: by the year, the month and the leap days so far. */
  lemma MonthStartExactly(y: nat, m: nat)
    requires m < 12
    ensures Nth(12 * y + m) == YearMonth(1970 + y, m + 1)
    ensures MonthStart(12 * y + m)
         == (365 * y + LeapDaysBefore(1970 + y) - LeapDaysBefore(1970)
             + DAYS_BEFORE[m] + if m >= 2 then LeapDay(1970 + y) else 0) * 86_400_000
    ensures LeapDay(1970 + y)
         == if (1970 + y) % 4 == 0 && ((1970 + y) % 100 != 0 || (1970 + y) % 400 == 0) then 1 else 0
  {
    LeapDayCounted(1970 + y);
    hide MonthStart, LeapDaysBefore, LeapDay;
    YearStart(y);
    MonthWithinYear(y, m);
  }

  function YyyymmUtc(now: nat): YearMonth {
    Nth(MonthIndex(now))
  }

  /** The year and month after `ym`: December rolls the year over. */
  function NextMonth(ym: YearMonth): YearMonth {
    if ym.month == 12 then YearMonth(ym.year + 1, 1) else YearMonth(ym.year, ym.month + 1)
  }

  /** Months are numbered without gaps, and the key names of two months differ. */
  lemma MonthNames(k: nat, j: nat)
    ensures NextMonth(Nth(k)) == Nth(k + 1)
    ensures IndexOf(NextMonth(Nth(k))) == k + 1
    ensures IndexOf(Nth(k)) == k
    ensures Nth(k) == Nth(j) ==> k == j
  {
  }

  /** The start of a named month, from 1970 on. */
  function StartOf(ym: YearMonth): int {
    if IndexOf(ym) < 0 then 0 else MonthStart(IndexOf(ym))
  }

  /** A duration in milliseconds, truncated to seconds and never less than a minute. */
  function TtlSeconds(durationMs: int): int {
    Max(durationMs / 1000, 60)
  }

  /** The TTL overshoots the end of the month, or undershoots it by less than a second. */
  lemma TtlUndershoot(durationMs: nat)
    ensures var ttlMs := 1000 * TtlSeconds(durationMs);
            && ttlMs > durationMs - 1000
            && (ttlMs < durationMs <==> durationMs % 1000 != 0 && durationMs > 60 * 1000)
            && (durationMs < 1000 ==> ttlMs >= durationMs)
  {
  }

  /** Whole seconds to the start of next month, and never less than a minute. */
  function SecondsUntilNextMonthUtc(now: nat): int {
    TtlSeconds(StartOf(NextMonth(YyyymmUtc(now))) - now)
  }

  lemma SecondsUntilEnd(now: nat)
    ensures SecondsUntilNextMonthUtc(now) == TtlSeconds(MonthStart(MonthIndex(now) + 1) - now)
  {
    hide MonthStart, MonthIndex, IndexOf, NextMonth, Nth, TtlSeconds;
    MonthNames(MonthIndex(now), 0);
  }
}

/** The monthly counter kept in Redis under `quota:{vk_id}:{YYYYMM}`. */
module MonthlyQuota {
  import opened Prelude
  import opened UtcCalendar

  /** A counter that Redis drops at `expiresAt`. */
  datatype Counter = Counter(count: int, expiresAt: int)

  /** The counters of one virtual key, by month. */
  type Keys = map<YearMonth, Counter>

  /** Redis serves no expired counter. */
  function Live(keys: Keys, key: YearMonth, now: int): Keys {
    if key in keys && keys[key].expiresAt <= now then keys - {key} else keys
  }

  function Current(keys: Keys, key: YearMonth): int {
    if key in keys then keys[key].count else 0
  }

  /** One call: the clock reading, the key it names and the script, as one step. */
  function Call(keys: Keys, now: nat, limit: int): (bool, Keys) {
    var key := YyyymmUtc(now);
    var live := Live(keys, key, now);
    var next := Current(live, key) + 1;
    if next > limit then (false, live)
    else if next == 1 then (true, live[key := Counter(1, now + 1000 * SecondsUntilNextMonthUtc(now))])
    else (true, live[key := Counter(next, if key in live then live[key].expiresAt else 0)])
  }

  class QuotaKeys {
    var keys: Keys

    constructor ()
      ensures keys == map[]
    {
      keys := map[];
    }

    ghost predicate Valid()
      reads this
    {
      forall key | key in keys :: keys[key].count >= 1
    }

    method MonthlyQuotaAllowAndIncr(now: nat, limit: int) returns (allowed: bool)
      requires Valid()
      modifies this
      ensures Valid()
      ensures (allowed, keys) == Call(old(keys), now, limit)
    {
      hide SecondsUntilNextMonthUtc, YyyymmUtc;
      var key := YyyymmUtc(now);
      var ttl := SecondsUntilNextMonthUtc(now);
      if key in keys && keys[key].expiresAt <= now {
        keys := keys - {key}; // Redis drops the key
      }
      var current := if key in keys then keys[key].count else 0;
      if current >= limit {
        return false;
      }
      var nextv := current + 1;
      if nextv == 1 {
        keys := keys[key := Counter(nextv, now + 1000 * ttl)];
      } else {
        keys := keys[key := keys[key].(count := nextv)];
      }
      allowed := true;
    }
  }

  // ------------------------------------------------------------- whole runs

  function After(times: seq<nat>, limit: int): Keys {
    if times == [] then map[]
    else
      var n := |times| - 1;
      Call(After(times[..n], limit), times[n], limit).1
  }

  function LastAdmitted(times: seq<nat>, limit: int): bool
    requires times != []
  {
    var n := |times| - 1;
    Call(After(times[..n], limit), times[n], limit).0
  }

  /** In month `k`, no later than one second before its end. */
  predicate Early(t: nat, k: nat) {
    MonthStart(k) <= t <= MonthStart(k + 1) - 1000
  }

  /** In the last second of month `k`. */
  predicate Late(t: nat, k: nat) {
    MonthStart(k + 1) - 1000 < t < MonthStart(k + 1)
  }

  function EarlyCalls(times: seq<nat>, k: nat): nat {
    if times == [] then 0
    else
      var n := |times| - 1;
      EarlyCalls(times[..n], k) + if Early(times[n], k) then 1 else 0
  }

  function EarlyAdmitted(times: seq<nat>, k: nat, limit: int): nat {
    if times == [] then 0
    else
      var n := |times| - 1;
      EarlyAdmitted(times[..n], k, limit) + if Early(times[n], k) && LastAdmitted(times, limit) then 1 else 0
  }

  function LateAdmitted(times: seq<nat>, k: nat, limit: int): nat {
    if times == [] then 0
    else
      var n := |times| - 1;
      LateAdmitted(times[..n], k, limit) + if Late(times[n], k) && LastAdmitted(times, limit) then 1 else 0
  }

  /** All calls admitted in month `k`. */
  function Admitted(times: seq<nat>, k: nat, limit: int): nat {
    EarlyAdmitted(times, k, limit) + LateAdmitted(times, k, limit)
  }

  /**
   * The counter of month `k` is absent, in its first life, or in its second.  The first life cannot
   * end before the last second; the second begins in it and outlives the month.
   */
  ghost predicate MonthInvariant(times: seq<nat>, k: nat, limit: int) {
    var keys, key := After(times, limit), Nth(k);
    var early, late := EarlyAdmitted(times, k, limit), LateAdmitted(times, k, limit);
    var end := MonthStart(k + 1);
    && early == Min(EarlyCalls(times, k), Max(limit, 0))
    && (late > 0 ==> times != [] && times[|times| - 1] > end - 1000)
    && (if key !in keys then early + late == 0
        else
          var c := keys[key];
          && 1 <= c.count <= limit
          && ((c.expiresAt > end - 1000 && early + late == c.count)
              || (c.expiresAt >= end && early + late <= limit + c.count && late > 0)))
  }

  lemma {:induction false} OneMoreCall(init: seq<nat>, t: nat, k: nat, limit: int)
    ensures var times := init + [t];
            var admitted := if Call(After(init, limit), t, limit).0 then 1 else 0;
            && After(times, limit) == Call(After(init, limit), t, limit).1
            && EarlyCalls(times, k) == EarlyCalls(init, k) + (if Early(t, k) then 1 else 0)
            && EarlyAdmitted(times, k, limit) == EarlyAdmitted(init, k, limit) + (if Early(t, k) then admitted else 0)
            && LateAdmitted(times, k, limit) == LateAdmitted(init, k, limit) + (if Late(t, k) then admitted else 0)
  {
    assert (init + [t])[..|init|] == init;
  }

  /** The fate of month `k`'s counter in one call, by the arithmetic of its own month only. */
  lemma CallInMonth(keys: Keys, t: nat, k: nat, limit: int)
    ensures var (admit, next) := Call(keys, t, limit);
            var key, end := Nth(k), MonthStart(k + 1);
            if MonthIndex(t) != k then
              (key in next <==> key in keys) && (key in keys ==> next[key] == keys[key])
            else if key !in keys || keys[key].expiresAt <= t then
              && (admit <==> limit >= 1)
              && (key in next <==> admit)
              && (admit ==> next[key] == Counter(1, t + 1000 * TtlSeconds(end - t)))
            else if keys[key].count >= limit then !admit && next == keys
            else keys[key].count >= 1 ==> admit && key in next && next[key] == keys[key].(count := keys[key].count + 1)
  {
    hide MonthStart, MonthIndex, TtlSeconds, SecondsUntilNextMonthUtc;
    MonthNames(MonthIndex(t), k);
    SecondsUntilEnd(t);
  }

  lemma InvariantStep(init: seq<nat>, t: nat, k: nat, limit: int)
    requires NonDecreasing(init + [t]) && MonthInvariant(init, k, limit)
    ensures MonthInvariant(init + [t], k, limit)
  {
    hide MonthStart, MonthIndex, TtlSeconds, Call, After, EarlyCalls, EarlyAdmitted, LateAdmitted, Nth;
    var end := MonthStart(k + 1);
    OneMoreCall(init, t, k, limit);
    CallInMonth(After(init, limit), t, k, limit);
    MonthIndexUnique(t, k);
    MonthLength(k);
    if init != [] {
      assert (init + [t])[|init| - 1] <= (init + [t])[|init|];
    }
    if MonthIndex(t) == k {
      TtlUndershoot(end - t);
    }
  }

  lemma {:induction false} InvariantHolds(times: seq<nat>, k: nat, limit: int)
    requires NonDecreasing(times)
    ensures MonthInvariant(times, k, limit)
  {
    if times != [] {
      var n := |times| - 1;
      assert times == times[..n] + [times[n]];
      InvariantHolds(times[..n], k, limit);
      InvariantStep(times[..n], times[n], k, limit);
    }
  }

  /** Up to one second before its end, a month admits exactly `limit` of its calls, or all of them. */
  lemma QuotaExactBeforeLastSecond(times: seq<nat>, k: nat, limit: int)
    requires NonDecreasing(times)
    ensures EarlyAdmitted(times, k, limit) == Min(EarlyCalls(times, k), Max(limit, 0))
  {
    InvariantHolds(times, k, limit);
  }

  /** Over the whole month the counter can be lost once, so at most twice the limit is admitted. */
  lemma QuotaAtMostTwice(times: seq<nat>, k: nat, limit: int)
    requires NonDecreasing(times)
    ensures Admitted(times, k, limit) <= 2 * Max(limit, 0)
  {
    InvariantHolds(times, k, limit);
  }

  /** Runs of calls that all fall in one month, the first of them at `first`. */
  ghost predicate MonthRunFrom(times: seq<nat>, first: nat) {
    && NonDecreasing(times) && times != [] && times[0] == first
    && forall i | 0 <= i < |times| :: MonthIndex(times[i]) == MonthIndex(first)
  }

  lemma NoCalls(k: nat, limit: int)
    ensures After([], limit) == map[] && Admitted([], k, limit) == 0
  {
  }

  /** When the first TTL reaches the end of the month there is no second life. */
  lemma {:induction false} NoSecondLife(times: seq<nat>, first: nat, limit: int)
    requires MonthRunFrom(times, first) && limit >= 1
    requires var left := MonthStart(MonthIndex(first) + 1) - first; left % 1000 == 0 || left <= 60 * 1000
    ensures OutlivesMonth(times, MonthIndex(first), limit)
  {
    hide OutlivesMonth, MonthStart, MonthIndex;
    var k, n := MonthIndex(first), |times| - 1;
    assert times == times[..n] + [times[n]];
    if n > 0 {
      NoSecondLife(times[..n], first, limit);
    }
    assert MonthIndex(times[n]) == k;
    OutlivesStep(times[..n], times[n], first, limit);
  }

  /** The month's one counter holds all its admissions and lasts to the end of the month. */
  ghost predicate OutlivesMonth(times: seq<nat>, k: nat, limit: int) {
    var keys := After(times, limit);
    && Nth(k) in keys && keys[Nth(k)].expiresAt >= MonthStart(k + 1)
    && 1 <= keys[Nth(k)].count == Admitted(times, k, limit) <= limit
  }

  lemma OutlivesStep(init: seq<nat>, t: nat, first: nat, limit: int)
    requires limit >= 1 && MonthIndex(t) == MonthIndex(first) && (init == [] ==> t == first)
    requires init != [] ==> OutlivesMonth(init, MonthIndex(first), limit)
    requires var left := MonthStart(MonthIndex(first) + 1) - first; left % 1000 == 0 || left <= 60 * 1000
    ensures OutlivesMonth(init + [t], MonthIndex(first), limit)
  {
    hide MonthStart, MonthIndex, TtlSeconds, Call, Nth, After, EarlyAdmitted, LateAdmitted, EarlyCalls;
    var k := MonthIndex(first);
    TtlUndershoot(MonthStart(k + 1) - first);
    NoCalls(k, limit);
    OneMoreCall(init, t, k, limit);
    CallInMonth(After(init, limit), t, k, limit);
    assert Early(t, k) || Late(t, k);
  }

  /** Another call within the limit, at the instant of the first. */
  lemma FirstLifeStep(init: seq<nat>, n: nat, first: nat, limit: int)
    requires n < limit && MonthStart(MonthIndex(first) + 1) - first > 60 * 1000
    requires InFirstLife(init, n, first, limit)
    ensures InFirstLife(init + [first], n + 1, first, limit)
  {
    hide MonthStart, MonthIndex, TtlSeconds, Call, Nth, After, EarlyAdmitted, LateAdmitted;
    var k := MonthIndex(first);
    TtlUndershoot(MonthStart(k + 1) - first);
    OneMoreCall(init, first, k, limit);
    CallInMonth(After(init, limit), first, k, limit);
  }

  ghost predicate InFirstLife(times: seq<nat>, n: nat, first: nat, limit: int) {
    var k, keys := MonthIndex(first), After(times, limit);
    && Admitted(times, k, limit) == n
    && (Nth(k) in keys <==> n > 0)
    && (n > 0 ==> keys[Nth(k)] == Counter(n, first + 1000 * TtlSeconds(MonthStart(k + 1) - first)))
  }

  /** `n` calls at one instant, all within the limit. */
  lemma {:induction false} FirstLife(n: nat, first: nat, limit: int)
    requires n <= limit && MonthStart(MonthIndex(first) + 1) - first > 60 * 1000
    ensures InFirstLife(seq(n, _ => first), n, first, limit)
  {
    hide InFirstLife, MonthStart, MonthIndex;
    if n == 0 {
      FirstLifeEmpty(first, limit);
      assert seq(n, _ => first) == [];
    } else {
      FirstLife(n - 1, first, limit);
      FirstLifeStep(seq(n - 1, _ => first), n - 1, first, limit);
      assert seq(n, _ => first) == seq(n - 1, _ => first) + [first];
    }
  }

  lemma FirstLifeEmpty(first: nat, limit: int)
    ensures InFirstLife([], 0, first, limit)
  {
    NoCalls(MonthIndex(first), limit);
  }

  lemma SecondLife(first: nat, limit: int)
    requires limit >= 1
    requires var left := MonthStart(MonthIndex(first) + 1) - first; left % 1000 != 0 && left > 60 * 1000
    ensures var k := MonthIndex(first);
            var times := seq(limit, _ => first) + [MonthStart(k + 1) - 1];
            MonthRunFrom(times, first) && Admitted(times, k, limit) == limit + 1
  {
    hide MonthStart, MonthIndex, TtlSeconds, Call, Nth, After, EarlyAdmitted, LateAdmitted;
    var k, init := MonthIndex(first), seq(limit, _ => first);
    var t := MonthStart(k + 1) - 1;
    MonthIndexUnique(t, k);
    FirstLife(limit, first, limit);
    TtlUndershoot(MonthStart(k + 1) - first);
    OneMoreCall(init, t, k, limit);
    CallInMonth(After(init, limit), t, k, limit);
  }

  /**
   * The limit is a cap for the whole month exactly when the month's first call comes in its last
   * minute or a whole number of seconds before its end: any other first call truncates the TTL, and
   * the counter is lost while the month still runs.
   */
  lemma LimitIsCapExactly(first: nat, limit: int)
    requires limit >= 1
    ensures var left := MonthStart(MonthIndex(first) + 1) - first;
            ((left % 1000 == 0 || left <= 60 * 1000)
             <==> forall times: seq<nat> | MonthRunFrom(times, first) ::
                    Admitted(times, MonthIndex(first), limit) <= limit)
  {
    hide MonthStart, MonthIndex, Admitted, MonthRunFrom;
    var k := MonthIndex(first);
    var left := MonthStart(k + 1) - first;
    if left % 1000 == 0 || left <= 60 * 1000 {
      forall times: seq<nat> | MonthRunFrom(times, first)
        ensures Admitted(times, k, limit) <= limit
      {
        NoSecondLife(times, first, limit);
      }
    } else {
      SecondLife(first, limit);
    }
  }
}
