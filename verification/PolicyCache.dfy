/** The read-through policy cache: interleaved readers over one Redis entry and one database row. */
module PolicyCache {
  import opened Prelude

  const TTL_MS := 300 * 1000

  /** A policy row, or its absence. */
  datatype Policy = Policy(id: nat, content: string)

  type DbValue = Option<Policy>

  /** The row has held `value` since `since`, until the next version. */
  datatype Version = Version(value: DbValue, since: int)

  /** `expiresAt` is set by SET EX; the other field remembers when the filler read the database. */
  datatype Entry = Entry(policy: Policy, expiresAt: int, fetchedAt: int)

  datatype Pc =
    | Start
    | Missed
    | Fetched(value: DbValue, at: int)
    | Returned(value: DbValue, at: int, oldest: int)

  datatype State = State(now: int, versions: seq<Version>, cache: Option<Entry>, readers: seq<Pc>)

  datatype Action =
    | Tick(ms: nat)
    | Update(value: DbValue)
    | NewReader
    | Lookup(r: nat)
    | Fetch(r: nat)
      // the cache write is best-effort: `stored` false is a write that Redis refused
    | Fill(r: nat, stored: bool)

  /** The readers take at most `delay` from reading the database to filling the cache and returning. */
  ghost predicate Enabled(s: State, a: Action, delay: nat) {
    match a
    case Tick(ms) => forall r | 0 <= r < |s.readers| && s.readers[r].Fetched? :: s.now + ms <= s.readers[r].at + delay
    case Update(_) => true
    case NewReader => true
    case Lookup(r) => r < |s.readers| && s.readers[r] == Start
    case Fetch(r) => r < |s.readers| && s.readers[r] == Missed
    case Fill(r, _) => r < |s.readers| && s.readers[r].Fetched?
  }

  function Live(cache: Option<Entry>, now: int): Option<Entry> {
    if cache.Some? && cache.value.expiresAt <= now then None else cache
  }

  function Current(s: State): DbValue
    requires s.versions != []
  {
    s.versions[|s.versions| - 1].value
  }

  function Apply(s: State, a: Action, delay: nat): State
    requires Enabled(s, a, delay) && s.versions != []
  {
    match a
    case Tick(ms) => s.(now := s.now + ms)
    case Update(value) => s.(versions := s.versions + [Version(value, s.now)])
    case NewReader => s.(readers := s.readers + [Start])
    case Lookup(r) =>
      var hit := Live(s.cache, s.now);
      s.(readers := s.readers[r := if hit.Some? then Returned(Some(hit.value.policy), s.now, hit.value.fetchedAt)
                                   else Missed])
    case Fetch(r) => s.(readers := s.readers[r := Fetched(Current(s), s.now)])
    case Fill(r, stored) =>
      var Fetched(value, at) := s.readers[r];
      s.(cache := if stored && value.Some? then Some(Entry(value.value, s.now + TTL_MS, at)) else s.cache,
         readers := s.readers[r := Returned(value, s.now, at)])
  }

  /** The row held `value` at some moment of the instant `at`. */
  ghost predicate Held(versions: seq<Version>, value: DbValue, at: int) {
    exists i :: HeldBy(versions, i, value, at)
  }

  ghost predicate HeldBy(versions: seq<Version>, i: int, value: DbValue, at: int) {
    && 0 <= i < |versions| && versions[i].value == value && versions[i].since <= at
    && (i + 1 < |versions| ==> at <= versions[i + 1].since)
  }

  ghost predicate Inv(s: State, delay: nat) {
    && s.versions != [] && s.versions[|s.versions| - 1].since <= s.now
    && (s.cache.Some? ==>
          var e := s.cache.value;
          Held(s.versions, Some(e.policy), e.fetchedAt)
           && e.fetchedAt <= s.now && e.expiresAt <= e.fetchedAt + delay + TTL_MS)
    && (forall r | 0 <= r < |s.readers| && s.readers[r].Fetched? ::
          Held(s.versions, s.readers[r].value, s.readers[r].at) && s.readers[r].at <= s.now <= s.readers[r].at + delay)
    && (forall r | 0 <= r < |s.readers| && s.readers[r].Returned? ::
          var Returned(value, at, oldest) := s.readers[r];
          Held(s.versions, value, oldest) && at - TTL_MS - delay < oldest <= at <= s.now)
  }

  /** History is only appended to. */
  lemma HeldStays(versions: seq<Version>, v: Version, value: DbValue, at: int)
    requires Held(versions, value, at) && at <= v.since
    ensures Held(versions + [v], value, at)
  {
    var i :| HeldBy(versions, i, value, at);
    assert HeldBy(versions + [v], i, value, at);
  }

  lemma CurrentIsHeld(s: State)
    requires s.versions != [] && s.versions[|s.versions| - 1].since <= s.now
    ensures Held(s.versions, Current(s), s.now)
  {
    assert HeldBy(s.versions, |s.versions| - 1, Current(s), s.now);
  }

  lemma StepKeepsInv(s: State, a: Action, delay: nat)
    requires Inv(s, delay) && Enabled(s, a, delay)
    ensures Inv(Apply(s, a, delay), delay)
  {
    hide Held;
    match a
    case Update(value) =>
      var v := Version(value, s.now);
      if s.cache.Some? {
        HeldStays(s.versions, v, Some(s.cache.value.policy), s.cache.value.fetchedAt);
      }
      forall r | 0 <= r < |s.readers| && s.readers[r].Fetched?
        ensures Held(s.versions + [v], s.readers[r].value, s.readers[r].at)
      {
        HeldStays(s.versions, v, s.readers[r].value, s.readers[r].at);
      }
      forall r | 0 <= r < |s.readers| && s.readers[r].Returned?
        ensures Held(s.versions + [v], s.readers[r].value, s.readers[r].oldest)
      {
        HeldStays(s.versions, v, s.readers[r].value, s.readers[r].oldest);
      }
    case Fetch(_) => CurrentIsHeld(s);
    case _ =>
  }

  ghost predicate Schedule(s: State, actions: seq<Action>, delay: nat)
    decreases |actions|
  {
    actions == []
    || (s.versions != [] && Enabled(s, actions[0], delay) && Schedule(Apply(s, actions[0], delay), actions[1..], delay))
  }

  function Run(s: State, actions: seq<Action>, delay: nat): State
    requires Schedule(s, actions, delay)
    decreases |actions|
  {
    if actions == [] then s else Run(Apply(s, actions[0], delay), actions[1..], delay)
  }

  lemma {:induction false} RunKeepsInv(s: State, actions: seq<Action>, delay: nat)
    requires Inv(s, delay) && Schedule(s, actions, delay)
    ensures Inv(Run(s, actions, delay), delay)
    decreases |actions|
  {
    if actions != [] {
      StepKeepsInv(s, actions[0], delay);
      RunKeepsInv(Apply(s, actions[0], delay), actions[1..], delay);
    }
  }

  function Initial(value: DbValue): State {
    State(0, [Version(value, 0)], None, [])
  }

  /** A policy returned at `t` was the database's at some instant after t - 300 s - delay, up to t. */
  lemma StalenessBound(value: DbValue, actions: seq<Action>, delay: nat, r: nat)
    requires Schedule(Initial(value), actions, delay)
    requires var end := Run(Initial(value), actions, delay);
             r < |end.readers| && end.readers[r].Returned?
    ensures var end := Run(Initial(value), actions, delay);
            var Returned(policy, t, _) := end.readers[r];
            exists at, i ::
              && t - 300 * 1000 - delay < at <= t
              && 0 <= i < |end.versions| && end.versions[i].value == policy
              && end.versions[i].since <= at && (i + 1 < |end.versions| ==> at <= end.versions[i + 1].since)
              && HeldBy(end.versions, i, policy, at)
  {
    RunKeepsInv(Initial(value), actions, delay);
    var end := Run(Initial(value), actions, delay);
    assert Held(end.versions, end.readers[r].value, end.readers[r].oldest);
    var i :| HeldBy(end.versions, i, end.readers[r].value, end.readers[r].oldest);
  }

  // ---------------------------------------------------- the bound is reached

  lemma {:induction false} RunAppend(s: State, x: seq<Action>, y: seq<Action>, delay: nat)
    requires Schedule(s, x, delay) && Schedule(Run(s, x, delay), y, delay)
    ensures Schedule(s, x + y, delay) && Run(s, x + y, delay) == Run(Run(s, x, delay), y, delay)
    decreases |x|
  {
    if x == [] {
      assert x + y == y;
    } else {
      RunAppend(Apply(s, x[0], delay), x[1..], y, delay);
      assert (x + y)[1..] == x[1..] + y;
    }
  }

  lemma RunOne(s: State, x: seq<Action>, a: Action, delay: nat)
    requires Schedule(s, x, delay)
    requires var end := Run(s, x, delay); end.versions != [] && Enabled(end, a, delay)
    ensures Schedule(s, x + [a], delay) && Run(s, x + [a], delay) == Apply(Run(s, x, delay), a, delay)
  {
    var mid := Run(s, x, delay);
    assert [a][1..] == [] && Schedule(Apply(mid, a, delay), [], delay);
    assert Schedule(mid, [a], delay);
    RunAppend(s, x, [a], delay);
  }

  /** A reader that fetches just before an update and fills as late as it may. */
  lemma SlowFill(a: Policy, b: Policy, delay: nat) returns (x: seq<Action>)
    ensures var s := Initial(Some(a));
            Schedule(s, x, delay)
            && Run(s, x, delay) == State(delay, [Version(Some(a), 0), Version(Some(b), 0)],
                                         Some(Entry(a, delay + TTL_MS, 0)), [Returned(Some(a), delay, 0)])
  {
    var s := Initial(Some(a));
    x := [];
    RunOne(s, x, NewReader, delay);
    x := x + [NewReader];
    RunOne(s, x, Lookup(0), delay);
    x := x + [Lookup(0)];
    RunOne(s, x, Fetch(0), delay);
    x := x + [Fetch(0)];
    RunOne(s, x, Update(Some(b)), delay);
    x := x + [Update(Some(b))];
    RunOne(s, x, Tick(delay), delay);
    x := x + [Tick(delay)];
    RunOne(s, x, Fill(0, true), delay);
    x := x + [Fill(0, true)];
  }

  /** That age is reached: the next older instant is excluded, and this one is not. */
  lemma StalenessReached(a: Policy, b: Policy, delay: nat) returns (x: seq<Action>)
    requires a != b
    ensures Schedule(Initial(Some(a)), x, delay)
    ensures var end := Run(Initial(Some(a)), x, delay);
            && |end.readers| == 2 && end.readers[1].Returned? && end.readers[1].value == Some(a)
            && end.readers[1].at == 300 * 1000 + delay - 1
            && forall at :: Held(end.versions, Some(a), at) ==> at <= end.readers[1].at - 300 * 1000 - delay + 1
  {
    var s := Initial(Some(a));
    x := SlowFill(a, b, delay);
    RunOne(s, x, Tick(TTL_MS - 1), delay);
    x := x + [Tick(TTL_MS - 1)];
    RunOne(s, x, NewReader, delay);
    x := x + [NewReader];
    RunOne(s, x, Lookup(1), delay);
    x := x + [Lookup(1)];
  }

  // --------------------------------------------- one reader without interference

  /** What a load alone returns and leaves in the cache. */
  function LoadAlone(cache: Option<Entry>, db: DbValue, now: int, stored: bool): (DbValue, Option<Entry>) {
    var hit := Live(cache, now);
    if hit.Some? then (Some(hit.value.policy), cache)
    else (db, if stored && db.Some? then Some(Entry(db.value, now + TTL_MS, now)) else cache)
  }

  /** The Redis entry `rk:policy:{id}`. */
  class CacheKey {
    var entry: Option<Entry>

    constructor ()
      ensures entry == None
    {
      entry := None;
    }

    method LoadPolicyBundle(db: DbValue, now: int, stored: bool) returns (policy: DbValue)
      modifies this
      ensures (policy, entry) == LoadAlone(old(entry), db, now, stored)
    {
      if entry.Some? && now < entry.value.expiresAt {
        return Some(entry.value.policy);
      }
      policy := db;
      if policy.Some? && stored {
        entry := Some(Entry(policy.value, now + TTL_MS, now));
      }
    }
  }

  lemma LoadIsASchedule(s: State, r: nat, stored: bool, delay: nat) returns (x: seq<Action>)
    requires s.versions != [] && r < |s.readers| && s.readers[r] == Start
    ensures Schedule(s, x, delay)
    ensures var end := Run(s, x, delay);
            && end.versions == s.versions && |end.readers| == |s.readers| && end.readers[r].Returned?
            && (end.readers[r].value, end.cache) == LoadAlone(s.cache, Current(s), s.now, stored)
  {
    x := [];
    RunOne(s, x, Lookup(r), delay);
    x := x + [Lookup(r)];
    if Live(s.cache, s.now) == None {
      RunOne(s, x, Fetch(r), delay);
      x := x + [Fetch(r)];
      RunOne(s, x, Fill(r, stored), delay);
      x := x + [Fill(r, stored)];
    }
  }
}
