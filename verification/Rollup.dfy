/**
 * Daily rollups: a group-by over a half-open time range, upserted into a table that is never cleared.
 * The four rollup statements differ in their rows, keys and aggregates only.
 */
module Rollup {
  import opened Prelude

  const DAY_MS := 24 * 60 * 60 * 1000

  function DayOf(ts: int): int {
    ts / DAY_MS
  }

  /** A rollup statement: rows without a key are filtered out or have no join partner. */
  datatype Query<!E, !K, R> = Query(ts: E -> int, key: E -> Option<K>, agg: seq<E> -> R)

  /** Rows by day and by the rest of the primary key. */
  type Rows<K(==), R> = map<(int, K), R>

  predicate InRange<E, K, R>(q: Query<E, K, R>, e: E, from: int, to: int) {
    from <= q.ts(e) < to && q.key(e).Some?
  }

  predicate InGroup<E, K(==), R>(q: Query<E, K, R>, e: E, from: int, to: int, day: int, k: K) {
    from <= q.ts(e) < to && DayOf(q.ts(e)) == day && q.key(e) == Some(k)
  }

  function Group<E, K(==), R>(q: Query<E, K, R>, log: seq<E>, from: int, to: int, day: int, k: K): seq<E> {
    if log == [] then []
    else
      var n := |log| - 1;
      Group(q, log[..n], from, to, day, k) + if InGroup(q, log[n], from, to, day, k) then [log[n]] else []
  }

  lemma GroupAppend<E, K, R>(q: Query<E, K, R>, log: seq<E>, e: E, from: int, to: int, day: int, k: K)
    ensures Group(q, log + [e], from, to, day, k)
         == Group(q, log, from, to, day, k) + if InGroup(q, e, from, to, day, k) then [e] else []
  {
    assert (log + [e])[..|log|] == log;
  }

  function Keys<E, K(==), R>(q: Query<E, K, R>, log: seq<E>, from: int, to: int): set<(int, K)> {
    set i | 0 <= i < |log| && InRange(q, log[i], from, to) :: (DayOf(q.ts(log[i])), q.key(log[i]).value)
  }

  /** The statement's SELECT. */
  function GroupBy<E, K(==), R>(q: Query<E, K, R>, log: seq<E>, from: int, to: int): Rows<K, R> {
    map dk | dk in Keys(q, log, from, to) :: q.agg(Group(q, log, from, to, dk.0, dk.1))
  }

  /** The upsert: every column of a conflicting row is overwritten. */
  function RollUp<E, K(==), R>(q: Query<E, K, R>, table: Rows<K, R>, log: seq<E>, from: int, to: int): Rows<K, R> {
    table + GroupBy(q, log, from, to)
  }

  // ------------------------------------------------------------ one day's rows

  function DayRows<K(==), R>(rows: Rows<K, R>, day: int): Rows<K, R> {
    map dk | dk in rows && dk.0 == day :: rows[dk]
  }

  /** The group-by of one whole day, straight from the log. */
  function Direct<E, K(==), R>(q: Query<E, K, R>, log: seq<E>, day: int): Rows<K, R> {
    GroupBy(q, log, day * DAY_MS, (day + 1) * DAY_MS)
  }

  lemma DayBounds(ts: int, day: int)
    ensures DayOf(ts) == day <==> day * DAY_MS <= ts < (day + 1) * DAY_MS
  {
  }

  lemma {:induction false} SameGroup<E, K, R>(
    q: Query<E, K, R>, log: seq<E>, from: int, to: int, day: int, k: K)
    requires from <= day * DAY_MS && (day + 1) * DAY_MS <= to
    ensures Group(q, log, from, to, day, k) == Group(q, log, day * DAY_MS, (day + 1) * DAY_MS, day, k)
  {
    if log != [] {
      var n := |log| - 1;
      SameGroup(q, log[..n], from, to, day, k);
      DayBounds(q.ts(log[n]), day);
    }
  }

  lemma KeyWitness<E, K, R>(q: Query<E, K, R>, log: seq<E>, from: int, to: int, dk: (int, K))
    ensures dk in Keys(q, log, from, to)
       <==> exists i :: 0 <= i < |log| && InGroup(q, log[i], from, to, dk.0, dk.1)
  {
    if dk in Keys(q, log, from, to) {
      var i :| 0 <= i < |log| && InRange(q, log[i], from, to) && dk == (DayOf(q.ts(log[i])), q.key(log[i]).value);
      assert InGroup(q, log[i], from, to, dk.0, dk.1);
    }
    if i :| 0 <= i < |log| && InGroup(q, log[i], from, to, dk.0, dk.1) {
      assert InRange(q, log[i], from, to);
      assert dk == (DayOf(q.ts(log[i])), q.key(log[i]).value);
    }
  }

  lemma AlignedGroup<E, K, R>(q: Query<E, K, R>, e: E, a: int, b: int, day: int, k: K)
    ensures InGroup(q, e, a * DAY_MS, b * DAY_MS, day, k)
       <==> a <= day < b && InGroup(q, e, day * DAY_MS, (day + 1) * DAY_MS, day, k)
  {
    DayBounds(q.ts(e), day);
  }

  lemma AlignedKey<E, K, R>(q: Query<E, K, R>, log: seq<E>, a: int, b: int, day: int, k: K)
    ensures (day, k) in GroupBy(q, log, a * DAY_MS, b * DAY_MS) <==> a <= day < b && (day, k) in Direct(q, log, day)
    ensures (day, k) in GroupBy(q, log, a * DAY_MS, b * DAY_MS)
            ==> GroupBy(q, log, a * DAY_MS, b * DAY_MS)[(day, k)] == Direct(q, log, day)[(day, k)]
  {
    hide Group, InGroup, DayOf, Keys;
    var from, to := a * DAY_MS, b * DAY_MS;
    KeyWitness(q, log, from, to, (day, k));
    KeyWitness(q, log, day * DAY_MS, (day + 1) * DAY_MS, (day, k));
    forall i | 0 <= i < |log|
      ensures InGroup(q, log[i], from, to, day, k)
         <==> a <= day < b && InGroup(q, log[i], day * DAY_MS, (day + 1) * DAY_MS, day, k)
    {
      AlignedGroup(q, log[i], a, b, day, k);
    }
    if a <= day < b {
      SameGroup(q, log, from, to, day, k);
    }
  }

  lemma DirectKeys<E, K, R>(q: Query<E, K, R>, log: seq<E>, day: int, dk: (int, K))
    requires dk in Direct(q, log, day)
    ensures dk.0 == day
  {
    KeyWitness(q, log, day * DAY_MS, (day + 1) * DAY_MS, dk);
    var i :| 0 <= i < |log| && InGroup(q, log[i], day * DAY_MS, (day + 1) * DAY_MS, dk.0, dk.1);
    DayBounds(q.ts(log[i]), day);
  }

  lemma MapsEqual<A, B>(x: map<A, B>, y: map<A, B>)
    requires forall a | a in x :: a in y && x[a] == y[a]
    requires forall a | a in y :: a in x
    ensures x == y
  {
  }

  /** A range of whole days computes for each of its days that day's direct group-by. */
  lemma AlignedRange<E, K, R>(q: Query<E, K, R>, log: seq<E>, a: int, b: int, day: int)
    ensures DayRows(GroupBy(q, log, a * DAY_MS, b * DAY_MS), day)
         == if a <= day < b then Direct(q, log, day) else map[]
  {
    hide GroupBy, Direct;
    var whole, direct := GroupBy(q, log, a * DAY_MS, b * DAY_MS), Direct(q, log, day);
    var rows, expected := DayRows(whole, day), if a <= day < b then direct else map[];
    forall dk | dk in rows
      ensures dk in expected && rows[dk] == expected[dk]
    {
      assert dk == (day, dk.1);
      AlignedKey(q, log, a, b, day, dk.1);
    }
    forall dk | dk in expected
      ensures dk in rows
    {
      DirectKeys(q, log, day, dk);
      assert dk == (day, dk.1);
      AlignedKey(q, log, a, b, day, dk.1);
    }
    MapsEqual(rows, expected);
  }

  // ------------------------------------------------------------- the statement

  /** What a rollup leaves of a day: in its range the rows grouped from the log, elsewhere the old ones. */
  lemma RollUpByDay<E, K, R>(q: Query<E, K, R>, table: Rows<K, R>, log: seq<E>, a: int, b: int, day: int)
    ensures DayRows(RollUp(q, table, log, a * DAY_MS, b * DAY_MS), day)
         == if a <= day < b then DayRows(table, day) + Direct(q, log, day) else DayRows(table, day)
  {
    hide GroupBy, Direct, DayRows;
    AlignedRange(q, log, a, b, day);
    DayRowsOfUnion(table, GroupBy(q, log, a * DAY_MS, b * DAY_MS), day);
  }

  lemma UpsertOne<K, R>(table: Rows<K, R>, grouped: Rows<K, R>, pending: set<(int, K)>, dk: (int, K))
    requires dk in pending && pending <= grouped.Keys
    ensures (table + (grouped - pending))[dk := grouped[dk]] == table + (grouped - (pending - {dk}))
  {
  }

  class RollupTable<K(==), R> {
    var rows: Rows<K, R>

    constructor ()
      ensures rows == map[]
    {
      rows := map[];
    }

    /** One statement over whole days: each grouped row is inserted, or overwrites the row of its key. */
    method RollUpDays<E>(q: Query<E, K, R>, log: seq<E>, fromDay: int, toDay: int)
      modifies this
      ensures forall day ::
                DayRows(rows, day)
                == if fromDay <= day < toDay then DayRows(old(rows), day) + Direct(q, log, day)
                   else DayRows(old(rows), day)
      ensures rows == RollUp(q, old(rows), log, fromDay * DAY_MS, toDay * DAY_MS)
    {
      hide Direct, DayRows;
      var grouped := GroupBy(q, log, fromDay * DAY_MS, toDay * DAY_MS);
      hide GroupBy;
      var pending := grouped.Keys;
      while pending != {}
        invariant pending <= grouped.Keys
        invariant rows == old(rows) + (grouped - pending)
        decreases |pending|
      {
        var dk :| dk in pending;
        UpsertOne(old(rows), grouped, pending, dk);
        pending := pending - {dk};
        rows := rows[dk := grouped[dk]];
      }
      assert grouped - {} == grouped;
      forall day: int
        ensures DayRows(rows, day)
             == if fromDay <= day < toDay then DayRows(old(rows), day) + Direct(q, log, day)
                else DayRows(old(rows), day)
      {
        RollUpByDay(q, old(rows), log, fromDay, toDay, day);
      }
    }
  }

  // ------------------------------------------------ runs of appends and rollups

  /**
   * How the raw rows may change: new ones are appended, old ones keep what the statement groups by.
   * Usage events never change otherwise; payment intents change their status.
   */
  ghost predicate Grows<E, K, R>(q: Query<E, K, R>, log: seq<E>, log': seq<E>) {
    |log| <= |log'|
    && forall i | 0 <= i < |log| :: q.ts(log'[i]) == q.ts(log[i]) && q.key(log'[i]) == q.key(log[i])
  }

  datatype Step<E> = Log(log: seq<E>) | RollUpDays(fromDay: int, toDay: int)

  /** `snapshots[d]` is the log as it stood when day `d` was last rolled up. */
  datatype State<E, K(==), R> = State(log: seq<E>, table: Rows<K, R>, snapshots: map<int, seq<E>>)

  ghost predicate Enabled<E, K, R>(q: Query<E, K, R>, s: State<E, K, R>, step: Step<E>) {
    step.Log? ==> Grows(q, s.log, step.log)
  }

  function Snapped<E>(snapshots: map<int, seq<E>>, log: seq<E>, a: int, b: int): (r: map<int, seq<E>>)
    ensures forall d :: d in r <==> d in snapshots || a <= d < b
    ensures forall d | d in r :: r[d] == if a <= d < b then log else snapshots[d]
    decreases b - a
  {
    if b <= a then snapshots else Snapped(snapshots, log, a, b - 1)[b - 1 := log]
  }

  function Apply<E, K(==), R>(q: Query<E, K, R>, s: State<E, K, R>, step: Step<E>): State<E, K, R> {
    match step
    case Log(log) => s.(log := log)
    case RollUpDays(a, b) =>
      s.(table := RollUp(q, s.table, s.log, a * DAY_MS, b * DAY_MS),
         snapshots := Snapped(s.snapshots, s.log, a, b))
  }

  ghost predicate DayAgrees<E, K, R>(q: Query<E, K, R>, s: State<E, K, R>, day: int) {
    if day in s.snapshots then
      Grows(q, s.snapshots[day], s.log) && DayRows(s.table, day) == Direct(q, s.snapshots[day], day)
    else DayRows(s.table, day) == map[]
  }

  lemma GroupsNeverVanish<E, K, R>(q: Query<E, K, R>, log: seq<E>, log': seq<E>, day: int)
    requires Grows(q, log, log')
    ensures Direct(q, log, day).Keys <= Direct(q, log', day).Keys
  {
    forall dk | dk in Direct(q, log, day)
      ensures dk in Direct(q, log', day)
    {
      KeyWitness(q, log, day * DAY_MS, (day + 1) * DAY_MS, dk);
      KeyWitness(q, log', day * DAY_MS, (day + 1) * DAY_MS, dk);
      var i :| 0 <= i < |log| && InGroup(q, log[i], day * DAY_MS, (day + 1) * DAY_MS, dk.0, dk.1);
      assert InGroup(q, log'[i], day * DAY_MS, (day + 1) * DAY_MS, dk.0, dk.1);
    }
  }

  lemma DayRowsOfUnion<K, R>(a: Rows<K, R>, b: Rows<K, R>, day: int)
    ensures DayRows(a + b, day) == DayRows(a, day) + DayRows(b, day)
  {
  }

  lemma UnionCovers<K, R>(a: Rows<K, R>, b: Rows<K, R>)
    requires a.Keys <= b.Keys
    ensures a + b == b
  {
  }

  lemma GrowsSelf<E, K, R>(q: Query<E, K, R>, log: seq<E>)
    ensures Grows(q, log, log)
  {
  }

  lemma StepKeepsDay<E, K, R>(q: Query<E, K, R>, s: State<E, K, R>, step: Step<E>, day: int)
    requires Enabled(q, s, step) && DayAgrees(q, s, day)
    ensures DayAgrees(q, Apply(q, s, step), day)
  {
    if step.RollUpDays? {
      hide GroupBy, Direct, DayRows, RollUp, Grows;
      var RollUpDays(a, b) := step;
      RollUpByDay(q, s.table, s.log, a, b, day);
      GrowsSelf(q, s.log);
      if a <= day < b {
        if day in s.snapshots {
          GroupsNeverVanish(q, s.snapshots[day], s.log, day);
        }
        UnionCovers(DayRows(s.table, day), Direct(q, s.log, day));
      }
    }
  }

  ghost predicate Runs<E, K, R>(q: Query<E, K, R>, s: State<E, K, R>, steps: seq<Step<E>>)
    decreases |steps|
  {
    steps == [] || (Enabled(q, s, steps[0]) && Runs(q, Apply(q, s, steps[0]), steps[1..]))
  }

  function Run<E, K(==), R>(q: Query<E, K, R>, s: State<E, K, R>, steps: seq<Step<E>>): State<E, K, R>
    decreases |steps|
  {
    if steps == [] then s else Run(q, Apply(q, s, steps[0]), steps[1..])
  }

  /**
   * After any run the rows of each day are the direct group-by of the log as it stood when that day
   * was last rolled up: none missing, none stale.
   */
  lemma {:induction false} RollupAgreesWithLog<E, K, R>(
    q: Query<E, K, R>, s: State<E, K, R>, steps: seq<Step<E>>, day: int)
    requires Runs(q, s, steps) && DayAgrees(q, s, day)
    ensures DayAgrees(q, Run(q, s, steps), day)
    decreases |steps|
  {
    if steps != [] {
      hide DayAgrees;
      StepKeepsDay(q, s, steps[0], day);
      RollupAgreesWithLog(q, Apply(q, s, steps[0]), steps[1..], day);
    }
  }

  /** From an empty table, whatever was logged before, no row is missing and none is stale. */
  lemma RollupFromEmptyTable<E, K, R>(q: Query<E, K, R>, log: seq<E>, steps: seq<Step<E>>, day: int)
    requires Runs(q, State(log, map[], map[]), steps)
    ensures var end := Run(q, State(log, map[], map[]), steps);
            DayRows(end.table, day)
            == if day in end.snapshots then Direct(q, end.snapshots[day], day) else map[]
  {
    hide Run, Runs;
    EmptyTableAgrees(q, log, day);
    RollupAgreesWithLog(q, State(log, map[], map[]), steps, day);
  }

  /** Rolling up a day after the log has grown shows the grown log, whatever the table held. */
  lemma RollupShowsLatestLog<E, K, R>(q: Query<E, K, R>, s: State<E, K, R>, log: seq<E>, a: int, b: int, day: int)
    requires Grows(q, s.log, log) && DayAgrees(q, s, day) && a <= day < b
    ensures var steps := [Log(log), RollUpDays(a, b)];
            && Runs(q, s, steps)
            && Run(q, s, steps).log == log && DayRows(Run(q, s, steps).table, day) == Direct(q, log, day)
  {
    var steps := [Log(log), RollUpDays(a, b)];
    var s1 := Apply(q, s, steps[0]);
    assert steps[1..] == [RollUpDays(a, b)] && steps[1..][1..] == [];
    assert Runs(q, Apply(q, s1, steps[1]), []);
    assert Runs(q, s1, steps[1..]);
    RollupAgreesWithLog(q, s, steps, day);
    assert Run(q, s, steps) == Run(q, s1, steps[1..]) == Apply(q, s1, RollUpDays(a, b));
    hide DayAgrees, Direct, DayRows;
    DayOfLatest(q, Apply(q, s1, RollUpDays(a, b)), log, day);
  }

  lemma DayOfLatest<E, K, R>(q: Query<E, K, R>, s: State<E, K, R>, log: seq<E>, day: int)
    requires DayAgrees(q, s, day) && day in s.snapshots && s.snapshots[day] == log
    ensures DayRows(s.table, day) == Direct(q, log, day)
  {
  }

  lemma EmptyTableAgrees<E, K, R>(q: Query<E, K, R>, log: seq<E>, day: int)
    ensures DayAgrees(q, State(log, map[], map[]), day)
  {
  }

  lemma SplitKey<E, K, R>(q: Query<E, K, R>, log: seq<E>, a: int, b: int, c: int, dk: (int, K))
    requires a <= b <= c
    ensures var whole := GroupBy(q, log, a * DAY_MS, c * DAY_MS);
            var both := GroupBy(q, log, a * DAY_MS, b * DAY_MS) + GroupBy(q, log, b * DAY_MS, c * DAY_MS);
            (dk in whole <==> dk in both) && (dk in whole ==> whole[dk] == both[dk])
  {
    hide GroupBy, Direct;
    assert dk == (dk.0, dk.1);
    AlignedKey(q, log, a, b, dk.0, dk.1);
    AlignedKey(q, log, b, c, dk.0, dk.1);
    AlignedKey(q, log, a, c, dk.0, dk.1);
  }

  /** Rolling a range up in two parts, or twice over, makes no difference. */
  lemma RollupSplits<E, K, R>(q: Query<E, K, R>, table: Rows<K, R>, log: seq<E>, a: int, b: int, c: int)
    requires a <= b <= c
    ensures var x, y, z := a * DAY_MS, b * DAY_MS, c * DAY_MS;
            && RollUp(q, RollUp(q, table, log, x, y), log, y, z) == RollUp(q, table, log, x, z)
            && RollUp(q, RollUp(q, table, log, x, z), log, x, z) == RollUp(q, table, log, x, z)
  {
    hide GroupBy, Direct;
    var x, y, z := a * DAY_MS, b * DAY_MS, c * DAY_MS;
    var left, right, whole := GroupBy(q, log, x, y), GroupBy(q, log, y, z), GroupBy(q, log, x, z);
    var both := left + right;
    forall dk | dk in whole
      ensures dk in both && whole[dk] == both[dk]
    {
      SplitKey(q, log, a, b, c, dk);
    }
    forall dk | dk in both
      ensures dk in whole
    {
      SplitKey(q, log, a, b, c, dk);
    }
    MapsEqual(whole, both);
  }
}
