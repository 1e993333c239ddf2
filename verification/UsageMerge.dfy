/** The admin usage report: x402 rollup rows folded over their providers and joined onto usage rows. */
module UsageMerge {
  import opened Rollup
  import opened RollupQueries
  import PaymentIntents

  datatype Counts = Counts(created: nat, verified: nat, unpaid: nat, failed: nat, expired: nat) {
    predicate Balanced() {
      created == verified + unpaid + failed + expired
    }
  }

  function Plus(a: Counts, b: Counts): Counts {
    Counts(a.created + b.created, a.verified + b.verified, a.unpaid + b.unpaid, a.failed + b.failed,
           a.expired + b.expired)
  }

  const ZERO := Counts(0, 0, 0, 0, 0)

  datatype MergeKey = MergeKey(day: int, usage: UsageKey)

  datatype X402In = X402In(key: MergeKey, provider: string, counts: Counts)

  datatype UsageIn = UsageIn(key: MergeKey, row: UsageRow)

  datatype UsageOut = UsageOut(usage: UsageIn, x402: Counts)

  /** The x402 counts of one key, over all its rows. */
  function SumFor(x402: seq<X402In>, key: MergeKey): Counts {
    if x402 == [] then ZERO
    else
      var n := |x402| - 1;
      var rest := SumFor(x402[..n], key);
      if x402[n].key == key then Plus(rest, x402[n].counts) else rest
  }

  method AdminUsage(rows: seq<UsageIn>, x402: seq<X402In>) returns (out: seq<UsageOut>)
    ensures |out| == |rows|
    ensures forall i | 0 <= i < |rows| :: out[i] == UsageOut(rows[i], SumFor(x402, rows[i].key))
  {
    var byKey: map<MergeKey, Counts> := map[];
    var i := 0;
    while i < |x402|
      invariant 0 <= i <= |x402|
      invariant forall key :: (if key in byKey then byKey[key] else ZERO) == SumFor(x402[..i], key)
    {
      var r := x402[i];
      var entry := if r.key in byKey then byKey[r.key] else ZERO;
      assert x402[..i + 1][..i] == x402[..i];
      byKey := byKey[r.key := Counts(entry.created + r.counts.created, entry.verified + r.counts.verified,
                                     entry.unpaid + r.counts.unpaid, entry.failed + r.counts.failed,
                                     entry.expired + r.counts.expired)];
      i := i + 1;
    }
    assert x402[..i] == x402;
    out := [];
    var j := 0;
    while j < |rows|
      invariant 0 <= j <= |rows| && |out| == j
      invariant forall k | 0 <= k < j :: out[k] == UsageOut(rows[k], SumFor(x402, rows[k].key))
    {
      var r := rows[j];
      out := out + [UsageOut(r, if r.key in byKey then byKey[r.key] else ZERO)];
      j := j + 1;
    }
  }

  // -------------------------------------------------------- the order of rows

  lemma SumAppend(init: seq<X402In>, last: X402In, key: MergeKey)
    ensures SumFor(init + [last], key)
         == if last.key == key then Plus(SumFor(init, key), last.counts) else SumFor(init, key)
  {
    assert (init + [last])[..|init|] == init;
  }

  lemma {:induction false} SumWithout(x402: seq<X402In>, j: nat, key: MergeKey)
    requires j < |x402|
    ensures SumFor(x402, key)
         == if x402[j].key == key then Plus(SumFor(x402[..j] + x402[j + 1..], key), x402[j].counts)
            else SumFor(x402[..j] + x402[j + 1..], key)
  {
    var n := |x402| - 1;
    var without := x402[..j] + x402[j + 1..];
    if j == n {
      assert without == x402[..n];
    } else {
      SumWithout(x402[..n], j, key);
      assert without[..n - 1] == x402[..n][..j] + x402[..n][j + 1..];
      assert without[n - 1] == x402[n];
    }
  }

  lemma SameRowsWithout(init: seq<X402In>, last: X402In, b: seq<X402In>) returns (j: nat)
    requires multiset(init + [last]) == multiset(b)
    ensures j < |b| && b[j] == last && multiset(init) == multiset(b[..j] + b[j + 1..])
  {
    assert multiset(init + [last]) == multiset(init) + multiset{last};
    assert last in multiset(b);
    j :| 0 <= j < |b| && b[j] == last;
    assert b == b[..j] + [last] + b[j + 1..];
    var rest := multiset(b[..j] + b[j + 1..]);
    assert rest == multiset(b[..j]) + multiset(b[j + 1..]);
    assert multiset(init) + multiset{last} == rest + multiset{last};
    assert multiset(init) == multiset(init) + multiset{last} - multiset{last};
    assert rest == rest + multiset{last} - multiset{last};
  }

  /** The report does not depend on the order in which the x402 rows arrive. */
  lemma {:induction false} MergeIgnoresOrder(a: seq<X402In>, b: seq<X402In>, key: MergeKey)
    requires multiset(a) == multiset(b)
    ensures SumFor(a, key) == SumFor(b, key)
    decreases |a|
  {
    hide SumFor, Plus;
    if a == [] {
      assert |multiset(b)| == 0;
      assert b == [];
    } else {
      var init, last := a[..|a| - 1], a[|a| - 1];
      assert a == init + [last];
      var j := SameRowsWithout(init, last, b);
      MergeIgnoresOrder(init, b[..j] + b[j + 1..], key);
      SumWithout(b, j, key);
      SumAppend(init, last, key);
    }
  }

  lemma {:induction false} SumBalanced(x402: seq<X402In>, key: MergeKey)
    requires forall r | r in x402 :: r.counts.Balanced()
    ensures SumFor(x402, key).Balanced()
  {
    if x402 != [] {
      var n := |x402| - 1;
      SumBalanced(x402[..n], key);
      assert x402[n] in x402;
    }
  }

  // -------------------------------------------------------- totals of the report

  function TotalOut(out: seq<UsageOut>): Counts {
    if out == [] then ZERO else Plus(TotalOut(out[..|out| - 1]), out[|out| - 1].x402)
  }

  /** The x402 rows whose key is among `keys`, added up. */
  function TotalOf(x402: seq<X402In>, keys: set<MergeKey>): Counts {
    if x402 == [] then ZERO
    else
      var n := |x402| - 1;
      var rest := TotalOf(x402[..n], keys);
      if x402[n].key in keys then Plus(rest, x402[n].counts) else rest
  }

  function KeysOf(rows: seq<UsageIn>): set<MergeKey> {
    set i | 0 <= i < |rows| :: rows[i].key
  }

  lemma PlusMoves(a: Counts, b: Counts, c: Counts)
    ensures Plus(Plus(a, b), c) == Plus(Plus(a, c), b) == Plus(a, Plus(b, c))
  {
  }

  lemma TotalAppend(init: seq<X402In>, last: X402In, keys: set<MergeKey>)
    ensures TotalOf(init + [last], keys)
         == if last.key in keys then Plus(TotalOf(init, keys), last.counts) else TotalOf(init, keys)
  {
    assert (init + [last])[..|init|] == init;
  }

  lemma NoRows(x402: seq<X402In>, keys: set<MergeKey>, key: MergeKey)
    requires x402 == []
    ensures TotalOf(x402, keys) == ZERO && SumFor(x402, key) == ZERO
  {
  }

  lemma PlusZero(a: Counts)
    ensures Plus(a, ZERO) == a
  {
  }

  lemma {:induction false} OneMoreKey(x402: seq<X402In>, keys: set<MergeKey>, key: MergeKey)
    requires key !in keys
    ensures TotalOf(x402, keys + {key}) == Plus(TotalOf(x402, keys), SumFor(x402, key))
  {
    hide Plus, TotalOf, SumFor;
    if x402 == [] {
      NoRows(x402, keys, key);
      NoRows(x402, keys + {key}, key);
      PlusZero(TotalOf(x402, keys));
    } else {
      var n := |x402| - 1;
      var init, last, more := x402[..n], x402[n], keys + {key};
      assert x402 == init + [last];
      OneMoreKey(init, keys, key);
      TotalAppend(init, last, more);
      TotalAppend(init, last, keys);
      SumAppend(init, last, key);
      PlusMoves(TotalOf(init, keys), SumFor(init, key), last.counts);
    }
  }

  lemma {:induction false} NoKeys(x402: seq<X402In>)
    ensures TotalOf(x402, {}) == ZERO
  {
    if x402 != [] {
      NoKeys(x402[..|x402| - 1]);
    }
  }

  /** The primary key of the usage table: no two of its rows agree on it. */
  ghost predicate DistinctKeys(rows: seq<UsageIn>) {
    forall i, j | 0 <= i < j < |rows| :: rows[i].key != rows[j].key
  }

  ghost predicate Report(rows: seq<UsageIn>, x402: seq<X402In>, out: seq<UsageOut>) {
    |out| == |rows| && forall i | 0 <= i < |rows| :: out[i] == UsageOut(rows[i], SumFor(x402, rows[i].key))
  }

  lemma KeysAppend(init: seq<UsageIn>, last: UsageIn)
    ensures KeysOf(init + [last]) == KeysOf(init) + {last.key}
  {
    var rows := init + [last];
    forall k | k in KeysOf(init) + {last.key}
      ensures k in KeysOf(rows)
    {
      if k == last.key {
        assert rows[|init|].key == k;
      } else {
        var i :| 0 <= i < |init| && init[i].key == k;
        assert rows[i].key == k;
      }
    }
  }

  lemma NewKey(init: seq<UsageIn>, last: UsageIn)
    requires DistinctKeys(init + [last])
    ensures DistinctKeys(init) && last.key !in KeysOf(init)
  {
    var rows := init + [last];
    assert forall i | 0 <= i < |init| :: rows[i] == init[i];
    assert rows[|init|] == last;
  }

  /** The report's x402 totals are those of exactly the x402 rows whose key has a usage row. */
  lemma {:induction false} ReportTotals(rows: seq<UsageIn>, x402: seq<X402In>, out: seq<UsageOut>)
    requires Report(rows, x402, out) && DistinctKeys(rows)
    ensures TotalOut(out) == TotalOf(x402, KeysOf(rows))
  {
    if rows == [] {
      NoKeys(x402);
      assert KeysOf(rows) == {};
    } else {
      hide SumFor, TotalOf, Plus, KeysOf, DistinctKeys;
      var n := |rows| - 1;
      var init, last := rows[..n], rows[n];
      assert rows == init + [last];
      NewKey(init, last);
      ReportTotals(init, x402, out[..n]);
      KeysAppend(init, last);
      OneMoreKey(x402, KeysOf(init), last.key);
    }
  }

  // ------------------------------------------------ from the raw rows to the report

  function CountsOf(row: X402Row): Counts {
    Counts(row.created, row.verified, row.unpaid, row.failed, row.expired)
  }

  function TableKey(r: X402In): (int, X402Key) {
    (r.key.day, X402Key(r.key.usage, r.provider))
  }

  /** `rows` are the rows of the usage table, in some order. */
  ghost predicate ListsUsage(rows: seq<UsageIn>, table: Rows<UsageKey, UsageRow>) {
    && DistinctKeys(rows)
    && (forall key :: key in KeysOf(rows) <==> (key.day, key.usage) in table)
    && (forall r | r in rows :: (r.key.day, r.key.usage) in table && r.row == table[(r.key.day, r.key.usage)])
  }

  /** `x402` are the rows of the x402 table, in some order. */
  ghost predicate ListsX402(x402: seq<X402In>, table: Rows<X402Key, X402Row>) {
    && (forall i, j | 0 <= i < j < |x402| :: TableKey(x402[i]) != TableKey(x402[j]))
    && (forall r | r in x402 :: TableKey(r) in table && r.counts == CountsOf(table[TableKey(r)]))
    && (forall dk | dk in table :: exists r :: r in x402 && TableKey(r) == dk)
  }

  /** The counts of every report row balance, as those of the rolled-up rows do. */
  lemma MergeBalanced(owners: Owners, intents: seq<Intent>, from: int, to: int, x402: seq<X402In>, key: MergeKey)
    requires ListsX402(x402, GroupBy(X402UsageDaily(owners), intents, from, to))
    ensures SumFor(x402, key).Balanced()
  {
    forall r | r in x402
      ensures r.counts.Balanced()
    {
      var (day, k) := TableKey(r);
      X402RowBalanced(Group(X402UsageDaily(owners), intents, from, to, day, k));
    }
    SumBalanced(x402, key);
  }

  /** The intents in the range whose key has an owner: those the x402 rollup counts. */
  ghost function JoinedIntents(owners: Owners, intents: seq<Intent>, from: int, to: int): set<nat> {
    set i: nat | i < |intents| && from <= intents[i].row.ts < to && intents[i].row.virtualKey in owners
  }

  /** The day, owner, key and partner an intent is reported under. */
  function UsageKeyOf(owners: Owners, intent: Intent): MergeKey
    requires intent.row.virtualKey in owners
  {
    MergeKey(intent.row.ts / 86_400_000,
             UsageKey(owners[intent.row.virtualKey], intent.row.virtualKey, intent.row.partner))
  }

  /** A usage event in the range of the intent's day, key and partner. */
  ghost predicate HasUsage(log: seq<UsageEvent>, from: int, to: int, intent: Intent) {
    exists e :: 0 <= e < |log|
      && UsageOn(log[e], from, to, intent.row.ts / 86_400_000, intent.row.virtualKey, intent.row.partner)
  }

  /** How many of some intents there are, and how many of each status. */
  ghost function CountsBy(intents: seq<Intent>, ids: set<nat>): Counts {
    Counts(|ids|, |WithStatus(intents, ids, PaymentIntents.Verified)|,
           |WithStatus(intents, ids, PaymentIntents.Pending)|, |WithStatus(intents, ids, PaymentIntents.Failed)|,
           |WithStatus(intents, ids, PaymentIntents.Expired)|)
  }

  ghost function WithStatus(intents: seq<Intent>, ids: set<nat>, status: PaymentIntents.Status): set<nat> {
    set i | i in ids && i < |intents| && intents[i].row.status == status
  }

  lemma StatusesAdd(intents: seq<Intent>, a: set<nat>, b: set<nat>, status: PaymentIntents.Status)
    requires a !! b
    ensures |WithStatus(intents, a + b, status)| == |WithStatus(intents, a, status)| + |WithStatus(intents, b, status)|
  {
    assert WithStatus(intents, a + b, status) == WithStatus(intents, a, status) + WithStatus(intents, b, status);
  }

  lemma CountsAdd(intents: seq<Intent>, a: set<nat>, b: set<nat>)
    requires a !! b
    ensures CountsBy(intents, a + b) == Plus(CountsBy(intents, a), CountsBy(intents, b))
  {
    StatusesAdd(intents, a, b, PaymentIntents.Verified);
    StatusesAdd(intents, a, b, PaymentIntents.Pending);
    StatusesAdd(intents, a, b, PaymentIntents.Failed);
    StatusesAdd(intents, a, b, PaymentIntents.Expired);
    hide WithStatus;
  }

  /** The joined intents with a row in `x402` whose key is among `keys`. */
  ghost function Counted(
    owners: Owners, intents: seq<Intent>, from: int, to: int, x402: seq<X402In>, keys: set<MergeKey>): set<nat>
  {
    set i | i in JoinedIntents(owners, intents, from, to) && UsageKeyOf(owners, intents[i]) in keys
            && exists r :: r in x402 && r.key == UsageKeyOf(owners, intents[i]) && r.provider == intents[i].provider
  }

  /** The intents behind one x402 row. */
  ghost function Behind(owners: Owners, intents: seq<Intent>, from: int, to: int, r: X402In): set<nat> {
    set i | i in JoinedIntents(owners, intents, from, to)
            && r.key == UsageKeyOf(owners, intents[i]) && r.provider == intents[i].provider
  }

  ghost predicate RowOf(owners: Owners, intents: seq<Intent>, from: int, to: int, r: X402In) {
    var table := GroupBy(X402UsageDaily(owners), intents, from, to);
    TableKey(r) in table && r.counts == CountsOf(table[TableKey(r)])
  }

  /** A row of the x402 table counts the intents behind it. */
  lemma RowCountsBehind(owners: Owners, intents: seq<Intent>, from: int, to: int, r: X402In)
    requires RowOf(owners, intents, from, to, r)
    ensures r.counts == CountsBy(intents, Behind(owners, intents, from, to, r))
  {
    var UsageKey(c, vk, partner) := r.key.usage;
    var all := {PaymentIntents.Pending, PaymentIntents.Verified, PaymentIntents.Failed, PaymentIntents.Expired};
    X402RowMeaning(owners, intents, from, to, r.key.day, c, vk, partner, r.provider);
    var behind := Behind(owners, intents, from, to, r);
    BehindByStatus(owners, intents, from, to, r);
    hide GroupBy, Behind, Intents, WithStatus;
  }

  lemma BehindByStatus(owners: Owners, intents: seq<Intent>, from: int, to: int, r: X402In)
    requires var key := r.key.usage; key.virtualKey in owners && owners[key.virtualKey] == key.customer
    ensures var key, behind := r.key.usage, Behind(owners, intents, from, to, r);
            && (forall status: PaymentIntents.Status ::
                  Intents(intents, from, to, r.key.day, key.virtualKey, key.partner, r.provider, {status})
                  == WithStatus(intents, behind, status))
            && Intents(intents, from, to, r.key.day, key.virtualKey, key.partner, r.provider,
                       {PaymentIntents.Pending, PaymentIntents.Verified, PaymentIntents.Failed, PaymentIntents.Expired})
               == behind
  {
  }

  lemma CountedAppend(
    owners: Owners, intents: seq<Intent>, from: int, to: int, init: seq<X402In>, last: X402In, keys: set<MergeKey>)
    requires forall r | r in init :: TableKey(r) != TableKey(last)
    ensures var before := Counted(owners, intents, from, to, init, keys);
            var all := Counted(owners, intents, from, to, init + [last], keys);
            var behind := Behind(owners, intents, from, to, last);
            if last.key in keys then all == before + behind && before !! behind else all == before
  {
    var all := Counted(owners, intents, from, to, init + [last], keys);
    var before := Counted(owners, intents, from, to, init, keys);
    hide JoinedIntents, UsageKeyOf;
    forall i: nat
      ensures i in all <==> i in before || (last.key in keys && i in Behind(owners, intents, from, to, last))
      ensures !(i in before && i in Behind(owners, intents, from, to, last))
    {
    }
  }

  /** The totals of the x402 rows are the numbers of the intents behind them. */
  lemma {:induction false} TotalIsCounted(
    owners: Owners, intents: seq<Intent>, from: int, to: int, x402: seq<X402In>, keys: set<MergeKey>)
    requires forall r | r in x402 :: RowOf(owners, intents, from, to, r)
    requires forall i, j | 0 <= i < j < |x402| :: TableKey(x402[i]) != TableKey(x402[j])
    ensures TotalOf(x402, keys) == CountsBy(intents, Counted(owners, intents, from, to, x402, keys))
  {
    hide RowOf, Behind, CountsBy, Counted, TotalOf;
    if x402 == [] {
      NothingCounted(owners, intents, from, to, keys);
    } else {
      var n := |x402| - 1;
      var init, last := x402[..n], x402[n];
      assert x402 == init + [last];
      TotalIsCounted(owners, intents, from, to, init, keys);
      RowCountsBehind(owners, intents, from, to, last);
      CountedAppend(owners, intents, from, to, init, last, keys);
      TotalAppend(init, last, keys);
      if last.key in keys {
        CountsAdd(intents, Counted(owners, intents, from, to, init, keys), Behind(owners, intents, from, to, last));
      }
    }
  }

  lemma NothingCounted(owners: Owners, intents: seq<Intent>, from: int, to: int, keys: set<MergeKey>)
    ensures TotalOf([], keys) == CountsBy(intents, Counted(owners, intents, from, to, [], keys))
  {
    assert Counted(owners, intents, from, to, [], keys) == {};
    assert forall status: PaymentIntents.Status :: WithStatus(intents, {}, status) == {};
  }

  /** The joined intents that have usage to be reported with. */
  ghost function Reported(owners: Owners, log: seq<UsageEvent>, intents: seq<Intent>, from: int, to: int): set<nat> {
    set i | i in JoinedIntents(owners, intents, from, to) && HasUsage(log, from, to, intents[i])
  }

  lemma ReportedIsCounted(
    owners: Owners, log: seq<UsageEvent>, intents: seq<Intent>, from: int, to: int,
    rows: seq<UsageIn>, x402: seq<X402In>)
    requires ListsUsage(rows, GroupBy(UsageDaily(owners), log, from, to))
    requires ListsX402(x402, GroupBy(X402UsageDaily(owners), intents, from, to))
    ensures Counted(owners, intents, from, to, x402, KeysOf(rows)) == Reported(owners, log, intents, from, to)
  {
    forall i | i in JoinedIntents(owners, intents, from, to)
      ensures UsageKeyOf(owners, intents[i]) in KeysOf(rows) <==> HasUsage(log, from, to, intents[i])
      ensures exists r :: r in x402 && r.key == UsageKeyOf(owners, intents[i]) && r.provider == intents[i].provider
    {
      hide GroupBy, KeysOf, UsageOn;
      var row, key := intents[i].row, UsageKeyOf(owners, intents[i]);
      UsageRowExists(owners, log, from, to, key.day, key.usage.customer, row.virtualKey, row.partner);
      RowOfIntent(owners, intents, from, to, i);
    }
    hide GroupBy, ListsUsage, ListsX402, HasUsage, JoinedIntents, UsageKeyOf;
  }

  lemma RowOfIntent(owners: Owners, intents: seq<Intent>, from: int, to: int, i: nat)
    requires i in JoinedIntents(owners, intents, from, to)
    ensures var key := UsageKeyOf(owners, intents[i]);
            (key.day, X402Key(key.usage, intents[i].provider)) in GroupBy(X402UsageDaily(owners), intents, from, to)
  {
    hide GroupBy;
    var row, key := intents[i].row, UsageKeyOf(owners, intents[i]);
    assert IntentOn(intents[i], from, to, key.day, row.virtualKey, row.partner, intents[i].provider);
    X402RowExists(owners, intents, from, to, key.day, key.usage.customer, row.virtualKey, row.partner,
                  intents[i].provider);
  }

  /**
   * The report counts exactly the intents in its range that have a usage event of the same key,
   * partner and day, in all and by status.
   */
  lemma ReportCountsIntents(
    owners: Owners, log: seq<UsageEvent>, intents: seq<Intent>, from: int, to: int,
    rows: seq<UsageIn>, x402: seq<X402In>, out: seq<UsageOut>)
    requires ListsUsage(rows, GroupBy(UsageDaily(owners), log, from, to))
    requires ListsX402(x402, GroupBy(X402UsageDaily(owners), intents, from, to))
    requires Report(rows, x402, out)
    ensures TotalOut(out) == CountsBy(intents, Reported(owners, log, intents, from, to))
  {
    ReportTotals(rows, x402, out);
    TotalIsCounted(owners, intents, from, to, x402, KeysOf(rows));
    ReportedIsCounted(owners, log, intents, from, to, rows, x402);
  }

  lemma {:induction false} SameSize<T>(a: set<T>, b: set<T>)
    requires a <= b
    ensures |a| <= |b| && (|a| == |b| <==> a == b)
  {
    assert b == a + (b - a);
  }

  /**
   * The report counts every intent of its range exactly when each has a usage event of the same day,
   * key and partner.
   */
  lemma ReportLosesNothingExactly(
    owners: Owners, log: seq<UsageEvent>, intents: seq<Intent>, from: int, to: int,
    rows: seq<UsageIn>, x402: seq<X402In>, out: seq<UsageOut>)
    requires ListsUsage(rows, GroupBy(UsageDaily(owners), log, from, to))
    requires ListsX402(x402, GroupBy(X402UsageDaily(owners), intents, from, to))
    requires Report(rows, x402, out)
    ensures TotalOut(out).created <= |JoinedIntents(owners, intents, from, to)|
    ensures TotalOut(out).created == |JoinedIntents(owners, intents, from, to)|
       <==> forall i | i in JoinedIntents(owners, intents, from, to) :: HasUsage(log, from, to, intents[i])
  {
    hide GroupBy, ListsUsage, ListsX402, Report, HasUsage;
    ReportCountsIntents(owners, log, intents, from, to, rows, x402, out);
    SameSize(Reported(owners, log, intents, from, to), JoinedIntents(owners, intents, from, to));
  }

  /** A request answered 402 leaves an intent and no usage event: the report does not show it. */
  lemma UnpaidRequestIsLost(
    owners: Owners, req: PaymentIntents.Request, provider: string, now: int, from: int, to: int,
    rows: seq<UsageIn>, x402: seq<X402In>, out: seq<UsageOut>)
    requires from <= now < to && req.virtualKey in owners
    requires var intents := [Intent(PaymentIntents.NewIntent(req, now), provider)];
             ListsX402(x402, GroupBy(X402UsageDaily(owners), intents, from, to))
    requires ListsUsage(rows, GroupBy(UsageDaily(owners), [], from, to)) && Report(rows, x402, out)
    ensures TotalOut(out).created == 0
    ensures |JoinedIntents(owners, [Intent(PaymentIntents.NewIntent(req, now), provider)], from, to)| == 1
  {
    var intents := [Intent(PaymentIntents.NewIntent(req, now), provider)];
    ReportCountsIntents(owners, [], intents, from, to, rows, x402, out);
    assert Reported(owners, [], intents, from, to) == {};
    assert JoinedIntents(owners, intents, from, to) == {0};
  }
}
