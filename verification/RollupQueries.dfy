/** The four rollup statements, and what ties their tables together. */
module RollupQueries {
  import opened Prelude
  import opened Rollup
  import PaymentIntents

  // ------------------------------------------------------------ usage events

  datatype UsageEvent = UsageEvent(ts: int, virtualKey: nat, partner: string, forwarded: bool,
                                   blockedReason: Option<string>, status: Option<int>)
  {
    predicate StatusIn(low: int, high: int) {
      status.Some? && low <= status.value <= high
    }

    predicate Errs() {
      blockedReason.Some? || status == None || status.value >= 400
    }

    function Bucket(): string {
      if blockedReason.Some? then "blocked:" + blockedReason.value
      else if status == Some(504) then "upstream_timeout"
      else if status == Some(502) then "upstream_bad_gateway"
      else if StatusIn(500, 599) then "upstream_5xx"
      else if StatusIn(400, 499) then "upstream_4xx"
      else "other"
    }
  }

  /** Which customer a virtual key belongs to: the join partner. */
  type Owners = map<nat, nat>

  datatype UsageKey = UsageKey(customer: nat, virtualKey: nat, partner: string)

  datatype ErrorKey = ErrorKey(usage: UsageKey, bucket: string)

  datatype UsageRow = UsageRow(total: nat, forwarded: nat, blocked: nat, s2xx: nat, s3xx: nat, s4xx: nat, s5xx: nat)

  function Count<E>(es: seq<E>, p: E -> bool): nat {
    if es == [] then 0
    else
      var n := |es| - 1;
      Count(es[..n], p) + if p(es[n]) then 1 else 0
  }

  function Within(low: int, high: int): UsageEvent -> bool {
    (e: UsageEvent) => e.StatusIn(low, high)
  }

  function JoinedKey(owners: Owners, virtualKey: nat, partner: string): Option<UsageKey> {
    if virtualKey in owners then Some(UsageKey(owners[virtualKey], virtualKey, partner)) else None
  }

  function UsageAgg(es: seq<UsageEvent>): UsageRow {
    UsageRow(|es|, Count(es, (e: UsageEvent) => e.forwarded), Count(es, (e: UsageEvent) => e.blockedReason.Some?),
             Count(es, Within(200, 299)), Count(es, Within(300, 399)),
             Count(es, Within(400, 499)), Count(es, Within(500, 599)))
  }

  function UsageDaily(owners: Owners): Query<UsageEvent, UsageKey, UsageRow> {
    Query((e: UsageEvent) => e.ts, (e: UsageEvent) => JoinedKey(owners, e.virtualKey, e.partner), UsageAgg)
  }

  function ErrorDaily(owners: Owners): Query<UsageEvent, ErrorKey, nat> {
    Query((e: UsageEvent) => e.ts,
          (e: UsageEvent) => if e.Errs() && JoinedKey(owners, e.virtualKey, e.partner).Some?
                             then Some(ErrorKey(JoinedKey(owners, e.virtualKey, e.partner).value, e.Bucket()))
                             else None,
          (es: seq<UsageEvent>) => |es|)
  }

  // ------------------------------------------------------------- x402 tables

  /** A payment intent with the provider column the protocol itself does not look at. */
  datatype Intent = Intent(row: PaymentIntents.Row, provider: string)

  datatype X402Key = X402Key(usage: UsageKey, provider: string)

  datatype X402Row = X402Row(created: nat, verified: nat, failed: nat, expired: nat, unpaid: nat)

  function HasStatus(status: PaymentIntents.Status): Intent -> bool {
    (i: Intent) => i.row.status == status
  }

  function X402Agg(rows: seq<Intent>): X402Row {
    X402Row(|rows|, Count(rows, HasStatus(PaymentIntents.Verified)), Count(rows, HasStatus(PaymentIntents.Failed)),
            Count(rows, HasStatus(PaymentIntents.Expired)), Count(rows, HasStatus(PaymentIntents.Pending)))
  }

  function X402UsageDaily(owners: Owners): Query<Intent, X402Key, X402Row> {
    Query((i: Intent) => i.row.ts,
          (i: Intent) => if JoinedKey(owners, i.row.virtualKey, i.row.partner).Some?
                         then Some(X402Key(JoinedKey(owners, i.row.virtualKey, i.row.partner).value, i.provider))
                         else None,
          X402Agg)
  }

  datatype X402Event = X402Event(ts: int, customer: nat, virtualKey: nat, partner: string, provider: string,
                                 eventType: string)

  datatype X402ErrorKey = X402ErrorKey(x402: X402Key, bucket: string)

  function X402ErrorDaily(): Query<X402Event, X402ErrorKey, nat> {
    Query((e: X402Event) => e.ts,
          (e: X402Event) =>
            Some(X402ErrorKey(X402Key(UsageKey(e.customer, e.virtualKey, e.partner), e.provider), e.eventType)),
          (es: seq<X402Event>) => |es|)
  }

  // ------------------------------------------------------ rows of one table

  /** Every intent is counted under exactly one status. */
  lemma {:induction false} X402RowBalanced(rows: seq<Intent>)
    ensures var r := X402Agg(rows);
            r.created == r.verified + r.failed + r.expired + r.unpaid
  {
    if rows != [] {
      X402RowBalanced(rows[..|rows| - 1]);
    }
  }

  /** What the gateway writes: a forwarded request with its status, or a blocked one with its reason. */
  predicate Recorded(e: UsageEvent) {
    if e.forwarded then e.blockedReason == None && e.status.Some? else e.blockedReason.Some? && e.status == None
  }

  function ForwardedEvent(ts: int, vk: nat, partner: string, status: int): UsageEvent {
    UsageEvent(ts, vk, partner, true, None, Some(status))
  }

  function BlockedEvent(ts: int, vk: nat, partner: string, reason: string): UsageEvent {
    UsageEvent(ts, vk, partner, false, Some(reason), None)
  }

  /** The gateway's two kinds of event, and no other. */
  lemma TwoKindsRecorded(e: UsageEvent)
    ensures Recorded(e)
       <==> || (exists status :: e == ForwardedEvent(e.ts, e.virtualKey, e.partner, status))
            || (exists reason :: e == BlockedEvent(e.ts, e.virtualKey, e.partner, reason))
  {
    if Recorded(e) && e.forwarded {
      assert e == ForwardedEvent(e.ts, e.virtualKey, e.partner, e.status.value);
    } else if Recorded(e) {
      assert e == BlockedEvent(e.ts, e.virtualKey, e.partner, e.blockedReason.value);
    }
  }

  function Outside(): UsageEvent -> bool {
    (e: UsageEvent) => e.status.Some? && !e.StatusIn(200, 599)
  }

  /** Forwarded or blocked, nothing else; and forwarded splits by status class but for odd statuses. */
  lemma {:induction false} UsageRowBalanced(es: seq<UsageEvent>)
    requires forall e | e in es :: Recorded(e)
    ensures var r := UsageAgg(es);
            && r.total == r.forwarded + r.blocked
            && r.forwarded == r.s2xx + r.s3xx + r.s4xx + r.s5xx + Count(es, Outside())
  {
    if es != [] {
      var n := |es| - 1;
      UsageRowBalanced(es[..n]);
      assert es[n] in es;
    }
  }

  lemma CountAppend<E>(es: seq<E>, e: E, p: E -> bool)
    ensures Count(es + [e], p) == Count(es, p) + if p(e) then 1 else 0
  {
    assert (es + [e])[..|es|] == es;
  }

  /** The positions in the log that a group's events with property `p` come from. */
  function Positions<E, K(==), R>(
    q: Query<E, K, R>, log: seq<E>, from: int, to: int, day: int, k: K, p: E -> bool): set<nat>
  {
    set i: nat | i < |log| && InGroup(q, log[i], from, to, day, k) && p(log[i])
  }

  /** Counting in a group is counting the log's own rows that qualify. */
  lemma {:induction false} CountIsCardinality<E, K, R>(
    q: Query<E, K, R>, log: seq<E>, from: int, to: int, day: int, k: K, p: E -> bool)
    ensures Count(Group(q, log, from, to, day, k), p) == |Positions(q, log, from, to, day, k, p)|
  {
    if log == [] {
      assert Positions(q, log, from, to, day, k, p) == {};
    } else {
      hide Group, InGroup, Count, Positions;
      var init, e := log[..|log| - 1], log[|log| - 1];
      assert log == init + [e];
      CountIsCardinality(q, init, from, to, day, k, p);
      GroupAppend(q, init, e, from, to, day, k);
      var g := Group(q, init, from, to, day, k);
      CountAppend(g, e, p);
      PositionsAppend(q, init, e, from, to, day, k, p);
      assert g + [] == g;
    }
  }

  lemma PositionsAppend<E, K, R>(
    q: Query<E, K, R>, log: seq<E>, e: E, from: int, to: int, day: int, k: K, p: E -> bool)
    ensures |Positions(q, log + [e], from, to, day, k, p)|
         == |Positions(q, log, from, to, day, k, p)| + if InGroup(q, e, from, to, day, k) && p(e) then 1 else 0
  {
    hide InGroup;
    var before, longer := Positions(q, log, from, to, day, k, p), log + [e];
    var after := Positions(q, longer, from, to, day, k, p);
    var added := InGroup(q, e, from, to, day, k) && p(e);
    forall i: nat
      ensures i in after <==> i in before || (i == |log| && added)
    {
      assert i < |log| ==> longer[i] == log[i];
      assert longer[|log|] == e;
    }
    assert |log| !in before;
    hide Positions;
    assert after == if added then before + {|log|} else before;
  }

  lemma {:induction false} CountAll<E>(es: seq<E>)
    ensures |es| == Count(es, (e: E) => true)
  {
    if es != [] {
      CountAll(es[..|es| - 1]);
    }
  }

  // ----------------------------------------------- what rows mean on the raw columns

  /** The positions in the log with both properties. */
  ghost function Both<E>(log: seq<E>, p: E -> bool, q: E -> bool): set<nat> {
    set i: nat | i < |log| && p(log[i]) && q(log[i])
  }

  /** A group whose members `raw` tells: when it has a row, and how many members have a property. */
  lemma RawGroup<E, K, R>(
    q: Query<E, K, R>, log: seq<E>, from: int, to: int, day: int, k: K, raw: E -> bool, p: E -> bool, r: E -> bool)
    requires forall i | 0 <= i < |log| :: InGroup(q, log[i], from, to, day, k) <==> raw(log[i])
    requires forall i | 0 <= i < |log| :: p(log[i]) <==> r(log[i])
    ensures (day, k) in GroupBy(q, log, from, to) <==> exists i :: 0 <= i < |log| && raw(log[i])
    ensures Count(Group(q, log, from, to, day, k), p) == |Both(log, raw, r)|
  {
    hide Group, InGroup, Count;
    KeyWitness(q, log, from, to, (day, k));
    CountIsCardinality(q, log, from, to, day, k, p);
    assert Positions(q, log, from, to, day, k, p) == Both(log, raw, r);
  }

  lemma SizeOfGroup<E, K, R>(
    q: Query<E, K, R>, log: seq<E>, from: int, to: int, day: int, k: K, raw: E -> bool)
    requires forall i | 0 <= i < |log| :: InGroup(q, log[i], from, to, day, k) <==> raw(log[i])
    ensures (day, k) in GroupBy(q, log, from, to) <==> exists i :: 0 <= i < |log| && raw(log[i])
    ensures |Group(q, log, from, to, day, k)| == |Both(log, raw, raw)|
  {
    var all := (e: E) => true;
    RawGroup(q, log, from, to, day, k, raw, all, all);
    assert Both(log, raw, all) == Both(log, raw, raw);
    CountEvery(Group(q, log, from, to, day, k), all);
  }

  lemma {:induction false} CountEvery<E>(es: seq<E>, p: E -> bool)
    requires forall e | e in es :: p(e)
    ensures Count(es, p) == |es|
  {
    if es != [] {
      CountEvery(es[..|es| - 1], p);
      assert es[|es| - 1] in es;
    }
  }

  /** Events of a virtual key and partner on a day, within a range. */
  ghost predicate UsageOn(e: UsageEvent, from: int, to: int, day: int, vk: nat, partner: string) {
    from <= e.ts < to && e.ts / 86_400_000 == day && e.virtualKey == vk && e.partner == partner
  }

  ghost function UsageEvents(
    log: seq<UsageEvent>, from: int, to: int, day: int, vk: nat, partner: string, p: UsageEvent -> bool): set<nat>
  {
    set i: nat | i < |log| && UsageOn(log[i], from, to, day, vk, partner) && p(log[i])
  }

  /** A usage row exists for the owner of a key with events, and for nobody else. */
  lemma UsageRowExists(
    owners: Owners, log: seq<UsageEvent>, from: int, to: int, day: int, c: nat, vk: nat, partner: string)
    ensures (day, UsageKey(c, vk, partner)) in GroupBy(UsageDaily(owners), log, from, to)
       <==> && vk in owners && owners[vk] == c
            && exists i :: 0 <= i < |log| && UsageOn(log[i], from, to, day, vk, partner)
  {
    KeyWitness(UsageDaily(owners), log, from, to, (day, UsageKey(c, vk, partner)));
    forall i | 0 <= i < |log|
      ensures InGroup(UsageDaily(owners), log[i], from, to, day, UsageKey(c, vk, partner))
         <==> vk in owners && owners[vk] == c && UsageOn(log[i], from, to, day, vk, partner)
    {
    }
    hide InGroup, UsageOn, GroupBy;
  }

  lemma UsageColumn(
    owners: Owners, log: seq<UsageEvent>, from: int, to: int, day: int, c: nat, vk: nat, partner: string,
    p: UsageEvent -> bool, r: UsageEvent -> bool)
    requires vk in owners && owners[vk] == c && forall e: UsageEvent :: p(e) <==> r(e)
    ensures Count(Group(UsageDaily(owners), log, from, to, day, UsageKey(c, vk, partner)), p)
         == |UsageEvents(log, from, to, day, vk, partner, r)|
  {
    var raw := (e: UsageEvent) => UsageOn(e, from, to, day, vk, partner);
    RawGroup(UsageDaily(owners), log, from, to, day, UsageKey(c, vk, partner), raw, p, r);
    assert UsageEvents(log, from, to, day, vk, partner, r) == Both(log, raw, r);
  }

  /** Every column of a usage row is the number of events of its key, day and partner that qualify. */
  lemma UsageRowMeaning(
    owners: Owners, log: seq<UsageEvent>, from: int, to: int, day: int, c: nat, vk: nat, partner: string)
    requires (day, UsageKey(c, vk, partner)) in GroupBy(UsageDaily(owners), log, from, to)
    ensures var row := GroupBy(UsageDaily(owners), log, from, to)[(day, UsageKey(c, vk, partner))];
            var number := (p: UsageEvent -> bool) => |UsageEvents(log, from, to, day, vk, partner, p)|;
            && row.total == number((e: UsageEvent) => true)
            && row.forwarded == number((e: UsageEvent) => e.forwarded)
            && row.blocked == number((e: UsageEvent) => e.blockedReason.Some?)
            && row.s2xx == number((e: UsageEvent) => e.status.Some? && 200 <= e.status.value < 300)
            && row.s3xx == number((e: UsageEvent) => e.status.Some? && 300 <= e.status.value < 400)
            && row.s4xx == number((e: UsageEvent) => e.status.Some? && 400 <= e.status.value < 500)
            && row.s5xx == number((e: UsageEvent) => e.status.Some? && 500 <= e.status.value < 600)
  {
    hide Group, Count, UsageEvents, Keys, UsageOn;
    UsageRowExists(owners, log, from, to, day, c, vk, partner);
    CountAll(Group(UsageDaily(owners), log, from, to, day, UsageKey(c, vk, partner)));
    UsageColumn(owners, log, from, to, day, c, vk, partner, (e: UsageEvent) => true, (e: UsageEvent) => true);
    UsageColumn(owners, log, from, to, day, c, vk, partner,
                (e: UsageEvent) => e.forwarded, (e: UsageEvent) => e.forwarded);
    UsageColumn(owners, log, from, to, day, c, vk, partner,
                (e: UsageEvent) => e.blockedReason.Some?, (e: UsageEvent) => e.blockedReason.Some?);
    UsageColumn(owners, log, from, to, day, c, vk, partner,
                Within(200, 299), (e: UsageEvent) => e.status.Some? && 200 <= e.status.value < 300);
    UsageColumn(owners, log, from, to, day, c, vk, partner,
                Within(300, 399), (e: UsageEvent) => e.status.Some? && 300 <= e.status.value < 400);
    UsageColumn(owners, log, from, to, day, c, vk, partner,
                Within(400, 499), (e: UsageEvent) => e.status.Some? && 400 <= e.status.value < 500);
    UsageColumn(owners, log, from, to, day, c, vk, partner,
                Within(500, 599), (e: UsageEvent) => e.status.Some? && 500 <= e.status.value < 600);
  }

  /** Of the events of a key, day and partner those that were blocked, unanswered or answered from 400 up. */
  ghost predicate ErrorOn(
    e: UsageEvent, from: int, to: int, day: int, vk: nat, partner: string, bucket: string)
  {
    && UsageOn(e, from, to, day, vk, partner) && e.Bucket() == bucket
    && (e.blockedReason.Some? || e.status == None || e.status.value >= 400)
  }

  ghost function ErrorEvents(
    log: seq<UsageEvent>, from: int, to: int, day: int, vk: nat, partner: string, bucket: string): set<nat>
  {
    set i: nat | i < |log| && ErrorOn(log[i], from, to, day, vk, partner, bucket)
  }

  /** An error row exists for the owner of a key with such errors, and is their number. */
  lemma ErrorRowMeaning(
    owners: Owners, log: seq<UsageEvent>, from: int, to: int, day: int, c: nat, vk: nat, partner: string,
    bucket: string)
    ensures var rows, key := GroupBy(ErrorDaily(owners), log, from, to), ErrorKey(UsageKey(c, vk, partner), bucket);
            && ((day, key) in rows <==>
                  && vk in owners && owners[vk] == c
                  && exists i :: 0 <= i < |log| && ErrorOn(log[i], from, to, day, vk, partner, bucket))
            && ((day, key) in rows ==>
                  rows[(day, key)] == |ErrorEvents(log, from, to, day, vk, partner, bucket)|)
  {
    hide Group, Count, InGroup, ErrorOn, GroupBy, ErrorDaily;
    var q, key := ErrorDaily(owners), ErrorKey(UsageKey(c, vk, partner), bucket);
    var raw := (e: UsageEvent) =>
      vk in owners && owners[vk] == c && ErrorOn(e, from, to, day, vk, partner, bucket);
    forall i | 0 <= i < |log|
      ensures InGroup(q, log[i], from, to, day, key) <==> raw(log[i])
    {
      ErrorMember(owners, log[i], from, to, day, c, vk, partner, bucket);
    }
    SizeOfGroup(q, log, from, to, day, key, raw);
    ErrorCount(owners, log, from, to, day, key);
    if vk in owners && owners[vk] == c {
      assert Both(log, raw, raw) == ErrorEvents(log, from, to, day, vk, partner, bucket);
    }
  }

  lemma ErrorCount(owners: Owners, log: seq<UsageEvent>, from: int, to: int, day: int, key: ErrorKey)
    ensures (day, key) in GroupBy(ErrorDaily(owners), log, from, to)
            ==> GroupBy(ErrorDaily(owners), log, from, to)[(day, key)]
                == |Group(ErrorDaily(owners), log, from, to, day, key)|
  {
    hide Group, InGroup;
  }

  lemma ErrorMember(
    owners: Owners, e: UsageEvent, from: int, to: int, day: int, c: nat, vk: nat, partner: string, bucket: string)
    ensures InGroup(ErrorDaily(owners), e, from, to, day, ErrorKey(UsageKey(c, vk, partner), bucket))
       <==> vk in owners && owners[vk] == c && ErrorOn(e, from, to, day, vk, partner, bucket)
  {
    hide UsageEvent.Bucket;
  }

  /** Intents of a virtual key, partner and provider created on a day, within a range. */
  ghost predicate IntentOn(i: Intent, from: int, to: int, day: int, vk: nat, partner: string, provider: string) {
    && from <= i.row.ts < to && i.row.ts / 86_400_000 == day
    && i.row.virtualKey == vk && i.row.partner == partner && i.provider == provider
  }

  ghost function Intents(
    intents: seq<Intent>, from: int, to: int, day: int, vk: nat, partner: string, provider: string,
    statuses: set<PaymentIntents.Status>): set<nat>
  {
    set i: nat | i < |intents| && IntentOn(intents[i], from, to, day, vk, partner, provider)
                 && intents[i].row.status in statuses
  }

  lemma X402RowExists(
    owners: Owners, intents: seq<Intent>, from: int, to: int, day: int, c: nat, vk: nat, partner: string,
    provider: string)
    ensures (day, X402Key(UsageKey(c, vk, partner), provider)) in GroupBy(X402UsageDaily(owners), intents, from, to)
       <==> && vk in owners && owners[vk] == c
            && exists i :: 0 <= i < |intents| && IntentOn(intents[i], from, to, day, vk, partner, provider)
  {
    var key := X402Key(UsageKey(c, vk, partner), provider);
    KeyWitness(X402UsageDaily(owners), intents, from, to, (day, key));
    forall i | 0 <= i < |intents|
      ensures InGroup(X402UsageDaily(owners), intents[i], from, to, day, key)
         <==> vk in owners && owners[vk] == c && IntentOn(intents[i], from, to, day, vk, partner, provider)
    {
    }
    hide InGroup, IntentOn, GroupBy;
  }

  lemma X402Column(
    owners: Owners, intents: seq<Intent>, from: int, to: int, day: int, c: nat, vk: nat, partner: string,
    provider: string, p: Intent -> bool, statuses: set<PaymentIntents.Status>)
    requires vk in owners && owners[vk] == c && forall i: Intent :: p(i) <==> i.row.status in statuses
    ensures Count(Group(X402UsageDaily(owners), intents, from, to, day, X402Key(UsageKey(c, vk, partner), provider)), p)
         == |Intents(intents, from, to, day, vk, partner, provider, statuses)|
  {
    var key := X402Key(UsageKey(c, vk, partner), provider);
    var raw := (i: Intent) => IntentOn(i, from, to, day, vk, partner, provider);
    RawGroup(X402UsageDaily(owners), intents, from, to, day, key, raw, p, p);
    assert Intents(intents, from, to, day, vk, partner, provider, statuses)
        == Both(intents, raw, p);
  }

  /** Every column of an x402 row is the number of intents of its key, day, partner and provider by status. */
  lemma X402RowMeaning(
    owners: Owners, intents: seq<Intent>, from: int, to: int, day: int, c: nat, vk: nat, partner: string,
    provider: string)
    ensures var rows := GroupBy(X402UsageDaily(owners), intents, from, to);
            var key := X402Key(UsageKey(c, vk, partner), provider);
            (day, key) in rows <==>
              && vk in owners && owners[vk] == c
              && exists i :: 0 <= i < |intents| && IntentOn(intents[i], from, to, day, vk, partner, provider)
    ensures var rows := GroupBy(X402UsageDaily(owners), intents, from, to);
            var key := X402Key(UsageKey(c, vk, partner), provider);
            var number := (statuses: set<PaymentIntents.Status>) =>
                            |Intents(intents, from, to, day, vk, partner, provider, statuses)|;
            (day, key) in rows ==>
              && rows[(day, key)].created == number({PaymentIntents.Pending, PaymentIntents.Verified,
                                                     PaymentIntents.Failed, PaymentIntents.Expired})
              && rows[(day, key)].verified == number({PaymentIntents.Verified})
              && rows[(day, key)].failed == number({PaymentIntents.Failed})
              && rows[(day, key)].expired == number({PaymentIntents.Expired})
              && rows[(day, key)].unpaid == number({PaymentIntents.Pending})
  {
    hide Group, Count, Intents, Keys, IntentOn;
    var q, key := X402UsageDaily(owners), X402Key(UsageKey(c, vk, partner), provider);
    X402RowExists(owners, intents, from, to, day, c, vk, partner, provider);
    CountAll(Group(q, intents, from, to, day, key));
    if vk in owners && owners[vk] == c {
      forall i: Intent
        ensures i.row.status in {PaymentIntents.Pending, PaymentIntents.Verified, PaymentIntents.Failed,
                                 PaymentIntents.Expired}
      {
        assert i.row.status.Pending? || i.row.status.Verified? || i.row.status.Failed? || i.row.status.Expired?;
      }
      X402Column(owners, intents, from, to, day, c, vk, partner, provider, (i: Intent) => true,
                 {PaymentIntents.Pending, PaymentIntents.Verified, PaymentIntents.Failed, PaymentIntents.Expired});
      X402Column(owners, intents, from, to, day, c, vk, partner, provider,
                 HasStatus(PaymentIntents.Verified), {PaymentIntents.Verified});
      X402Column(owners, intents, from, to, day, c, vk, partner, provider,
                 HasStatus(PaymentIntents.Failed), {PaymentIntents.Failed});
      X402Column(owners, intents, from, to, day, c, vk, partner, provider,
                 HasStatus(PaymentIntents.Expired), {PaymentIntents.Expired});
      X402Column(owners, intents, from, to, day, c, vk, partner, provider,
                 HasStatus(PaymentIntents.Pending), {PaymentIntents.Pending});
    }
  }

  /** Events of the x402 middleware of one type, customer, key, partner and provider on a day, within a range. */
  ghost predicate X402On(
    e: X402Event, from: int, to: int, day: int, c: nat, vk: nat, partner: string, provider: string, eventType: string)
  {
    && from <= e.ts < to && e.ts / 86_400_000 == day && e.customer == c && e.virtualKey == vk
    && e.partner == partner && e.provider == provider && e.eventType == eventType
  }

  ghost function X402Events(
    log: seq<X402Event>, from: int, to: int, day: int, c: nat, vk: nat, partner: string, provider: string,
    eventType: string): set<nat>
  {
    set i: nat | i < |log| && X402On(log[i], from, to, day, c, vk, partner, provider, eventType)
  }

  /** A row of the x402 error table is the number of such events; without any there is no row. */
  lemma X402ErrorRowMeaning(
    log: seq<X402Event>, from: int, to: int, day: int, c: nat, vk: nat, partner: string, provider: string,
    eventType: string)
    ensures var rows := GroupBy(X402ErrorDaily(), log, from, to);
            var key := X402ErrorKey(X402Key(UsageKey(c, vk, partner), provider), eventType);
            var events := X402Events(log, from, to, day, c, vk, partner, provider, eventType);
            && ((day, key) in rows <==> events != {})
            && ((day, key) in rows ==> rows[(day, key)] == |events|)
  {
    hide Group, Count, InGroup, X402On, GroupBy, X402ErrorDaily;
    var q, key := X402ErrorDaily(), X402ErrorKey(X402Key(UsageKey(c, vk, partner), provider), eventType);
    var raw := (e: X402Event) => X402On(e, from, to, day, c, vk, partner, provider, eventType);
    forall i | 0 <= i < |log|
      ensures InGroup(q, log[i], from, to, day, key) <==> raw(log[i])
    {
      X402Member(log[i], from, to, day, c, vk, partner, provider, eventType);
    }
    SizeOfGroup(q, log, from, to, day, key, raw);
    X402ErrorCount(log, from, to, day, key);
    var events := X402Events(log, from, to, day, c, vk, partner, provider, eventType);
    assert Both(log, raw, raw) == events;
    if i :| 0 <= i < |log| && raw(log[i]) {
      assert i in events;
    }
  }

  lemma X402ErrorCount(log: seq<X402Event>, from: int, to: int, day: int, key: X402ErrorKey)
    ensures (day, key) in GroupBy(X402ErrorDaily(), log, from, to)
            ==> GroupBy(X402ErrorDaily(), log, from, to)[(day, key)]
                == |Group(X402ErrorDaily(), log, from, to, day, key)|
  {
    hide Group, InGroup;
  }

  lemma X402Member(
    e: X402Event, from: int, to: int, day: int, c: nat, vk: nat, partner: string, provider: string, eventType: string)
    ensures InGroup(X402ErrorDaily(), e, from, to, day,
                    X402ErrorKey(X402Key(UsageKey(c, vk, partner), provider), eventType))
       <==> X402On(e, from, to, day, c, vk, partner, provider, eventType)
  {
  }

  /** What each error bucket of a recorded error stands for, and nothing else. */
  lemma BucketMeaning(e: UsageEvent)
    requires Recorded(e) && e.Errs()
    ensures forall reason: string :: e.Bucket() == "blocked:" + reason <==> e.blockedReason == Some(reason)
    ensures e.Bucket() == "upstream_timeout" <==> e.status == Some(504)
    ensures e.Bucket() == "upstream_bad_gateway" <==> e.status == Some(502)
    ensures e.Bucket() == "upstream_5xx" <==> e.StatusIn(500, 599) && e.status !in {Some(502), Some(504)}
    ensures e.Bucket() == "upstream_4xx" <==> e.StatusIn(400, 499)
    ensures e.Bucket() == "other" <==> e.status.Some? && e.status.value >= 600
  {
    var b := e.Bucket();
    assert e.blockedReason.Some? <==> b[0] == 'b';
    assert "blocked:"[0] == 'b';
    forall reason: string
      ensures b == "blocked:" + reason <==> e.blockedReason == Some(reason)
    {
      assert ("blocked:" + reason)[0] == 'b';
      if e.blockedReason.Some? && b == "blocked:" + reason {
        assert b[8..] == reason && b[8..] == e.blockedReason.value;
      }
    }
    if !e.blockedReason.Some? && b != "other" {
      assert b[9] == if b == "upstream_timeout" then 't' else if b == "upstream_bad_gateway" then 'b'
                     else if b == "upstream_5xx" then '5' else '4';
    }
  }

  // ---------------------------------------------------- across the two tables

  ghost function SumOver(buckets: set<string>, f: string -> nat): nat
    decreases |buckets|
  {
    if buckets == {} then 0
    else
      var b :| b in buckets;
      f(b) + SumOver(buckets - {b}, f)
  }

  lemma {:induction false} SumSplit(buckets: set<string>, f: string -> nat, b: string)
    requires b in buckets
    ensures SumOver(buckets, f) == f(b) + SumOver(buckets - {b}, f)
    decreases |buckets|
  {
    var c :| c in buckets && SumOver(buckets, f) == f(c) + SumOver(buckets - {c}, f);
    if c != b {
      SumSplit(buckets - {c}, f, b);
      SumSplit(buckets - {b}, f, c);
      assert buckets - {c} - {b} == buckets - {b} - {c};
    }
  }

  lemma {:induction false} SumSame(buckets: set<string>, f: string -> nat, g: string -> nat)
    requires forall b | b in buckets :: f(b) == g(b)
    ensures SumOver(buckets, f) == SumOver(buckets, g)
    decreases |buckets|
  {
    if b :| b in buckets {
      SumSplit(buckets, f, b);
      SumSplit(buckets, g, b);
      SumSame(buckets - {b}, f, g);
    }
  }

  lemma {:induction false} SumZero(buckets: set<string>, f: string -> nat)
    requires forall b | b in buckets :: f(b) == 0
    ensures SumOver(buckets, f) == 0
    decreases |buckets|
  {
    if b :| b in buckets {
      SumSplit(buckets, f, b);
      SumZero(buckets - {b}, f);
    }
  }

  /** The events of one usage group that fall in one error bucket. */
  function InBucket(bucket: string): UsageEvent -> bool {
    (e: UsageEvent) => e.Errs() && e.Bucket() == bucket
  }

  function BucketCount(es: seq<UsageEvent>): string -> nat {
    (bucket: string) => Count(es, InBucket(bucket))
  }

  /** Over any buckets that cover the errors of a group, the bucket counts add up to its errors. */
  lemma {:induction false} BucketsPartitionErrors(es: seq<UsageEvent>, buckets: set<string>)
    requires forall e | e in es && e.Errs() :: e.Bucket() in buckets
    ensures SumOver(buckets, BucketCount(es)) == Count(es, (e: UsageEvent) => e.Errs())
  {
    if es == [] {
      SumZero(buckets, BucketCount(es));
    } else {
      var n := |es| - 1;
      var init, last := es[..n], es[n];
      BucketsPartitionErrors(init, buckets);
      if last.Errs() {
        var b := last.Bucket();
        assert last in es;
        SumSplit(buckets, BucketCount(es), b);
        SumSplit(buckets, BucketCount(init), b);
        SumSame(buckets - {b}, BucketCount(es), BucketCount(init));
      } else {
        SumSame(buckets, BucketCount(es), BucketCount(init));
      }
    }
  }

  /** The error buckets a day's table holds for a usage key. */
  function BucketsOf(errors: Rows<ErrorKey, nat>, day: int, key: UsageKey): set<string> {
    set dk | dk in errors && dk.0 == day && dk.1.usage == key :: dk.1.bucket
  }

  function CountOf(errors: Rows<ErrorKey, nat>, day: int, key: UsageKey): string -> nat {
    (bucket: string) => if (day, ErrorKey(key, bucket)) in errors then errors[(day, ErrorKey(key, bucket))] else 0
  }

  lemma ErrorMembership(
    owners: Owners, e: UsageEvent, from: int, to: int, day: int, key: UsageKey, bucket: string)
    ensures InGroup(ErrorDaily(owners), e, from, to, day, ErrorKey(key, bucket))
       <==> InGroup(UsageDaily(owners), e, from, to, day, key) && InBucket(bucket)(e)
  {
  }

  /** The error statement's group for a bucket is that bucket's share of the usage group. */
  lemma {:induction false} ErrorGroupIsBucket(
    owners: Owners, log: seq<UsageEvent>, from: int, to: int, day: int, key: UsageKey, bucket: string)
    ensures |Group(ErrorDaily(owners), log, from, to, day, ErrorKey(key, bucket))|
         == Count(Group(UsageDaily(owners), log, from, to, day, key), InBucket(bucket))
  {
    if log != [] {
      hide InGroup, Group, Count, ErrorDaily, UsageDaily, InBucket;
      var n := |log| - 1;
      var init, e := log[..n], log[n];
      assert log == init + [e];
      ErrorGroupIsBucket(owners, init, from, to, day, key, bucket);
      GroupAppend(ErrorDaily(owners), init, e, from, to, day, ErrorKey(key, bucket));
      GroupAppend(UsageDaily(owners), init, e, from, to, day, key);
      ErrorMembership(owners, e, from, to, day, key, bucket);
      var g := Group(UsageDaily(owners), init, from, to, day, key);
      CountAppend(g, e, InBucket(bucket));
      assert g + [] == g;
    } else {
      EmptyGroups(owners, from, to, day, key, bucket);
    }
  }

  lemma EmptyGroups(owners: Owners, from: int, to: int, day: int, key: UsageKey, bucket: string)
    ensures Group(ErrorDaily(owners), [], from, to, day, ErrorKey(key, bucket)) == []
    ensures Count(Group(UsageDaily(owners), [], from, to, day, key), InBucket(bucket)) == 0
  {
  }

  lemma {:induction false} GroupMembers(
    owners: Owners, log: seq<UsageEvent>, from: int, to: int, day: int, key: UsageKey)
    ensures forall e | e in Group(UsageDaily(owners), log, from, to, day, key) ::
              exists i :: 0 <= i < |log| && log[i] == e && InGroup(UsageDaily(owners), e, from, to, day, key)
  {
    if log != [] {
      var n := |log| - 1;
      GroupMembers(owners, log[..n], from, to, day, key);
      var g := Group(UsageDaily(owners), log[..n], from, to, day, key);
      forall e | e in Group(UsageDaily(owners), log, from, to, day, key)
        ensures exists i :: 0 <= i < |log| && log[i] == e && InGroup(UsageDaily(owners), e, from, to, day, key)
      {
        if e in g {
          var i :| 0 <= i < |log[..n]| && log[..n][i] == e && InGroup(UsageDaily(owners), e, from, to, day, key);
          assert log[i] == e;
        } else {
          assert log[n] == e;
        }
      }
    }
  }

  function Above(): UsageEvent -> bool {
    (e: UsageEvent) => e.status.Some? && e.status.value >= 600
  }

  lemma {:induction false} ErrorsSplit(es: seq<UsageEvent>)
    requires forall e | e in es :: Recorded(e)
    ensures Count(es, (e: UsageEvent) => e.Errs())
         == UsageAgg(es).blocked + UsageAgg(es).s4xx + UsageAgg(es).s5xx + Count(es, Above())
  {
    if es != [] {
      var n := |es| - 1;
      ErrorsSplit(es[..n]);
      assert es[n] in es;
    }
  }

  /** The buckets of a usage key cover the errors among its events, with the right counts. */
  lemma BucketsCover(owners: Owners, log: seq<UsageEvent>, from: int, to: int, day: int, key: UsageKey)
    ensures var es := Group(UsageDaily(owners), log, from, to, day, key);
            var errors := GroupBy(ErrorDaily(owners), log, from, to);
            && (forall e | e in es && e.Errs() :: e.Bucket() in BucketsOf(errors, day, key))
            && (forall b | b in BucketsOf(errors, day, key) :: CountOf(errors, day, key)(b) == BucketCount(es)(b))
  {
    var q := ErrorDaily(owners);
    var es := Group(UsageDaily(owners), log, from, to, day, key);
    var errors := GroupBy(q, log, from, to);
    GroupMembers(owners, log, from, to, day, key);
    forall e | e in es && e.Errs()
      ensures e.Bucket() in BucketsOf(errors, day, key)
    {
      var i :| 0 <= i < |log| && log[i] == e && InGroup(UsageDaily(owners), e, from, to, day, key);
      var dk := (day, ErrorKey(key, e.Bucket()));
      assert InGroup(q, log[i], from, to, dk.0, dk.1);
      KeyWitness(q, log, from, to, dk);
      assert dk in errors;
    }
    forall b | b in BucketsOf(errors, day, key)
      ensures CountOf(errors, day, key)(b) == BucketCount(es)(b)
    {
      var dk :| dk in errors && dk.0 == day && dk.1.usage == key && dk.1.bucket == b;
      assert dk == (day, ErrorKey(key, b));
      ErrorGroupIsBucket(owners, log, from, to, day, key, b);
    }
  }

  /**
   * Both usage tables, rolled up over one range of one log, agree on every usage key: requests are
   * forwarded or blocked, and the error buckets add up to the blocked and the failed ones.  The only
   * gap is a status the classes do not know.
   */
  lemma CrossTableConservation(owners: Owners, log: seq<UsageEvent>, from: int, to: int, day: int, key: UsageKey)
    requires forall e | e in log :: Recorded(e)
    requires (day, key) in GroupBy(UsageDaily(owners), log, from, to)
    ensures var u := GroupBy(UsageDaily(owners), log, from, to)[(day, key)];
            var errors := GroupBy(ErrorDaily(owners), log, from, to);
            var es := Group(UsageDaily(owners), log, from, to, day, key);
            && u.total == u.forwarded + u.blocked
            && u.forwarded == u.s2xx + u.s3xx + u.s4xx + u.s5xx + Count(es, Outside())
            && SumOver(BucketsOf(errors, day, key), CountOf(errors, day, key))
               == u.blocked + u.s4xx + u.s5xx + Count(es, Above())
  {
    var es := Group(UsageDaily(owners), log, from, to, day, key);
    var errors := GroupBy(ErrorDaily(owners), log, from, to);
    GroupMembers(owners, log, from, to, day, key);
    assert forall e | e in es :: e in log;
    BucketsCover(owners, log, from, to, day, key);
    var buckets := BucketsOf(errors, day, key);
    SumSame(buckets, CountOf(errors, day, key), BucketCount(es));
    BucketsPartitionErrors(es, buckets);
    UsageRowBalanced(es);
    ErrorsSplit(es);
    hide *;
  }

  // ------------------------------------------------ ranges that cut a day short

  /** After one rollup into an empty table every day shown is complete. */
  ghost predicate ShowsWholeDays(owners: Owners, log: seq<UsageEvent>, from: int, to: int) {
    forall day ::
      var rows := DayRows(GroupBy(UsageDaily(owners), log, from, to), day);
      rows == map[] || rows == Direct(UsageDaily(owners), log, day)
  }

  const ONE_OWNER: Owners := map[0 := 0]
  const ONE_KEY := UsageKey(0, 0, "partner")

  function EventAt(ts: int): UsageEvent {
    UsageEvent(ts, 0, "partner", true, None, Some(200))
  }

  lemma TwoEvents(x: int, y: int, from: int, to: int, day: int)
    requires DayOf(x) == DayOf(y) == day
    ensures var rows := GroupBy(UsageDaily(ONE_OWNER), [EventAt(x), EventAt(y)], from, to);
            var n := (if from <= x < to then 1 else 0) + (if from <= y < to then 1 else 0);
            && (n > 0 ==> (day, ONE_KEY) in rows)
            && ((day, ONE_KEY) in rows ==> rows[(day, ONE_KEY)].total == n)
  {
    var q, log := UsageDaily(ONE_OWNER), [EventAt(x), EventAt(y)];
    hide Group, InGroup, Count, Keys, DayOf, UsageDaily, EventAt, GroupBy;
    EventInGroup(x, from, to, day);
    EventInGroup(y, from, to, day);
    KeyWitness(q, log, from, to, (day, ONE_KEY));
    assert log[0] == EventAt(x) && log[1] == EventAt(y);
    assert [] + [EventAt(x)] == [EventAt(x)] && [EventAt(x)] + [EventAt(y)] == log;
    GroupAppend(q, [], EventAt(x), from, to, day, ONE_KEY);
    GroupAppend(q, [EventAt(x)], EventAt(y), from, to, day, ONE_KEY);
    EmptyGroup(q, from, to, day, ONE_KEY);
    TotalIsSize(log, from, to, day);
  }

  lemma EventInGroup(x: int, from: int, to: int, day: int)
    requires DayOf(x) == day
    ensures InGroup(UsageDaily(ONE_OWNER), EventAt(x), from, to, day, ONE_KEY) <==> from <= x < to
  {
  }

  lemma EmptyGroup<E, K, R>(q: Query<E, K, R>, from: int, to: int, day: int, k: K)
    ensures Group(q, [], from, to, day, k) == []
  {
  }

  lemma TotalIsSize(log: seq<UsageEvent>, from: int, to: int, day: int)
    ensures var rows := GroupBy(UsageDaily(ONE_OWNER), log, from, to);
            && ((day, ONE_KEY) in rows <==> (day, ONE_KEY) in Keys(UsageDaily(ONE_OWNER), log, from, to))
            && ((day, ONE_KEY) in rows ==>
                  rows[(day, ONE_KEY)].total == |Group(UsageDaily(ONE_OWNER), log, from, to, day, ONE_KEY)|)
  {
    hide Group, InGroup, Count, Keys;
  }

  /** Two events of a day, one of them in the range: the day's row is short. */
  lemma ShortRow(from: int, to: int, x: int, y: int)
    requires DayOf(x) == DayOf(y) && (from <= x < to <==> !(from <= y < to))
    ensures !ShowsWholeDays(ONE_OWNER, [EventAt(x), EventAt(y)], from, to)
  {
    hide GroupBy, UsageDaily, ShowsWholeDays, EventAt;
    var day := DayOf(x);
    var start, end := day * DAY_MS, (day + 1) * DAY_MS;
    assert start <= x < end && start <= y < end;
    TwoEvents(x, y, from, to, day);
    TwoEvents(x, y, start, end, day);
    NotWhole(ONE_OWNER, [EventAt(x), EventAt(y)], from, to, day, ONE_KEY);
  }

  lemma NotWhole(owners: Owners, log: seq<UsageEvent>, from: int, to: int, day: int, key: UsageKey)
    requires (day, key) in GroupBy(UsageDaily(owners), log, from, to)
    requires (day, key) in Direct(UsageDaily(owners), log, day)
    requires GroupBy(UsageDaily(owners), log, from, to)[(day, key)] != Direct(UsageDaily(owners), log, day)[(day, key)]
    ensures !ShowsWholeDays(owners, log, from, to)
  {
    hide GroupBy, Direct;
    var rows := DayRows(GroupBy(UsageDaily(owners), log, from, to), day);
    assert (day, key) in rows;
  }

  /** A rollup shows only whole days, whatever was logged, exactly for midnight-aligned ranges. */
  lemma WholeDaysExactly(from: int, to: int)
    ensures (from >= to || (from % 86_400_000 == 0 && to % 86_400_000 == 0))
       <==> forall owners, log :: ShowsWholeDays(owners, log, from, to)
  {
    if from >= to {
      forall owners, log
        ensures ShowsWholeDays(owners, log, from, to)
      {
        EmptyRange(owners, log, from, to);
      }
    } else if from % DAY_MS == 0 && to % DAY_MS == 0 {
      var a, b := from / DAY_MS, to / DAY_MS;
      assert from == a * DAY_MS && to == b * DAY_MS;
      forall owners, log
        ensures ShowsWholeDays(owners, log, from, to)
      {
        AlignedShowsWholeDays(owners, log, a, b);
      }
    } else if from % DAY_MS != 0 {
      ShortRow(from, to, DayOf(from) * DAY_MS, from);
    } else {
      ShortRow(from, to, to - 1, to);
    }
  }

  lemma EmptyRange(owners: Owners, log: seq<UsageEvent>, from: int, to: int)
    requires from >= to
    ensures ShowsWholeDays(owners, log, from, to)
  {
  }

  lemma AlignedShowsWholeDays(owners: Owners, log: seq<UsageEvent>, a: int, b: int)
    ensures ShowsWholeDays(owners, log, a * DAY_MS, b * DAY_MS)
  {
    hide GroupBy, Direct, DayRows;
    forall day: int
      ensures var rows := DayRows(GroupBy(UsageDaily(owners), log, a * DAY_MS, b * DAY_MS), day);
              rows == map[] || rows == Direct(UsageDaily(owners), log, day)
    {
      AlignedRange(UsageDaily(owners), log, a, b, day);
    }
  }
}
