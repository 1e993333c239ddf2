/**
 * The retry gate shared by all handlers: two fixed-window Redis counters, incremented before the
 * answer is known.  Handlers interleave; INCR and EXPIRE are separate steps.
 */
module RetryBudget {
  import opened Prelude

  const WINDOW_MS := 60 * 1000

  datatype Key = PartnerKey(name: string) | VirtualKey(id: nat)

  datatype Budgets = Budgets(partnerRetriesPerMin: nat, vkRetriesPerMin: nat) {
    function Limit(key: Key): nat {
      if key.PartnerKey? then partnerRetriesPerMin else vkRetriesPerMin
    }
  }

  /** A counter in Redis; `life` names the INCR that created it. */
  datatype Counter = Counter(used: nat, expiresAt: Option<int>, life: nat)

  type Redis = map<Key, Counter>

  /** One INCR: the counter's life and the value it returned. */
  datatype Take = Take(key: Key, life: nat, used: nat, at: int)

  /** One answer of the gate, with the two INCRs it rests on. */
  datatype Decision = Decision(partnerTake: nat, vkTake: nat, allowed: bool, at: int) {
    function TakeOn(partner: bool): nat {
      if partner then partnerTake else vkTake
    }
  }

  // ------------------------------------------------------------- the counters

  /** What commands see of the store: an expired counter is gone. */
  function Live(redis: Redis, key: Key, now: int): Redis {
    if key in redis && redis[key].expiresAt.Some? && redis[key].expiresAt.value <= now then redis - {key} else redis
  }

  function Incr(redis: Redis, key: Key, now: int, newLife: nat): (Redis, Counter) {
    var live := Live(redis, key, now);
    var c := if key in live then live[key].(used := live[key].used + 1) else Counter(1, None, newLife);
    (live[key := c], c)
  }

  function Expire(redis: Redis, key: Key, now: int): Redis {
    if key in Live(redis, key, now) then redis[key := redis[key].(expiresAt := Some(now + WINDOW_MS))] else redis
  }

  /** One call of `take_one_with_ttl` with nothing in between: the store it leaves and the count it saw. */
  function TakeOne(redis: Redis, key: Key, now: int, newLife: nat): (Redis, nat) {
    var (counted, c) := Incr(redis, key, now, newLife);
    (if c.used == 1 then Expire(counted, key, now) else counted, c.used)
  }

  /** The gate with nothing in between; both counters are taken whatever the answer. */
  function Gate(redis: Redis, partner: string, vk: nat, now: int, newLife: nat): (Redis, nat, nat) {
    var (first, p) := TakeOne(redis, PartnerKey(partner), now, newLife);
    var (second, v) := TakeOne(first, VirtualKey(vk), now, newLife + 1);
    (second, p, v)
  }

  /** The Redis store, updated in place by the gate; `nextLife` numbers the INCRs. */
  class BudgetStore {
    var redis: Redis
    var nextLife: nat

    constructor ()
      ensures redis == map[] && nextLife == 0
    {
      redis, nextLife := map[], 0;
    }

    method TakeOneWithTtl(key: Key, limit: nat, now: int) returns (remaining: int)
      modifies this
      ensures var (store, used) := TakeOne(old(redis), key, now, old(nextLife));
              redis == store && remaining == limit - used && nextLife == old(nextLife) + 1
    {
      if key in redis && redis[key].expiresAt.Some? && redis[key].expiresAt.value <= now {
        redis := redis - {key}; // Redis drops the counter
      }
      var used := 1;
      if key in redis {
        used := redis[key].used + 1;
        redis := redis[key := redis[key].(used := used)];
      } else {
        redis := redis[key := Counter(1, None, nextLife)];
      }
      if used == 1 && !(redis[key].expiresAt.Some? && redis[key].expiresAt.value <= now) {
        redis := redis[key := redis[key].(expiresAt := Some(now + WINDOW_MS))];
      }
      nextLife := nextLife + 1;
      remaining := limit - used;
    }

    method AllowRetryDualBudget(b: Budgets, partner: string, vk: nat, now: int)
      returns (allowed: bool, partnerRemaining: int, vkRemaining: int)
      modifies this
      ensures var (store, p, v) := Gate(old(redis), partner, vk, now, old(nextLife));
              && redis == store && nextLife == old(nextLife) + 2
              && partnerRemaining == b.partnerRetriesPerMin - p && vkRemaining == b.vkRetriesPerMin - v
              && (allowed <==> p <= b.partnerRetriesPerMin && v <= b.vkRetriesPerMin)
    {
      partnerRemaining := TakeOneWithTtl(PartnerKey(partner), b.partnerRetriesPerMin, now);
      vkRemaining := TakeOneWithTtl(VirtualKey(vk), b.vkRetriesPerMin, now);
      allowed := partnerRemaining >= 0 && vkRemaining >= 0;
    }
  }

  // -------------------------------------------------------------- the handlers

  datatype Pc =
    | Ready
    | InFlight
    | TakingPartner
    | ExpiringPartner(p: nat)
    | TakingVk(p: nat)
    | ExpiringVk(p: nat, v: nat)
    | Deciding(p: nat, v: nat)
    | Sleeping
    | Finished

  datatype Handler = Handler(partner: string, virtualKey: nat, sends: nat, retriesUsed: nat, pc: Pc) {
    function KeyOf(partnerSide: bool): Key {
      if partnerSide then PartnerKey(partner) else VirtualKey(virtualKey)
    }

    /** The INCR of that side this handler is about to be judged by. */
    function Holding(partnerSide: bool): Option<nat> {
      if partnerSide then
        if pc.ExpiringPartner? || pc.TakingVk? || pc.ExpiringVk? || pc.Deciding? then Some(pc.p) else None
      else if pc.ExpiringVk? || pc.Deciding? then Some(pc.v) else None
    }
  }

  datatype State = State(now: int, redis: Redis, handlers: seq<Handler>, takes: seq<Take>, decisions: seq<Decision>)

  datatype Action =
    | Tick(ms: nat)
    | Arrive(partner: string, virtualKey: nat)
    | Send(h: nat)
    | GiveUp(h: nat)
    | Complete(h: nat, retry: bool)
    | TakePartner(h: nat)
    | ExpirePartner(h: nat)
    | TakeVk(h: nat)
    | ExpireVk(h: nat)
    | Decide(h: nat)
    | Wake(h: nat)

  ghost predicate Enabled(s: State, a: Action) {
    match a
    case Tick(_) => true
    case Arrive(_, _) => true
    case Send(h) => h < |s.handlers| && s.handlers[h].pc.Ready?
    case GiveUp(h) => h < |s.handlers| && s.handlers[h].pc.Ready?
    case Complete(h, _) => h < |s.handlers| && s.handlers[h].pc.InFlight?
    case TakePartner(h) => h < |s.handlers| && s.handlers[h].pc.TakingPartner?
    case ExpirePartner(h) => h < |s.handlers| && s.handlers[h].pc.ExpiringPartner?
    case TakeVk(h) => h < |s.handlers| && s.handlers[h].pc.TakingVk?
    case ExpireVk(h) => h < |s.handlers| && s.handlers[h].pc.ExpiringVk?
    case Decide(h) => && h < |s.handlers| && s.handlers[h].pc.Deciding?
                      && s.handlers[h].pc.p < |s.takes| && s.handlers[h].pc.v < |s.takes|
    case Wake(h) => h < |s.handlers| && s.handlers[h].pc.Sleeping?
  }

  function Put(s: State, h: nat, handler: Handler): State
    requires h < |s.handlers|
  {
    s.(handlers := s.handlers[h := handler])
  }

  function TakeStep(s: State, key: Key): (State, nat) {
    var (redis, c) := Incr(s.redis, key, s.now, |s.takes|);
    (s.(redis := redis, takes := s.takes + [Take(key, c.life, c.used, s.now)]), c.used)
  }

  function Apply(s: State, a: Action, b: Budgets): State
    requires Enabled(s, a)
  {
    match a
    case Tick(ms) => s.(now := s.now + ms)
    case Arrive(partner, vk) => s.(handlers := s.handlers + [Handler(partner, vk, 0, 0, Ready)])
    case Send(h) => Put(s, h, s.handlers[h].(sends := s.handlers[h].sends + 1, pc := InFlight))
    case GiveUp(h) => Put(s, h, s.handlers[h].(pc := Finished))
    case Complete(h, retry) => Put(s, h, s.handlers[h].(pc := if retry then TakingPartner else Finished))
    case TakePartner(h) =>
      var (s', used) := TakeStep(s, s.handlers[h].KeyOf(true));
      Put(s', h, s.handlers[h].(pc := if used == 1 then ExpiringPartner(|s.takes|) else TakingVk(|s.takes|)))
    case ExpirePartner(h) =>
      Put(s.(redis := Expire(s.redis, s.handlers[h].KeyOf(true), s.now)), h,
          s.handlers[h].(pc := TakingVk(s.handlers[h].pc.p)))
    case TakeVk(h) =>
      var (s', used) := TakeStep(s, s.handlers[h].KeyOf(false));
      var p := s.handlers[h].pc.p;
      Put(s', h, s.handlers[h].(pc := if used == 1 then ExpiringVk(p, |s.takes|) else Deciding(p, |s.takes|)))
    case ExpireVk(h) =>
      Put(s.(redis := Expire(s.redis, s.handlers[h].KeyOf(false), s.now)), h,
          s.handlers[h].(pc := Deciding(s.handlers[h].pc.p, s.handlers[h].pc.v)))
    case Decide(h) =>
      var Deciding(p, v) := s.handlers[h].pc;
      var allowed := b.partnerRetriesPerMin >= s.takes[p].used && b.vkRetriesPerMin >= s.takes[v].used;
      var s' := s.(decisions := s.decisions + [Decision(p, v, allowed, s.now)]);
      var handler := s.handlers[h];
      Put(s', h, if allowed then handler.(retriesUsed := handler.retriesUsed + 1, pc := Sleeping)
                 else handler.(pc := Finished))
    case Wake(h) => Put(s, h, s.handlers[h].(pc := Ready))
  }

  // ------------------------------------------------------- what the log keeps

  /** INCRs in time order; within a life the values count up; lives of a key are a window apart. */
  ghost predicate LogOk(takes: seq<Take>, now: int) {
    && (forall i | 0 <= i < |takes| ::
          && takes[i].life <= i && takes[i].at <= now && takes[i].used >= 1)
    && (forall i {:trigger InOwnLife(takes, i)} | 0 <= i < |takes| :: InOwnLife(takes, i))
    && (forall i, j | 0 <= i <= j < |takes| :: takes[i].at <= takes[j].at)
    && (forall i, j | 0 <= i < j < |takes| && takes[i].key == takes[j].key :: Ordered(takes, i, j))
  }

  /** The INCR a life is named by belongs to it. */
  ghost predicate InOwnLife(takes: seq<Take>, i: nat)
    requires i < |takes|
  {
    && takes[i].life < |takes|
    && var start := takes[takes[i].life];
       start.life == takes[i].life && start.key == takes[i].key
  }

  /** Two INCRs of one key: counted in one life, or in lives a window apart, the first before the next life. */
  ghost predicate Ordered(takes: seq<Take>, i: nat, j: nat)
    requires i < j < |takes| && takes[i].life <= i && takes[j].life <= j
  {
    if takes[i].life == takes[j].life then takes[i].used < takes[j].used
    else takes[takes[i].life].at + WINDOW_MS <= takes[takes[j].life].at
         && takes[i].at < takes[takes[j].life].at && i < takes[j].life
  }

  /** The counter of a key is its newest life in the log. */
  ghost predicate CounterOk(takes: seq<Take>, key: Key, redis: Redis) {
    if key in redis then
      var c := redis[key];
      && c.life < |takes| && takes[c.life].life == c.life && takes[c.life].key == key
      && (c.expiresAt.Some? ==> takes[c.life].at + WINDOW_MS <= c.expiresAt.value)
      && (forall i | 0 <= i < |takes| && takes[i].key == key && takes[i].life == c.life ::
            takes[i].used <= c.used && (c.expiresAt.Some? ==> takes[i].at < c.expiresAt.value))
      && (forall i | 0 <= i < |takes| && takes[i].key == key && takes[i].life != c.life ::
            && takes[i].life < |takes| && takes[takes[i].life].at + WINDOW_MS <= takes[c.life].at
            && takes[i].at < takes[c.life].at && i < c.life)
    else forall i | 0 <= i < |takes| :: takes[i].key != key
  }

  ghost predicate StoreOk(takes: seq<Take>, redis: Redis, now: int) {
    LogOk(takes, now) && forall key :: CounterOk(takes, key, redis)
  }

  /** What an INCR returns follows everything the log holds for its key. */
  lemma TakeFollows(takes: seq<Take>, redis: Redis, key: Key, now: int)
    requires StoreOk(takes, redis, now)
    ensures var c := Incr(redis, key, now, |takes|).1;
            var takes' := takes + [Take(key, c.life, c.used, now)];
            && c.life <= |takes| && c.used >= 1
            && takes'[c.life].life == c.life && takes'[c.life].key == key
            && forall i | 0 <= i < |takes| && takes[i].key == key :: Ordered(takes', i, |takes|)
  {
    assert CounterOk(takes, key, redis);
  }

  lemma LogAppend(takes: seq<Take>, take: Take, now: int)
    requires LogOk(takes, now) && take.life <= |takes| && take.used >= 1 && take.at == now
    requires (takes + [take])[take.life].life == take.life && (takes + [take])[take.life].key == take.key
    requires forall i | 0 <= i < |takes| && takes[i].key == take.key :: Ordered(takes + [take], i, |takes|)
    ensures LogOk(takes + [take], now)
  {
    hide Ordered;
    var longer := takes + [take];
    forall i | 0 <= i < |longer|
      ensures InOwnLife(longer, i)
    {
      assert i < |takes| ==> InOwnLife(takes, i);
    }
    forall i, j | 0 <= i < j < |longer| && longer[i].key == longer[j].key
      ensures Ordered(longer, i, j)
    {
      if j < |takes| {
        assert Ordered(takes, i, j);
        OrderedPrefix(takes, take, i, j);
      }
    }
  }

  lemma OrderedPrefix(takes: seq<Take>, take: Take, i: nat, j: nat)
    requires i < j < |takes| && takes[i].life <= i && takes[j].life <= j
    ensures Ordered(takes + [take], i, j) <==> Ordered(takes, i, j)
  {
  }

  lemma CounterAppend(takes: seq<Take>, redis: Redis, key: Key, now: int, other: Key)
    requires StoreOk(takes, redis, now)
    ensures var (redis', c) := Incr(redis, key, now, |takes|);
            CounterOk(takes + [Take(key, c.life, c.used, now)], other, redis')
  {
    hide Ordered, InOwnLife;
    assert CounterOk(takes, other, redis) && LogOk(takes, now);
  }

  lemma TakeKeepsStore(s: State, key: Key)
    requires StoreOk(s.takes, s.redis, s.now)
    ensures var s' := TakeStep(s, key).0;
            StoreOk(s'.takes, s'.redis, s'.now)
  {
    hide CounterOk, LogOk, Ordered, Incr;
    var (redis, c) := Incr(s.redis, key, s.now, |s.takes|);
    TakeFollows(s.takes, s.redis, key, s.now);
    LogAppend(s.takes, Take(key, c.life, c.used, s.now), s.now);
    forall other
      ensures CounterOk(s.takes + [Take(key, c.life, c.used, s.now)], other, redis)
    {
      CounterAppend(s.takes, s.redis, key, s.now, other);
    }
  }

  lemma ExpireKeepsStore(takes: seq<Take>, redis: Redis, key: Key, now: int)
    requires StoreOk(takes, redis, now)
    ensures StoreOk(takes, Expire(redis, key, now), now)
  {
    forall other
      ensures CounterOk(takes, other, Expire(redis, key, now))
    {
      assert CounterOk(takes, other, redis);
    }
  }

  // --------------------------------------------------- INCRs and decisions

  /** On either side, every INCR judges one decision at most. */
  ghost predicate SideOk(s: State, side: bool, b: Budgets) {
    && (forall h | 0 <= h < |s.handlers| && s.handlers[h].Holding(side).Some? ::
          && s.handlers[h].Holding(side).value < |s.takes|
          && s.takes[s.handlers[h].Holding(side).value].key == s.handlers[h].KeyOf(side))
    && (forall g, h | 0 <= g < h < |s.handlers| && s.handlers[g].Holding(side).Some? ::
          s.handlers[g].Holding(side) != s.handlers[h].Holding(side))
    && (forall i | 0 <= i < |s.decisions| ::
          && s.decisions[i].TakeOn(side) < |s.takes|
          && s.takes[s.decisions[i].TakeOn(side)].key.PartnerKey? == side
          && s.takes[s.decisions[i].TakeOn(side)].at <= s.decisions[i].at <= s.now
          && (s.decisions[i].allowed ==>
                s.takes[s.decisions[i].TakeOn(side)].used <= b.Limit(s.takes[s.decisions[i].TakeOn(side)].key)))
    && (forall i, j | 0 <= i < j < |s.decisions| :: s.decisions[i].TakeOn(side) != s.decisions[j].TakeOn(side))
    && (forall h, i | 0 <= h < |s.handlers| && 0 <= i < |s.decisions| ::
          s.handlers[h].Holding(side) != Some(s.decisions[i].TakeOn(side)))
  }

  function TotalSends(hs: seq<Handler>): nat {
    if hs == [] then 0 else TotalSends(hs[..|hs| - 1]) + hs[|hs| - 1].sends
  }

  function TotalRetries(hs: seq<Handler>): nat {
    if hs == [] then 0 else TotalRetries(hs[..|hs| - 1]) + hs[|hs| - 1].retriesUsed
  }

  function AllowedCount(ds: seq<Decision>): nat {
    if ds == [] then 0 else AllowedCount(ds[..|ds| - 1]) + if ds[|ds| - 1].allowed then 1 else 0
  }

  /** A handler between attempts has sent once per retry it was granted; one under way, once more. */
  ghost predicate SendsOk(h: Handler) {
    h.sends <= h.retriesUsed + if h.pc.Ready? || h.pc.Sleeping? then 0 else 1
  }

  ghost predicate Inv(s: State, b: Budgets) {
    && StoreOk(s.takes, s.redis, s.now)
    && SideOk(s, true, b) && SideOk(s, false, b)
    && (forall h | 0 <= h < |s.handlers| :: SendsOk(s.handlers[h]))
    && TotalRetries(s.handlers) == AllowedCount(s.decisions)
  }

  lemma {:induction false} RetriesUpdate(hs: seq<Handler>, h: nat, handler: Handler)
    requires h < |hs|
    ensures TotalRetries(hs[h := handler]) == TotalRetries(hs) - hs[h].retriesUsed + handler.retriesUsed
  {
    var n := |hs| - 1;
    if h == n {
      assert hs[h := handler][..n] == hs[..n];
    } else {
      assert hs[h := handler][..n] == hs[..n][h := handler];
      RetriesUpdate(hs[..n], h, handler);
    }
  }

  lemma RetriesAppend(hs: seq<Handler>, handler: Handler)
    ensures TotalRetries(hs + [handler]) == TotalRetries(hs) + handler.retriesUsed
  {
    assert (hs + [handler])[..|hs|] == hs;
  }

  /** A step that leaves the side's INCRs in hand where they are. */
  ghost predicate SideUntouched(s: State, s': State, side: bool) {
    && s.takes <= s'.takes && s'.decisions == s.decisions && s.now <= s'.now
    && |s.handlers| <= |s'.handlers|
    && (forall h | 0 <= h < |s.handlers| ::
          s'.handlers[h].Holding(side) == s.handlers[h].Holding(side)
          && s'.handlers[h].KeyOf(side) == s.handlers[h].KeyOf(side))
    && (forall h | |s.handlers| <= h < |s'.handlers| :: s'.handlers[h].Holding(side) == None)
  }

  lemma UntouchedKeepsSide(s: State, s': State, side: bool, b: Budgets)
    requires SideOk(s, side, b) && SideUntouched(s, s', side)
    ensures SideOk(s', side, b)
  {
  }

  lemma TakeKeepsSide(s: State, s': State, h: nat, side: bool, b: Budgets)
    requires SideOk(s, side, b) && h < |s.handlers| == |s'.handlers|
    requires s'.decisions == s.decisions && s'.now == s.now
    requires |s'.takes| == |s.takes| + 1 && s.takes <= s'.takes
    requires s'.takes[|s.takes|].key == s'.handlers[h].KeyOf(side)
    requires s'.handlers[h].Holding(side) == Some(|s.takes|)
    requires forall g | 0 <= g < |s.handlers| && g != h :: s'.handlers[g] == s.handlers[g]
    ensures SideOk(s', side, b)
  {
  }

  lemma DecideKeepsSide(s: State, s': State, h: nat, d: Decision, side: bool, b: Budgets)
    requires SideOk(s, side, b) && h < |s.handlers| == |s'.handlers|
    requires forall i | 0 <= i < |s.takes| :: s.takes[i].at <= s.now
    requires s'.decisions == s.decisions + [d] && s'.takes == s.takes && s'.now == s.now == d.at
    requires s.handlers[h].Holding(side) == Some(d.TakeOn(side)) && s'.handlers[h].Holding(side) == None
    requires d.allowed && d.TakeOn(side) < |s.takes|
             ==> s.takes[d.TakeOn(side)].used <= b.Limit(s.handlers[h].KeyOf(side))
    requires forall g | 0 <= g < |s.handlers| && g != h :: s'.handlers[g] == s.handlers[g]
    ensures SideOk(s', side, b)
  {
    var n := |s.decisions|;
    assert s'.decisions[n] == d;
    assert forall i | 0 <= i < n :: s'.decisions[i] == s.decisions[i];
  }

  lemma TakesInThePast(s: State)
    requires StoreOk(s.takes, s.redis, s.now)
    ensures forall i | 0 <= i < |s.takes| :: s.takes[i].at <= s.now
  {
    hide CounterOk, Ordered;
  }

  lemma StepKeepsSide(s: State, a: Action, side: bool, b: Budgets)
    requires Enabled(s, a) && SideOk(s, side, b) && StoreOk(s.takes, s.redis, s.now)
    ensures SideOk(Apply(s, a, b), side, b)
  {
    hide SideOk, StoreOk, Incr, Expire;
    var s' := Apply(s, a, b);
    if a.Decide? {
      TakesInThePast(s);
      DecideKeepsSide(s, s', a.h, s'.decisions[|s.decisions|], side, b);
    } else if (a.TakePartner? && side) || (a.TakeVk? && !side) {
      TakeKeepsSide(s, s', a.h, side, b);
    } else {
      UntouchedKeepsSide(s, s', side, b);
    }
  }

  lemma StepKeepsStore(s: State, a: Action, b: Budgets)
    requires Enabled(s, a) && StoreOk(s.takes, s.redis, s.now)
    ensures var s' := Apply(s, a, b); StoreOk(s'.takes, s'.redis, s'.now)
  {
    if a.TakePartner? || a.TakeVk? {
      TakeKeepsStore(s, s.handlers[a.h].KeyOf(a.TakePartner?));
    } else if a.ExpirePartner? || a.ExpireVk? {
      ExpireKeepsStore(s.takes, s.redis, s.handlers[a.h].KeyOf(a.ExpirePartner?), s.now);
    } else {
      StoreLater(s.takes, s.redis, s.now, Apply(s, a, b).now);
    }
    hide StoreOk, Incr, Expire;
  }

  lemma StoreLater(takes: seq<Take>, redis: Redis, now: int, later: int)
    requires StoreOk(takes, redis, now) && now <= later
    ensures StoreOk(takes, redis, later)
  {
  }

  lemma AllowedAppend(ds: seq<Decision>, d: Decision)
    ensures AllowedCount(ds + [d]) == AllowedCount(ds) + if d.allowed then 1 else 0
  {
    assert (ds + [d])[..|ds|] == ds;
  }

  lemma StepKeepsSends(s: State, a: Action, b: Budgets)
    requires Enabled(s, a)
    requires forall h | 0 <= h < |s.handlers| :: SendsOk(s.handlers[h])
    ensures var s' := Apply(s, a, b);
            forall h | 0 <= h < |s'.handlers| :: SendsOk(s'.handlers[h])
  {
    hide Incr, Expire;
  }

  lemma StepKeepsRetries(s: State, a: Action, b: Budgets)
    requires Enabled(s, a) && TotalRetries(s.handlers) == AllowedCount(s.decisions)
    ensures var s' := Apply(s, a, b); TotalRetries(s'.handlers) == AllowedCount(s'.decisions)
  {
    hide TotalRetries, AllowedCount, Incr, Expire;
    match a
    case Tick(_) =>
    case Arrive(partner, vk) => RetriesAppend(s.handlers, Handler(partner, vk, 0, 0, Ready));
    case Decide(h) =>
      var s' := Apply(s, a, b);
      RetriesUpdate(s.handlers, h, s'.handlers[h]);
      AllowedAppend(s.decisions, s'.decisions[|s.decisions|]);
    case _ => RetriesUpdate(s.handlers, a.h, Apply(s, a, b).handlers[a.h]);
  }

  lemma StepKeepsInv(s: State, a: Action, b: Budgets)
    requires Enabled(s, a) && Inv(s, b)
    ensures Inv(Apply(s, a, b), b)
  {
    hide SideOk, StoreOk, SendsOk, Apply, Enabled;
    StepKeepsSide(s, a, true, b);
    StepKeepsSide(s, a, false, b);
    StepKeepsStore(s, a, b);
    StepKeepsSends(s, a, b);
    StepKeepsRetries(s, a, b);
  }

  // ------------------------------------------------------------- whole runs

  ghost predicate Schedule(s: State, actions: seq<Action>, b: Budgets)
    decreases |actions|
  {
    actions == [] || (Enabled(s, actions[0]) && Schedule(Apply(s, actions[0], b), actions[1..], b))
  }

  function Run(s: State, actions: seq<Action>, b: Budgets): State
    requires Schedule(s, actions, b)
    decreases |actions|
  {
    if actions == [] then s else Run(Apply(s, actions[0], b), actions[1..], b)
  }

  /** An empty store and no handlers. */
  function Start(now: int): State {
    State(now, map[], [], [], [])
  }

  lemma {:induction false} RunKeepsInv(s: State, actions: seq<Action>, b: Budgets)
    requires Inv(s, b) && Schedule(s, actions, b)
    ensures Inv(Run(s, actions, b), b)
    decreases |actions|
  {
    if actions != [] {
      StepKeepsInv(s, actions[0], b);
      RunKeepsInv(Apply(s, actions[0], b), actions[1..], b);
    }
  }

  lemma InvFromStart(start: int, actions: seq<Action>, b: Budgets)
    requires Schedule(Start(start), actions, b)
    ensures Inv(Run(Start(start), actions, b), b)
  {
    hide Inv, Run, Schedule;
    StartInv(start, b);
    RunKeepsInv(Start(start), actions, b);
  }

  lemma StartInv(start: int, b: Budgets)
    ensures Inv(Start(start), b)
  {
    assert StoreOk([], map[], start) by {
      hide SideOk, SendsOk;
      assert forall key :: CounterOk([], key, map[]);
    }
    hide StoreOk, CounterOk, LogOk, Ordered;
  }

  lemma {:induction false} SendsBounded(hs: seq<Handler>)
    requires forall h | 0 <= h < |hs| :: SendsOk(hs[h])
    ensures TotalSends(hs) <= |hs| + TotalRetries(hs)
  {
    if hs != [] {
      SendsBounded(hs[..|hs| - 1]);
      assert SendsOk(hs[|hs| - 1]);
    }
  }

  /** Upstream sends never exceed one per handler plus one per retry the gate allowed. */
  lemma RetryAmplification(start: int, actions: seq<Action>, b: Budgets)
    requires Schedule(Start(start), actions, b)
    ensures var end := Run(Start(start), actions, b);
            TotalSends(end.handlers) <= |end.handlers| + AllowedCount(end.decisions)
  {
    InvFromStart(start, actions, b);
    SendsBounded(Run(Start(start), actions, b).handlers);
  }

  // -------------------------------------------- how many decisions a limit allows

  /** The allowed decisions judged by an INCR of `key`. */
  ghost predicate AllowedBy(s: State, key: Key, i: nat) {
    && i < |s.decisions| && s.decisions[i].allowed
    && s.decisions[i].TakeOn(key.PartnerKey?) < |s.takes|
    && s.takes[s.decisions[i].TakeOn(key.PartnerKey?)].key == key
  }

  function TakeOf(s: State, key: Key, i: nat): Take
    requires AllowedBy(s, key, i)
  {
    s.takes[s.decisions[i].TakeOn(key.PartnerKey?)]
  }

  ghost function InLife(s: State, key: Key, life: nat): set<nat> {
    set i | 0 <= i < |s.decisions| && AllowedBy(s, key, i) && TakeOf(s, key, i).life == life
  }

  /** Decisions of one life rest on different counts. */
  lemma DistinctCounts(s: State, key: Key, i: nat, j: nat, b: Budgets)
    requires Inv(s, b) && i != j && AllowedBy(s, key, i) && AllowedBy(s, key, j)
    requires TakeOf(s, key, i).life == TakeOf(s, key, j).life
    ensures TakeOf(s, key, i).used != TakeOf(s, key, j).used
  {
    assert SideOk(s, key.PartnerKey?, b);
    var x, y := s.decisions[i].TakeOn(key.PartnerKey?), s.decisions[j].TakeOn(key.PartnerKey?);
    assert x != y by {
      if i < j {
        assert s.decisions[i].TakeOn(key.PartnerKey?) != s.decisions[j].TakeOn(key.PartnerKey?);
      } else {
        assert s.decisions[j].TakeOn(key.PartnerKey?) != s.decisions[i].TakeOn(key.PartnerKey?);
      }
    }
    hide SideOk, CounterOk;
    if x < y {
      assert Ordered(s.takes, x, y);
    } else {
      assert Ordered(s.takes, y, x);
    }
  }

  lemma CountInRange(s: State, key: Key, i: nat, b: Budgets)
    requires Inv(s, b) && AllowedBy(s, key, i)
    ensures 1 <= TakeOf(s, key, i).used <= b.Limit(key)
  {
    assert SideOk(s, key.PartnerKey?, b);
    hide CounterOk, Ordered;
  }

  /** Decisions of one life with counts up to `top` number at most `top`. */
  lemma {:induction false} AtMostTop(s: State, key: Key, life: nat, ids: set<nat>, top: nat, b: Budgets)
    requires Inv(s, b) && ids <= InLife(s, key, life)
    requires forall i | i in ids :: TakeOf(s, key, i).used <= top
    ensures |ids| <= top
    decreases top
  {
    hide Inv;
    if ids != {} {
      var i :| i in ids;
      CountInRange(s, key, i, b);
      if k :| k in ids && TakeOf(s, key, k).used == top {
        var rest := ids - {k};
        forall j | j in rest
          ensures TakeOf(s, key, j).used <= top - 1
        {
          DistinctCounts(s, key, j, k, b);
        }
        AtMostTop(s, key, life, rest, top - 1, b);
      } else {
        AtMostTop(s, key, life, ids, top - 1, b);
      }
    }
  }

  /** Within one life of a counter, no more decisions are allowed than its limit. */
  lemma LimitPerLife(s: State, key: Key, life: nat, b: Budgets)
    requires Inv(s, b)
    ensures |InLife(s, key, life)| <= b.Limit(key)
  {
    forall i | i in InLife(s, key, life)
      ensures TakeOf(s, key, i).used <= b.Limit(key)
    {
      CountInRange(s, key, i, b);
    }
    AtMostTop(s, key, life, InLife(s, key, life), b.Limit(key), b);
  }

  /** The allowed decisions whose INCR of `key` fell in an interval. */
  ghost function TakenWithin(s: State, key: Key, from: int, to: int): set<nat> {
    set i | 0 <= i < |s.decisions| && AllowedBy(s, key, i) && from <= TakeOf(s, key, i).at <= to
  }

  /** From an INCR to one in the next life but one takes more than this. */
  function Threshold(limit: nat): nat {
    if limit == 1 then 2 * WINDOW_MS - 1 else WINDOW_MS
  }

  /**
   * From a life to the next but one takes more than a window; with a limit of one, where only the INCR
   * that starts a life earns a decision, two windows.
   */
  lemma ThreeLivesSpan(s: State, key: Key, i: nat, j: nat, k: nat, b: Budgets)
    requires Inv(s, b) && AllowedBy(s, key, i) && AllowedBy(s, key, j) && AllowedBy(s, key, k)
    requires TakeOf(s, key, i).life < TakeOf(s, key, j).life < TakeOf(s, key, k).life
    ensures TakeOf(s, key, i).at + Threshold(b.Limit(key)) < TakeOf(s, key, k).at
  {
    var side := key.PartnerKey?;
    var x, y, z := s.decisions[i].TakeOn(side), s.decisions[j].TakeOn(side), s.decisions[k].TakeOn(side);
    assert LogOk(s.takes, s.now);
    CountInRange(s, key, i, b);
    hide Inv, Ordered;
    EarlierLife(s.takes, s.now, x, y);
    EarlierLife(s.takes, s.now, y, z);
    if b.Limit(key) == 1 {
      FirstOfLife(s.takes, s.now, x);
    }
    assert s.takes[s.takes[z].life].at <= s.takes[z].at;
  }

  lemma FirstOfLife(takes: seq<Take>, now: int, x: nat)
    requires LogOk(takes, now) && x < |takes| && takes[x].used == 1
    ensures takes[x].life == x
  {
    var life := takes[x].life;
    assert InOwnLife(takes, x);
    assert life < x ==> Ordered(takes, life, x);
  }

  lemma EarlierLife(takes: seq<Take>, now: int, x: nat, y: nat)
    requires LogOk(takes, now) && x < |takes| && y < |takes| && takes[x].key == takes[y].key
    requires takes[x].life < takes[y].life
    ensures x < takes[y].life && takes[x].at < takes[takes[y].life].at
    ensures takes[takes[x].life].at + WINDOW_MS <= takes[takes[y].life].at
  {
    assert x < y ==> Ordered(takes, x, y);
    assert y < x ==> Ordered(takes, y, x);
  }

  lemma TwoLivesAtMost(s: State, key: Key, i: nat, j: nat, k: nat, from: int, to: int, b: Budgets)
    requires Inv(s, b) && {i, j, k} <= TakenWithin(s, key, from, to) && to - from <= Threshold(b.Limit(key))
    requires TakeOf(s, key, i).life != TakeOf(s, key, j).life
    ensures TakeOf(s, key, k).life == TakeOf(s, key, i).life || TakeOf(s, key, k).life == TakeOf(s, key, j).life
  {
    var x, y, z := TakeOf(s, key, i).life, TakeOf(s, key, j).life, TakeOf(s, key, k).life;
    if x < y < z {
      ThreeLivesSpan(s, key, i, j, k, b);
    } else if x < z < y {
      ThreeLivesSpan(s, key, i, k, j, b);
    } else if y < x < z {
      ThreeLivesSpan(s, key, j, i, k, b);
    } else if y < z < x {
      ThreeLivesSpan(s, key, j, k, i, b);
    } else if z < x < y {
      ThreeLivesSpan(s, key, k, i, j, b);
    } else if z < y < x {
      ThreeLivesSpan(s, key, k, j, i, b);
    }
  }

  /** In any interval up to the threshold, a minute at least, the INCRs of a counter earn at most twice its limit. */
  lemma TwiceTheLimitPerMinute(s: State, key: Key, from: int, to: int, b: Budgets)
    requires Inv(s, b) && to - from <= Threshold(b.Limit(key))
    ensures |TakenWithin(s, key, from, to)| <= 2 * b.Limit(key)
  {
    hide Inv;
    var ids := TakenWithin(s, key, from, to);
    if i :| i in ids {
      var x := TakeOf(s, key, i).life;
      LimitPerLife(s, key, x, b);
      if j :| j in ids && TakeOf(s, key, j).life != x {
        var y := TakeOf(s, key, j).life;
        LimitPerLife(s, key, y, b);
        forall k | k in ids
          ensures k in InLife(s, key, x) + InLife(s, key, y)
        {
          TwoLivesAtMost(s, key, i, j, k, from, to, b);
        }
        SubsetSize(ids, InLife(s, key, x) + InLife(s, key, y));
      } else {
        SubsetSize(ids, InLife(s, key, x));
      }
    }
  }

  lemma {:induction false} SubsetSize(a: set<nat>, b: set<nat>)
    requires a <= b
    ensures |a| <= |b|
  {
    assert b == a + (b - a);
  }

  /** The allowed decisions on `key` answered in an interval, each at most `delay` after its INCR. */
  ghost function AnsweredWithin(s: State, key: Key, from: int, to: int, delay: nat): set<nat> {
    set i | 0 <= i < |s.decisions| && AllowedBy(s, key, i)
            && from <= s.decisions[i].at <= to && s.decisions[i].at - TakeOf(s, key, i).at <= delay
  }

  lemma TakeBeforeAnswer(s: State, key: Key, i: nat, b: Budgets)
    requires Inv(s, b) && AllowedBy(s, key, i)
    ensures TakeOf(s, key, i).at <= s.decisions[i].at
  {
    hide StoreOk, SendsOk;
    assert SideOk(s, key.PartnerKey?, b);
  }

  /** Counted by when the gate answers, the bound needs the delay between INCR and answer as well. */
  lemma AnswersPerMinute(s: State, key: Key, from: int, to: int, delay: nat, b: Budgets)
    requires Inv(s, b) && to - from + delay <= Threshold(b.Limit(key))
    ensures |AnsweredWithin(s, key, from, to, delay)| <= 2 * b.Limit(key)
  {
    hide Inv;
    TwiceTheLimitPerMinute(s, key, from - delay, to, b);
    forall i | i in AnsweredWithin(s, key, from, to, delay)
      ensures i in TakenWithin(s, key, from - delay, to)
    {
      TakeBeforeAnswer(s, key, i, b);
    }
    SubsetSize(AnsweredWithin(s, key, from, to, delay), TakenWithin(s, key, from - delay, to));
  }

  /** Over whole runs: a limit caps each life, twice the limit caps any minute. */
  lemma GateLimitsOverRuns(
    start: int, actions: seq<Action>, key: Key, life: nat, from: int, to: int, delay: nat, b: Budgets)
    requires Schedule(Start(start), actions, b) && to - from + delay <= Threshold(b.Limit(key))
    ensures var end := Run(Start(start), actions, b);
            && |InLife(end, key, life)| <= b.Limit(key)
            && |TakenWithin(end, key, from, to)| <= 2 * b.Limit(key)
            && |AnsweredWithin(end, key, from, to, delay)| <= 2 * b.Limit(key)
  {
    InvFromStart(start, actions, b);
    var end := Run(Start(start), actions, b);
    LimitPerLife(end, key, life, b);
    TwiceTheLimitPerMinute(end, key, from, to, b);
    AnswersPerMinute(end, key, from, to, delay, b);
  }

  // -------------------------------------------- why the delay is in that bound

  lemma {:induction false} RunAppend(s: State, x: seq<Action>, y: seq<Action>, b: Budgets)
    requires Schedule(s, x, b) && Schedule(Run(s, x, b), y, b)
    ensures Schedule(s, x + y, b) && Run(s, x + y, b) == Run(Run(s, x, b), y, b)
    decreases |x|
  {
    if x == [] {
      assert x + y == y;
    } else {
      RunAppend(Apply(s, x[0], b), x[1..], y, b);
      assert (x + y)[1..] == x[1..] + y;
    }
  }

  lemma RunOne(s: State, x: seq<Action>, a: Action, b: Budgets)
    requires Schedule(s, x, b) && Enabled(Run(s, x, b), a)
    ensures Schedule(s, x + [a], b) && Run(s, x + [a], b) == Apply(Run(s, x, b), a, b)
  {
    var mid := Run(s, x, b);
    assert Schedule(Apply(mid, a, b), [], b) && [a][1..] == [];
    assert Schedule(mid, [a], b);
    RunAppend(s, x, [a], b);
  }

  /** One side of the gate taken without interference. */
  lemma TakeIsASchedule(s: State, x: seq<Action>, h: nat, partnerSide: bool, p: nat, b: Budgets)
    returns (longer: seq<Action>)
    requires Schedule(s, x, b)
    requires var s0 := Run(s, x, b);
             h < |s0.handlers| && s0.handlers[h].pc == if partnerSide then TakingPartner else TakingVk(p)
    ensures Schedule(s, longer, b)
    ensures var s0, end := Run(s, x, b), Run(s, longer, b);
            var (store, used) := TakeOne(s0.redis, s0.handlers[h].KeyOf(partnerSide), s0.now, |s0.takes|);
            && |end.takes| == |s0.takes| + 1 && end.takes[..|s0.takes|] == s0.takes
            && end.takes[|s0.takes|] == 
               Take(s0.handlers[h].KeyOf(partnerSide), end.takes[|s0.takes|].life, used, s0.now)
            && end == s0.(redis := store, takes := end.takes,
                          handlers := s0.handlers[h := s0.handlers[h].(pc :=
                            if partnerSide then TakingVk(|s0.takes|) else Deciding(p, |s0.takes|))])
  {
    var s0 := Run(s, x, b);
    var take := if partnerSide then TakePartner(h) else TakeVk(h);
    var expire := if partnerSide then ExpirePartner(h) else ExpireVk(h);
    RunOne(s, x, take, b);
    longer := x + [take];
    if s0.handlers[h].KeyOf(partnerSide) in Live(s0.redis, s0.handlers[h].KeyOf(partnerSide), s0.now)
       && TakeStep(s0, s0.handlers[h].KeyOf(partnerSide)).1 != 1 {
      hide Run, Schedule;
    } else {
      RunOne(s, longer, expire, b);
      longer := longer + [expire];
      hide Run, Schedule;
    }
  }

  /** A gate run without interference leaves the store, and answers, what the sequential gate does. */
  lemma GateIsASchedule(s: State, x: seq<Action>, h: nat, b: Budgets) returns (longer: seq<Action>)
    requires Schedule(s, x, b)
    requires var s0 := Run(s, x, b); h < |s0.handlers| && s0.handlers[h].pc == TakingPartner
    ensures Schedule(s, longer, b)
    ensures var s0, end := Run(s, x, b), Run(s, longer, b);
            var (store, p, v) := Gate(s0.redis, s0.handlers[h].partner, s0.handlers[h].virtualKey, s0.now, |s0.takes|);
            && end.redis == store && |end.decisions| == |s0.decisions| + 1
            && (end.decisions[|s0.decisions|].allowed <==> p <= b.partnerRetriesPerMin && v <= b.vkRetriesPerMin)
  {
    var n := |Run(s, x, b).takes|;
    var y := TakeIsASchedule(s, x, h, true, 0, b);
    var z := TakeIsASchedule(s, y, h, false, n, b);
    hide TakeOne;
    assert Run(s, z, b).takes[..n + 1] == Run(s, y, b).takes;
    RunOne(s, z, Decide(h), b);
    longer := z + [Decide(h)];
    hide Run, Schedule;
  }

  // -------------------------------------------- runs that reach the bound

  function Name(n: nat): string {
    seq(n, _ => 'p')
  }

  /** The counter the `n`th caller of `key` takes on the other side: one of its own. */
  function OtherKey(key: Key, n: nat): Key {
    if key.PartnerKey? then VirtualKey(n) else PartnerKey(Name(n))
  }

  /** The `n`th caller of `key`, which has sent and met a retryable outcome. */
  function Caller(key: Key, n: nat): Handler {
    if key.PartnerKey? then Handler(key.name, n, 1, 0, TakingPartner) else Handler(Name(n), key.id, 1, 0, TakingPartner)
  }

  lemma OtherKeysDiffer(key: Key, m: nat, n: nat)
    requires m != n
    ensures OtherKey(key, m) != OtherKey(key, n)
  {
    assert |Name(m)| == m && |Name(n)| == n;
  }

  lemma ReachesGate(s: State, x: seq<Action>, key: Key, n: nat, b: Budgets) returns (longer: seq<Action>)
    requires Schedule(s, x, b) && |Run(s, x, b).handlers| == n
    ensures Schedule(s, longer, b)
    ensures var s0 := Run(s, x, b);
            Run(s, longer, b) == s0.(handlers := s0.handlers + [Caller(key, n)])
  {
    var arrive := Arrive(Caller(key, n).partner, Caller(key, n).virtualKey);
    RunOne(s, x, arrive, b);
    RunOne(s, x + [arrive], Send(n), b);
    RunOne(s, x + [arrive] + [Send(n)], Complete(n, true), b);
    longer := x + [arrive] + [Send(n)] + [Complete(n, true)];
    hide Run, Schedule;
  }

  /** The counter of `key` has counted `used` and expires at `e`; with 0 it is gone, and an INCR would start it. */
  ghost predicate Meter(redis: Redis, key: Key, now: int, used: nat, e: int) {
    if used == 0 then key !in Live(redis, key, now) && e == now + WINDOW_MS
    else key in redis && redis[key].used == used && redis[key].expiresAt == Some(e) && now < e
  }

  lemma TakeOneMeter(redis: Redis, key: Key, now: int, life: nat, used: nat, e: int)
    requires Meter(redis, key, now, used, e)
    ensures var (store, u) := TakeOne(redis, key, now, life);
            u == used + 1 && Meter(store, key, now, used + 1, e)
  {
  }

  lemma TakeOneLeavesOthers(redis: Redis, key: Key, now: int, life: nat, other: Key)
    requires other != key
    ensures var store := TakeOne(redis, key, now, life).0;
            (other in store <==> other in redis) && (other in redis ==> store[other] == redis[other])
  {
  }

  /** A handler waits for its answer, which will be yes. */
  ghost predicate WillBeAllowed(s: State, key: Key, h: Handler, since: int, b: Budgets) {
    && h.pc.Deciding? && h.pc.p < |s.takes| && h.pc.v < |s.takes|
    && s.takes[h.pc.p].used <= b.partnerRetriesPerMin && s.takes[h.pc.v].used <= b.vkRetriesPerMin
    && var take := s.takes[if key.PartnerKey? then h.pc.p else h.pc.v];
       take.key == key && since <= take.at
  }

  /** What is asked of a run: answers on `key` in an interval, each within `delay` of its INCR. */
  datatype Plan = Plan(key: Key, from: int, to: int, delay: nat, b: Budgets)

  /**
   * The handlers from `first` on number `m`; the first `k` have their answers as planned, the others
   * wait for theirs, having taken their counts not before `since`.
   */
  ghost predicate Gathered(s: State, c: Plan, first: nat, since: int, m: nat, k: nat) {
    && |s.handlers| == first + m && |s.decisions| == k <= m
    && (forall n: nat | n >= |s.handlers| :: OtherKey(c.key, n) !in s.redis)
    && (forall i: nat | i < k :: i in AnsweredWithin(s, c.key, c.from, c.to, c.delay))
    && (forall h: nat | first + k <= h < first + m :: WillBeAllowed(s, c.key, s.handlers[h], since, c.b))
  }

  /** One more caller takes both counts. */
  lemma TakesBoth(s: State, x: seq<Action>, key: Key, n: nat, used: nat, e: int, b: Budgets)
    returns (longer: seq<Action>)
    requires Schedule(s, x, b) && |Run(s, x, b).handlers| == n && OtherKey(key, n) !in Run(s, x, b).redis
    requires Meter(Run(s, x, b).redis, key, Run(s, x, b).now, used, e)
    requires used < b.Limit(key) && b.partnerRetriesPerMin >= 1 && b.vkRetriesPerMin >= 1
    ensures Schedule(s, longer, b)
    ensures var s0, end := Run(s, x, b), Run(s, longer, b);
            && end.now == s0.now && end.decisions == s0.decisions && s0.takes <= end.takes
            && |end.handlers| == n + 1 && end.handlers[..n] == s0.handlers
            && WillBeAllowed(end, key, end.handlers[n], s0.now, b)
            && Meter(end.redis, key, s0.now, used + 1, e)
            && forall other | other != key && other != OtherKey(key, n) :: other in end.redis ==> other in s0.redis
  {
    var s0 := Run(s, x, b);
    var life, now := |s0.takes|, s0.now;
    var y := ReachesGate(s, x, key, n, b);
    var z := TakeIsASchedule(s, y, n, true, 0, b);
    longer := TakeIsASchedule(s, z, n, false, life, b);
    hide TakeOne, Run, Schedule, Meter;
    var own, other := key, OtherKey(key, n);
    var first, second := if key.PartnerKey? then own else other, if key.PartnerKey? then other else own;
    var mid := TakeOne(s0.redis, first, now, life).0;
    assert Meter(s0.redis, other, now, 0, now + WINDOW_MS) by {
      GoneMeter(s0.redis, other, now);
    }
    if key.PartnerKey? {
      TakeOneMeter(s0.redis, own, now, life, used, e);
      TakeOneLeavesOthers(s0.redis, own, now, life, other);
      GoneMeter(mid, other, now);
      TakeOneMeter(mid, other, now, life + 1, 0, now + WINDOW_MS);
      SameMeter(mid, other, now, life + 1, own, used + 1, e);
    } else {
      TakeOneMeter(s0.redis, other, now, life, 0, now + WINDOW_MS);
      SameMeter(s0.redis, other, now, life, own, used, e);
      TakeOneMeter(mid, own, now, life + 1, used, e);
    }
    forall k | k != key && k != other
      ensures k in Run(s, longer, b).redis ==> k in s0.redis
    {
      TakeOneLeavesOthers(s0.redis, first, now, life, k);
      TakeOneLeavesOthers(mid, second, now, life + 1, k);
    }
  }

  lemma GoneMeter(redis: Redis, key: Key, now: int)
    requires key !in redis
    ensures Meter(redis, key, now, 0, now + WINDOW_MS)
  {
  }

  lemma SameMeter(redis: Redis, taken: Key, now: int, life: nat, key: Key, used: nat, e: int)
    requires key != taken && Meter(redis, key, now, used, e)
    ensures Meter(TakeOne(redis, taken, now, life).0, key, now, used, e)
  {
  }

  lemma Stays(s: State, s': State, key: Key, h: Handler, since: int, b: Budgets)
    requires WillBeAllowed(s, key, h, since, b) && s.takes <= s'.takes
    ensures WillBeAllowed(s', key, h, since, b)
  {
  }

  lemma AnswerStays(s: State, s': State, key: Key, i: nat, from: int, to: int, delay: nat)
    requires i in AnsweredWithin(s, key, from, to, delay) && s.takes <= s'.takes && s.decisions <= s'.decisions
    ensures i in AnsweredWithin(s', key, from, to, delay)
  {
  }

  /** One more caller joins those who wait. */
  lemma OneMoreWaits(s: State, x: seq<Action>, c: Plan, first: nat, since: int, m: nat, k: nat, used: nat, e: int)
    returns (longer: seq<Action>)
    requires Schedule(s, x, c.b) && Gathered(Run(s, x, c.b), c, first, since, m, k) && since <= Run(s, x, c.b).now
    requires Meter(Run(s, x, c.b).redis, c.key, Run(s, x, c.b).now, used, e)
    requires used < c.b.Limit(c.key) && c.b.partnerRetriesPerMin >= 1 && c.b.vkRetriesPerMin >= 1
    ensures Schedule(s, longer, c.b) && Gathered(Run(s, longer, c.b), c, first, since, m + 1, k)
    ensures Run(s, longer, c.b).now == Run(s, x, c.b).now
    ensures Meter(Run(s, longer, c.b).redis, c.key, Run(s, longer, c.b).now, used + 1, e)
  {
    hide Run, Schedule, Meter, WillBeAllowed, AnsweredWithin;
    var s0, n := Run(s, x, c.b), first + m;
    longer := TakesBoth(s, x, c.key, n, used, e, c.b);
    var end := Run(s, longer, c.b);
    forall h: nat | first + k <= h < n + 1
      ensures WillBeAllowed(end, c.key, end.handlers[h], since, c.b)
    {
      if h < n {
        assert end.handlers[h] == end.handlers[..n][h] == s0.handlers[h];
        Stays(s0, end, c.key, s0.handlers[h], since, c.b);
      } else {
        WaitsLonger(end, c.key, end.handlers[n], s0.now, since, c.b);
      }
    }
    forall i: nat | i < k
      ensures i in AnsweredWithin(end, c.key, c.from, c.to, c.delay)
    {
      AnswerStays(s0, end, c.key, i, c.from, c.to, c.delay);
    }
    forall l: nat | l >= n + 1
      ensures OtherKey(c.key, l) !in end.redis
    {
      OtherKeysDiffer(c.key, l, n);
    }
  }

  lemma WaitsLonger(s: State, key: Key, h: Handler, since: int, earlier: int, b: Budgets)
    requires WillBeAllowed(s, key, h, since, b) && earlier <= since
    ensures WillBeAllowed(s, key, h, earlier, b)
  {
  }

  lemma {:induction false} MoreWait(
    s: State, x: seq<Action>, c: Plan, first: nat, since: int, m: nat, k: nat, used: nat, e: int, g: nat)
    returns (longer: seq<Action>)
    requires Schedule(s, x, c.b) && Gathered(Run(s, x, c.b), c, first, since, m, k) && since <= Run(s, x, c.b).now
    requires Meter(Run(s, x, c.b).redis, c.key, Run(s, x, c.b).now, used, e)
    requires used + g <= c.b.Limit(c.key) && c.b.partnerRetriesPerMin >= 1 && c.b.vkRetriesPerMin >= 1
    ensures Schedule(s, longer, c.b) && Gathered(Run(s, longer, c.b), c, first, since, m + g, k)
    ensures Run(s, longer, c.b).now == Run(s, x, c.b).now
    ensures Meter(Run(s, longer, c.b).redis, c.key, Run(s, longer, c.b).now, used + g, e)
  {
    longer := x;
    if g > 0 {
      hide Run, Schedule, Meter, Gathered;
      var y := MoreWait(s, x, c, first, since, m, k, used, e, g - 1);
      longer := OneMoreWaits(s, y, c, first, since, m + g - 1, k, used + g - 1, e);
    }
  }

  lemma OneMoreAnswer(s: State, c: Plan, first: nat, since: int, m: nat, k: nat)
    requires Gathered(s, c, first, since, m, k) && k < m && c.from <= s.now <= c.to && s.now - since <= c.delay
    ensures Enabled(s, Decide(first + k)) && Gathered(Apply(s, Decide(first + k), c.b), c, first, since, m, k + 1)
  {
    hide AnsweredWithin, LogOk, StoreOk, WillBeAllowed;
    var h := first + k;
    assert WillBeAllowed(s, c.key, s.handlers[h], since, c.b);
    AnswerCounts(s, c, h, since);
    var s' := Apply(s, Decide(h), c.b);
    forall i: nat | i < k
      ensures i in AnsweredWithin(s', c.key, c.from, c.to, c.delay)
    {
      AnswerStays(s, s', c.key, i, c.from, c.to, c.delay);
    }
    forall g: nat | h < g < first + m
      ensures WillBeAllowed(s', c.key, s'.handlers[g], since, c.b)
    {
      Stays(s, s', c.key, s.handlers[g], since, c.b);
    }
  }

  lemma AnswerCounts(s: State, c: Plan, h: nat, since: int)
    requires h < |s.handlers| && WillBeAllowed(s, c.key, s.handlers[h], since, c.b)
    requires c.from <= s.now <= c.to && s.now - since <= c.delay
    ensures Enabled(s, Decide(h))
    ensures var s' := Apply(s, Decide(h), c.b);
            && |s'.decisions| == |s.decisions| + 1 && s.decisions <= s'.decisions
            && s'.takes == s.takes && s'.redis == s.redis && s'.now == s.now
            && |s'.handlers| == |s.handlers|
            && (forall g | 0 <= g < |s.handlers| && g != h :: s'.handlers[g] == s.handlers[g])
            && |s.decisions| in AnsweredWithin(s', c.key, c.from, c.to, c.delay)
  {
    var s' := Apply(s, Decide(h), c.b);
    assert AllowedBy(s', c.key, |s.decisions|);
  }

  lemma {:induction false} AllAnswered(s: State, x: seq<Action>, c: Plan, first: nat, since: int, m: nat, k: nat)
    returns (longer: seq<Action>)
    requires Schedule(s, x, c.b) && Gathered(Run(s, x, c.b), c, first, since, m, k) && k <= m
    requires c.from <= Run(s, x, c.b).now <= c.to && Run(s, x, c.b).now - since <= c.delay
    ensures Schedule(s, longer, c.b) && Gathered(Run(s, longer, c.b), c, first, since, m, m)
    ensures Run(s, longer, c.b).now == Run(s, x, c.b).now && Run(s, longer, c.b).redis == Run(s, x, c.b).redis
    decreases m - k
  {
    longer := x;
    if k < m {
      hide Run, Schedule, Gathered;
      OneMoreAnswer(Run(s, x, c.b), c, first, since, m, k);
      RunOne(s, x, Decide(first + k), c.b);
      longer := AllAnswered(s, x + [Decide(first + k)], c, first, since, m, k + 1);
    }
  }

  lemma Wait(s: State, x: seq<Action>, c: Plan, first: nat, since: int, m: nat, k: nat, until: int)
    returns (longer: seq<Action>)
    requires Schedule(s, x, c.b) && Gathered(Run(s, x, c.b), c, first, since, m, k) && Run(s, x, c.b).now <= until
    ensures Schedule(s, longer, c.b) && Gathered(Run(s, longer, c.b), c, first, since, m, k)
    ensures Run(s, longer, c.b).now == until && Run(s, longer, c.b).redis == Run(s, x, c.b).redis
  {
    var s0 := Run(s, x, c.b);
    RunOne(s, x, Tick(until - s0.now), c.b);
    longer := x + [Tick(until - s0.now)];
    hide Run, Schedule, WillBeAllowed, AnsweredWithin;
    var end := Run(s, longer, c.b);
    forall h: nat | first + k <= h < first + m
      ensures WillBeAllowed(end, c.key, end.handlers[h], since, c.b)
    {
      Stays(s0, end, c.key, s0.handlers[h], since, c.b);
    }
    forall i: nat | i < k
      ensures i in AnsweredWithin(end, c.key, c.from, c.to, c.delay)
    {
      AnswerStays(s0, end, c.key, i, c.from, c.to, c.delay);
    }
  }

  lemma NoOneWaits(s: State, c: Plan, first: nat, since: int, m: nat, since': int)
    requires Gathered(s, c, first, since, m, m)
    ensures Gathered(s, c, first, since', m, m)
  {
  }

  /**
   * `g` callers take their counts now, and time moves on to `until`; from `c.from` on, whoever waits
   * is answered before time moves.
   */
  lemma Stage(s: State, x: seq<Action>, c: Plan, first: nat, m: nat, k: nat, used: nat, e: int, g: nat, until: int)
    returns (longer: seq<Action>, k': nat)
    requires Schedule(s, x, c.b) && k <= m && Gathered(Run(s, x, c.b), c, first, c.from - c.delay, m, k)
    requires Meter(Run(s, x, c.b).redis, c.key, Run(s, x, c.b).now, used, e)
    requires 1 <= g && used + g <= c.b.Limit(c.key) && c.b.partnerRetriesPerMin >= 1 && c.b.vkRetriesPerMin >= 1
    requires var now := Run(s, x, c.b).now;
             c.from - c.delay <= now < until && now <= c.to && c.from <= c.to && (k < m ==> now <= c.from)
    ensures Schedule(s, longer, c.b) && k' <= m + g
    ensures var end := Run(s, longer, c.b);
            && end.now == until && Gathered(end, c, first, c.from - c.delay, m + g, k')
            && (k' < m + g ==> until <= c.from)
            && c.key in end.redis && end.redis[c.key].used == used + g && end.redis[c.key].expiresAt == Some(e)
  {
    hide Run, Schedule, Gathered;
    var now, early := Run(s, x, c.b).now, c.from - c.delay;
    var since := if k == m then now else early;
    if k == m {
      NoOneWaits(Run(s, x, c.b), c, first, early, m, since);
    }
    if now >= c.from {
      longer := MoreWait(s, x, c, first, since, m, k, used, e, g);
      longer := AllAnswered(s, longer, c, first, since, m + g, k);
    } else {
      longer := MoreWait(s, x, c, first, since, m, k, used, e, g);
      if until <= c.from {
        WaitedSince(Run(s, longer, c.b), c, first, since, m + g, k, early);
        longer := Wait(s, longer, c, first, early, m + g, k, until);
        return longer, k;
      }
      longer := Wait(s, longer, c, first, since, m + g, k, c.from);
      longer := AllAnswered(s, longer, c, first, since, m + g, k);
    }
    NoOneWaits(Run(s, longer, c.b), c, first, since, m + g, early);
    longer := Wait(s, longer, c, first, early, m + g, m + g, until);
    k' := m + g;
  }

  lemma WaitedSince(s: State, c: Plan, first: nat, since: int, m: nat, k: nat, earlier: int)
    requires Gathered(s, c, first, since, m, k) && earlier <= since
    ensures Gathered(s, c, first, earlier, m, k)
  {
    hide WillBeAllowed, AnsweredWithin;
    forall h: nat | first + k <= h < first + m
      ensures WillBeAllowed(s, c.key, s.handlers[h], earlier, c.b)
    {
      WaitsLonger(s, c.key, s.handlers[h], since, earlier, c.b);
    }
  }

  lemma {:induction false} AnsweredCount(s: State, c: Plan, first: nat, since: int, m: nat)
    requires Gathered(s, c, first, since, m, m)
    ensures |AnsweredWithin(s, c.key, c.from, c.to, c.delay)| >= m
  {
    AtLeast(m, AnsweredWithin(s, c.key, c.from, c.to, c.delay));
  }

  lemma {:induction false} AtLeast(m: nat, ids: set<nat>)
    requires forall i: nat | i < m :: i in ids
    ensures |ids| >= m
  {
    if m > 0 {
      AtLeast(m - 1, ids - {m - 1});
    }
  }

  /** The plan's earliest INCR falls in the last moment of a life, or is the whole of one. */
  lemma FirstStage(c: Plan) returns (start: int, x: seq<Action>, first: nat, e: int)
    requires c.b.Limit(c.key) >= 1 && c.b.partnerRetriesPerMin >= 1 && c.b.vkRetriesPerMin >= 1
    ensures Schedule(Start(start), x, c.b)
    ensures var s, early, limit := Run(Start(start), x, c.b), c.from - c.delay, c.b.Limit(c.key);
            && s.now == early && Gathered(s, c, first, early, 0, 0)
            && e == early + (if limit == 1 then WINDOW_MS else 1)
            && Meter(s.redis, c.key, s.now, if limit == 1 then 0 else 1, e)
  {
    var early := c.from - c.delay;
    if c.b.Limit(c.key) == 1 {
      start, x, first, e := early, [], 0, early + WINDOW_MS;
    } else {
      start, first, e := early + 1 - WINDOW_MS, 1, early + 1;
      x := TakesBoth(Start(start), [], c.key, 0, 0, e, c.b);
      var s := Run(Start(start), x, c.b);
      RunOne(Start(start), x, Tick(WINDOW_MS - 1), c.b);
      x := x + [Tick(WINDOW_MS - 1)];
      forall n: nat | n >= 1
        ensures OtherKey(c.key, n) !in s.redis
      {
        OtherKeysDiffer(c.key, n, 0);
      }
      hide Run, Schedule;
    }
  }

  /** Three lives of the counter fit into an interval above the threshold: twice the limit and one more. */
  lemma TooManyAnswers(c: Plan) returns (start: int, x: seq<Action>)
    requires c.b.partnerRetriesPerMin >= 1 && c.b.vkRetriesPerMin >= 1
    requires c.from <= c.to && c.to - c.from + c.delay > Threshold(c.b.Limit(c.key))
    ensures Schedule(Start(start), x, c.b)
    ensures |AnsweredWithin(Run(Start(start), x, c.b), c.key, c.from, c.to, c.delay)| > 2 * c.b.Limit(c.key)
  {
    hide Run, Schedule, Gathered, AnsweredWithin, Start;
    var limit, first, e, k := c.b.Limit(c.key), 0, 0, 0;
    start, x, first, e := FirstStage(c);
    var s := Start(start);
    x, k := Stage(s, x, c, first, 0, 0, if limit == 1 then 0 else 1, e, 1, e);
    x, k := Stage(s, x, c, first, 1, k, 0, e + WINDOW_MS, limit, e + WINDOW_MS);
    x, k := Stage(s, x, c, first, 1 + limit, k, 0, e + 2 * WINDOW_MS, limit, Max(e + WINDOW_MS, c.from) + 1);
    AnsweredCount(Run(s, x, c.b), c, first, c.from - c.delay, 1 + 2 * limit);
  }

  /** With a limit of zero on either side no retry is allowed. */
  lemma NoneAllowed(s: State, key: Key, from: int, to: int, delay: nat, b: Budgets)
    requires Inv(s, b) && (b.partnerRetriesPerMin == 0 || b.vkRetriesPerMin == 0)
    ensures AnsweredWithin(s, key, from, to, delay) == {}
  {
    assert SideOk(s, true, b) && SideOk(s, false, b) && LogOk(s.takes, s.now);
    hide CounterOk, Ordered;
    forall i: nat | i < |s.decisions|
      ensures !s.decisions[i].allowed
    {
      var side := b.partnerRetriesPerMin == 0;
      var take := s.takes[s.decisions[i].TakeOn(side)];
      assert take.used >= 1 && b.Limit(take.key) == 0;
    }
  }

  /**
   * In every run at most twice the limit is answered in an interval, each answer at most `delay` after
   * its INCR, exactly when interval and delay together stay within the threshold.
   */
  lemma AnswersPerMinuteExactly(c: Plan)
    ensures (c.from > c.to || c.b.partnerRetriesPerMin == 0 || c.b.vkRetriesPerMin == 0
             || c.to - c.from + c.delay <= (if c.b.Limit(c.key) == 1 then 119_999 else 60_000))
       <==> forall start, x | Schedule(Start(start), x, c.b) ::
              |AnsweredWithin(Run(Start(start), x, c.b), c.key, c.from, c.to, c.delay)| <= 2 * c.b.Limit(c.key)
  {
    hide Run, Schedule, Inv, Start;
    if c.from <= c.to && c.b.partnerRetriesPerMin > 0 && c.b.vkRetriesPerMin > 0
       && c.to - c.from + c.delay > Threshold(c.b.Limit(c.key)) {
      var start, x := TooManyAnswers(c);
    } else {
      forall start, x | Schedule(Start(start), x, c.b)
        ensures |AnsweredWithin(Run(Start(start), x, c.b), c.key, c.from, c.to, c.delay)| <= 2 * c.b.Limit(c.key)
      {
        InvFromStart(start, x, c.b);
        if c.from > c.to {
          assert AnsweredWithin(Run(Start(start), x, c.b), c.key, c.from, c.to, c.delay) == {};
        } else if c.b.partnerRetriesPerMin == 0 || c.b.vkRetriesPerMin == 0 {
          NoneAllowed(Run(Start(start), x, c.b), c.key, c.from, c.to, c.delay, c.b);
        } else {
          AnswersPerMinute(Run(Start(start), x, c.b), c.key, c.from, c.to, c.delay, c.b);
        }
      }
    }
  }

  /** `n` callers, a window apart, none of them answered. */
  lemma {:induction false} LateCallers(c: Plan, n: nat) returns (x: seq<Action>, k: nat)
    requires c.b.partnerRetriesPerMin >= 1 && c.b.vkRetriesPerMin >= 1 && c.from == c.to == c.delay
    requires n * WINDOW_MS <= c.from
    ensures Schedule(Start(0), x, c.b) && k <= n
    ensures var s := Run(Start(0), x, c.b);
            && s.now == n * WINDOW_MS && Gathered(s, c, 0, 0, n, k)
            && Meter(s.redis, c.key, s.now, 0, s.now + WINDOW_MS)
  {
    if n == 0 {
      x, k := [], 0;
    } else {
      x, k := LateCallers(c, n - 1);
      hide Run, Schedule, Gathered;
      x, k := Stage(Start(0), x, c, 0, n - 1, k, 0, n * WINDOW_MS, 1, n * WINDOW_MS);
    }
  }

  /**
   * Without a bound on the delay there is none on the answers: whatever the limits, any number of
   * retries on one counter can be allowed at a single instant.
   */
  lemma LateAnswersUnbounded(key: Key, n: nat, b: Budgets) returns (x: seq<Action>)
    requires b.partnerRetriesPerMin >= 1 && b.vkRetriesPerMin >= 1
    ensures Schedule(Start(0), x, b)
    ensures var at := n * WINDOW_MS; |AnsweredWithin(Run(Start(0), x, b), key, at, at, at)| >= n
  {
    hide Run, Schedule, Gathered;
    var at := n * WINDOW_MS;
    var c, k := Plan(key, at, at, at, b), 0;
    x, k := LateCallers(c, n);
    x := AllAnswered(Start(0), x, c, 0, 0, n, k);
    AnsweredCount(Run(Start(0), x, b), c, 0, 0, n);
  }

  // ------------------------------------------------ the sends bound is reached

  /** One handler that has sent `k + 1` times, the last time just now, with `k` retries on either counter. */
  ghost predicate Retried(s: State, partner: string, vk: nat, k: nat) {
    && s.now == 0 && s.handlers == [Handler(partner, vk, k + 1, k, InFlight)]
    && AllowedCount(s.decisions) == k
    && Meter(s.redis, PartnerKey(partner), 0, k, WINDOW_MS) && Meter(s.redis, VirtualKey(vk), 0, k, WINDOW_MS)
  }

  lemma FirstSend(partner: string, vk: nat, b: Budgets) returns (x: seq<Action>)
    ensures Schedule(Start(0), x, b) && Retried(Run(Start(0), x, b), partner, vk, 0)
  {
    RunOne(Start(0), [], Arrive(partner, vk), b);
    RunOne(Start(0), [Arrive(partner, vk)], Send(0), b);
    x := [Arrive(partner, vk)] + [Send(0)];
    assert [] + [Arrive(partner, vk)] == [Arrive(partner, vk)];
    hide Run, Schedule;
  }

  /** A retry: both counts are taken, allowed, slept on and sent. */
  lemma OneMoreRetry(s: State, x: seq<Action>, partner: string, vk: nat, k: nat, b: Budgets)
    returns (longer: seq<Action>)
    requires Schedule(s, x, b) && Retried(Run(s, x, b), partner, vk, k)
    requires k < b.partnerRetriesPerMin && k < b.vkRetriesPerMin
    ensures Schedule(s, longer, b) && Retried(Run(s, longer, b), partner, vk, k + 1)
  {
    hide Run, Schedule, TakeOne, Meter, AllowedCount;
    var s0 := Run(s, x, b);
    var n := |s0.takes|;
    RunOne(s, x, Complete(0, true), b);
    var y := x + [Complete(0, true)];
    y := TakeIsASchedule(s, y, 0, true, 0, b);
    var mid := TakeOne(s0.redis, PartnerKey(partner), 0, n).0;
    TakeOneMeter(s0.redis, PartnerKey(partner), 0, n, k, WINDOW_MS);
    SameMeter(s0.redis, PartnerKey(partner), 0, n, VirtualKey(vk), k, WINDOW_MS);
    y := TakeIsASchedule(s, y, 0, false, n, b);
    TakeOneMeter(mid, VirtualKey(vk), 0, n + 1, k, WINDOW_MS);
    SameMeter(mid, VirtualKey(vk), 0, n + 1, PartnerKey(partner), k + 1, WINDOW_MS);
    RunOne(s, y, Decide(0), b);
    RunOne(s, y + [Decide(0)], Wake(0), b);
    RunOne(s, y + [Decide(0)] + [Wake(0)], Send(0), b);
    longer := y + [Decide(0)] + [Wake(0)] + [Send(0)];
    AllowedAppend(s0.decisions, Decision(n, n + 1, true, 0));
  }

  lemma {:induction false} RetriesInARow(partner: string, vk: nat, k: nat, b: Budgets) returns (x: seq<Action>)
    requires k <= b.partnerRetriesPerMin && k <= b.vkRetriesPerMin
    ensures Schedule(Start(0), x, b) && Retried(Run(Start(0), x, b), partner, vk, k)
  {
    if k == 0 {
      x := FirstSend(partner, vk, b);
    } else {
      var y := RetriesInARow(partner, vk, k - 1, b);
      x := OneMoreRetry(Start(0), y, partner, vk, k - 1, b);
    }
  }

  /** The sends of a run can be as many as its handlers and its allowed retries together, up to the limits. */
  lemma AmplificationReached(partner: string, vk: nat, k: nat, b: Budgets) returns (x: seq<Action>)
    requires k <= b.partnerRetriesPerMin && k <= b.vkRetriesPerMin
    ensures Schedule(Start(0), x, b)
    ensures var end := Run(Start(0), x, b);
            && |end.handlers| == 1 && AllowedCount(end.decisions) == k
            && TotalSends(end.handlers) == |end.handlers| + AllowedCount(end.decisions)
  {
    x := RetriesInARow(partner, vk, k, b);
    hide Run, Schedule, AllowedCount;
    var hs := Run(Start(0), x, b).handlers;
    assert hs[..0] == [] && TotalSends(hs) == TotalSends(hs[..0]) + hs[0].sends;
  }

  /** What ends a handler's loop. */
  ghost predicate Ends(s: State, a: Action, h: nat, b: Budgets)
    requires Enabled(s, a)
  {
    || a == GiveUp(h)
    || a == Complete(h, false)
    || (a == Decide(h) && !Apply(s, a, b).decisions[|s.decisions|].allowed)
  }

  /** A handler that has given up, been answered or been refused a retry is done for good. */
  lemma {:induction false} FinishedForGood(s: State, a: Action, actions: seq<Action>, h: nat, b: Budgets)
    requires Enabled(s, a) && Ends(s, a, h, b) && Schedule(Apply(s, a, b), actions, b)
    ensures var after, end := Apply(s, a, b), Run(Apply(s, a, b), actions, b);
            h < |end.handlers| && end.handlers[h] == after.handlers[h] == s.handlers[h].(pc := Finished)
  {
    StaysFinished(Apply(s, a, b), actions, h, b);
  }

  lemma {:induction false} StaysFinished(s: State, actions: seq<Action>, h: nat, b: Budgets)
    requires h < |s.handlers| && s.handlers[h].pc == Finished && Schedule(s, actions, b)
    ensures var end := Run(s, actions, b); h < |end.handlers| && end.handlers[h] == s.handlers[h]
    decreases |actions|
  {
    if actions != [] {
      FinishedStep(s, actions[0], h, b);
      StaysFinished(Apply(s, actions[0], b), actions[1..], h, b);
    }
  }

  lemma FinishedStep(s: State, a: Action, h: nat, b: Budgets)
    requires h < |s.handlers| && s.handlers[h].pc == Finished && Enabled(s, a)
    ensures var next := Apply(s, a, b); h < |next.handlers| && next.handlers[h] == s.handlers[h]
  {
    hide Incr, Expire;
  }
}
