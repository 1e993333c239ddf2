/**
 * The x402 middleware when requests interleave: each database statement is one step, and every request
 * keeps the program counter of its own `enforce_x402`.
 */
module X402Interleaved {
  import opened Prelude
  import opened PaymentIntents
  import X402Atomic

  type Verdict = X402Atomic.Verdict
  type Response = X402Atomic.Response

  datatype Pc =
    | Arrived
    | CheckingId
    | CheckingToken
    | LookingUp
    | Verifying(pick: Option<Id>)
    | Marking(pick: Option<Id>, verdict: Verdict)
    | Inserting
      // `marked` is the intent the request updated, if it updated one
    | Done(response: Response, marked: Option<Id>)

  datatype Handler = Handler(req: Request, pc: Pc) {
    /** The intent looked up and not yet marked. */
    function Held(): Option<Id> {
      if pc.Verifying? || pc.Marking? then pc.pick else None
    }

    function MarkedIntent(): Option<Id> {
      if pc.Done? then pc.marked else None
    }

    function Claim(): Option<Id> {
      if pc.Done? then pc.marked else Held()
    }

    /** Forwarded upstream on the strength of an intent it marked. */
    predicate PaidForward() {
      pc.Done? && pc.response.Forward? && pc.marked.Some?
    }
  }

  datatype State = State(now: int, table: Table, handlers: seq<Handler>)

  datatype Action =
    | Tick(ms: nat)
    | Arrive(req: Request)
    | Sweep(h: nat)
    | CheckId(h: nat)
    | CheckToken(h: nat)
    | LookUp(h: nat, pick: Option<Id>)
    | Verify(h: nat, verdict: Verdict)
    | MarkIntent(h: nat)
    | Insert(h: nat, newId: Id)

  ghost predicate At(s: State, h: nat, pc: Pc) {
    h < |s.handlers| && s.handlers[h].pc == pc
  }

  ghost predicate Enabled(s: State, a: Action) {
    match a
    case Tick(_) => true
    case Arrive(_) => true
    case Sweep(h) => At(s, h, Arrived)
    case CheckId(h) => At(s, h, CheckingId)
    case CheckToken(h) => At(s, h, CheckingToken)
    case LookUp(h, pick) => At(s, h, LookingUp) && LatestPending(s.table, s.handlers[h].req, pick)
    case Verify(h, _) => h < |s.handlers| && s.handlers[h].pc.Verifying?
    case MarkIntent(h) => h < |s.handlers| && s.handlers[h].pc.Marking?
    case Insert(h, newId) => At(s, h, Inserting) && newId !in s.table
  }

  function Goto(s: State, h: nat, pc: Pc): State
    requires h < |s.handlers|
  {
    s.(handlers := s.handlers[h := s.handlers[h].(pc := pc)])
  }

  /** A verified intent of another request carries the proof. */
  predicate CarriedElsewhere(t: Table, req: Request, byToken: bool) {
    var proof := if byToken then req.paymentToken else req.paymentId;
    proof.Some? && exists i | i in t :: CarriesVerified(t, i, byToken, proof.value) && t[i].hash != req.hash
  }

  function MarkStatus(verdict: Verdict): Status {
    if verdict == X402Atomic.Accepted then Verified else Failed
  }

  predicate MarkSucceeds(t: Table, req: Request, pick: Option<Id>, verdict: Verdict) {
    pick.Some? && Mark(t, pick.value, MarkStatus(verdict), req).0
  }

  function Apply(s: State, a: Action): State
    requires Enabled(s, a)
  {
    match a
    case Tick(ms) => s.(now := s.now + ms)
    case Arrive(req) => s.(handlers := s.handlers + [Handler(req, Arrived)])
    case Sweep(h) =>
      Goto(s.(table := ExpireStale(s.table, s.now)), h, if s.handlers[h].req.HasProof() then CheckingId else Inserting)
    case CheckId(h) =>
      Goto(s, h, if CarriedElsewhere(s.table, s.handlers[h].req, false)
                 then Done(X402Atomic.ReplayBlocked, None) else CheckingToken)
    case CheckToken(h) =>
      Goto(s, h, if CarriedElsewhere(s.table, s.handlers[h].req, true)
                 then Done(X402Atomic.ReplayBlocked, None) else LookingUp)
    case LookUp(h, pick) => Goto(s, h, Verifying(pick))
    case Verify(h, verdict) => Goto(s, h, Marking(s.handlers[h].pc.pick, verdict))
    case MarkIntent(h) =>
      var Handler(req, Marking(pick, verdict)) := s.handlers[h];
      var (table, response) := X402Atomic.Settle(s.table, req, pick, verdict);
      Goto(s.(table := table), h, Done(response, if MarkSucceeds(s.table, req, pick, verdict) then pick else None))
    case Insert(h, newId) =>
      Goto(s.(table := s.table[newId := NewIntent(s.handlers[h].req, s.now)]), h,
           Done(X402Atomic.PaymentRequired(newId), None))
  }

  // ------------------------------------------------------------ the invariant

  /** No two requests in flight hold the same looked-up intent. */
  ghost predicate NoSharedHold(s: State) {
    forall g, h | 0 <= g < h < |s.handlers| ::
      s.handlers[g].Held().Some? ==> s.handlers[g].Held() != s.handlers[h].Held()
  }

  ghost predicate Exclusive(handlers: seq<Handler>) {
    forall g, h | 0 <= g < |handlers| && 0 <= h < |handlers| && g != h ::
      handlers[g].Claim().Some? ==> handlers[g].Claim() != handlers[h].Claim()
  }

  ghost predicate Open(row: Row) {
    row.status in {Pending, Expired}
  }

  /** What a handler's program counter says about the intent it claims. */
  ghost predicate Justified(t: Table, h: Handler) {
    && (h.Claim().Some? ==> h.Claim().value in t && h.req.SameTarget(t[h.Claim().value]))
    && (h.Held().Some? ==> Open(t[h.Held().value]))
    && (h.MarkedIntent().Some? ==>
          var row := t[h.MarkedIntent().value];
          && row.status == (if h.pc.response.Forward? then Verified else Failed)
          && row.paymentId == h.req.paymentId && row.paymentToken == h.req.paymentToken)
    && (h.pc.Done? && h.pc.response.Forward? ==> h.pc.response.intent == h.pc.marked)
  }

  ghost predicate TableOk(t: Table) {
    Unique(t) && forall i | i in t && Open(t[i]) :: t[i].NoProof()
  }

  ghost predicate Inv(s: State) {
    && TableOk(s.table)
    && Exclusive(s.handlers)
    && forall h | 0 <= h < |s.handlers| :: Justified(s.table, s.handlers[h])
  }

  // ------------------------------------------------------- each step keeps it

  lemma SweepKeepsInv(s: State, h: nat)
    requires Inv(s) && Enabled(s, Sweep(h))
    ensures Inv(Apply(s, Sweep(h)))
  {
    hide Unique;
    X402Atomic.SweepKeepsUnique(s.table, s.now);
    var s' := Apply(s, Sweep(h));
    forall g | 0 <= g < |s.handlers|
      ensures Justified(s'.table, s'.handlers[g])
    {
      assert Justified(s.table, s.handlers[g]);
    }
  }

  lemma LookUpKeepsInv(s: State, h: nat, pick: Option<Id>)
    requires Inv(s) && Enabled(s, LookUp(h, pick)) && NoSharedHold(Apply(s, LookUp(h, pick)))
    ensures Inv(Apply(s, LookUp(h, pick)))
  {
    hide Unique;
    var s' := Apply(s, LookUp(h, pick));
    forall g | 0 <= g < |s.handlers| && g != h && pick.Some?
      ensures s.handlers[g].Claim() != pick
    {
      assert s'.handlers[g] == s.handlers[g] && s'.handlers[h].Held() == pick;
      assert Justified(s.table, s.handlers[g]);
    }
  }

  /** A successful mark writes the request's own proof on an open row. */
  lemma MarkWrites(t: Table, id: Id, status: Status, req: Request)
    requires TableOk(t) && id in t && Open(t[id]) && status in {Verified, Failed}
    ensures var (ok, t') := Mark(t, id, status, req);
            && TableOk(t')
            && t' == if !ok then t
                     else t[id := t[id].(status := status, paymentId := req.paymentId,
                                         paymentToken := req.paymentToken)]
  {
    assert t[id].NoProof();
  }

  lemma MarkKeepsInv(s: State, h: nat)
    requires Inv(s) && Enabled(s, MarkIntent(h))
    ensures Inv(Apply(s, MarkIntent(h)))
  {
    hide Unique, TableOk, Mark, NoSharedHold;
    var Handler(req, Marking(pick, verdict)) := s.handlers[h];
    var s' := Apply(s, MarkIntent(h));
    assert Justified(s.table, s.handlers[h]);
    if pick.Some? {
      MarkWrites(s.table, pick.value, MarkStatus(verdict), req);
    }
    forall g | 0 <= g < |s.handlers| && g != h
      ensures Justified(s'.table, s'.handlers[g])
    {
      assert s'.handlers[g] == s.handlers[g];
      assert Justified(s.table, s.handlers[g]);
    }
  }

  lemma InsertKeepsInv(s: State, h: nat, newId: Id)
    requires Inv(s) && Enabled(s, Insert(h, newId))
    ensures Inv(Apply(s, Insert(h, newId)))
  {
    var s' := Apply(s, Insert(h, newId));
    assert s'.table[newId].NoProof();
    forall g | 0 <= g < |s.handlers| && g != h
      ensures Justified(s'.table, s'.handlers[g])
    {
      assert s'.handlers[g] == s.handlers[g];
      assert Justified(s.table, s.handlers[g]);
    }
  }

  lemma StepKeepsInv(s: State, a: Action)
    requires Inv(s) && Enabled(s, a) && NoSharedHold(Apply(s, a))
    ensures Inv(Apply(s, a))
  {
    hide TableOk, LatestPending, X402Atomic.Settle, MarkSucceeds, ExpireStale, CarriedElsewhere;
    match a
    case Sweep(h) => SweepKeepsInv(s, h);
    case LookUp(h, pick) => LookUpKeepsInv(s, h, pick);
    case MarkIntent(h) => MarkKeepsInv(s, h);
    case Insert(h, newId) => InsertKeepsInv(s, h, newId);
    case _ =>
  }

  // ------------------------------------------------------------- whole runs

  function Run(s: State, actions: seq<Action>): State
    requires Schedule(s, actions)
    decreases |actions|
  {
    if actions == [] then s else Run(Apply(s, actions[0]), actions[1..])
  }

  ghost predicate Schedule(s: State, actions: seq<Action>)
    decreases |actions|
  {
    actions == [] || (Enabled(s, actions[0]) && Schedule(Apply(s, actions[0]), actions[1..]))
  }

  ghost predicate NeverShared(s: State, actions: seq<Action>)
    requires Schedule(s, actions)
    decreases |actions|
  {
    NoSharedHold(s) && (actions == [] || NeverShared(Apply(s, actions[0]), actions[1..]))
  }

  lemma {:induction false} RunKeepsInv(s: State, actions: seq<Action>)
    requires Inv(s) && Schedule(s, actions) && NeverShared(s, actions)
    ensures Inv(Run(s, actions))
    decreases |actions|
  {
    if actions != [] {
      StepKeepsInv(s, actions[0]);
      RunKeepsInv(Apply(s, actions[0]), actions[1..]);
    }
  }

  /**
   * In every interleaving without a shared hold: no intent is marked by two requests, and no intent,
   * payment id or payment token pays for two forwards.
   */
  lemma PaymentSingleUse(s: State, actions: seq<Action>, g: nat, h: nat)
    requires Inv(s) && Schedule(s, actions) && NeverShared(s, actions)
    requires var hs := Run(s, actions).handlers; g < h < |hs|
    ensures var hs := Run(s, actions).handlers;
            && (hs[g].MarkedIntent().Some? ==> hs[g].MarkedIntent() != hs[h].MarkedIntent())
            && (hs[g].PaidForward() && hs[h].PaidForward() ==>
                  && hs[g].pc.response.intent != hs[h].pc.response.intent
                  && (hs[g].req.paymentId.Some? ==> hs[g].req.paymentId != hs[h].req.paymentId)
                  && (hs[g].req.paymentToken.Some? ==> hs[g].req.paymentToken != hs[h].req.paymentToken))
  {
    RunKeepsInv(s, actions);
    var end := Run(s, actions);
    hide Run, Schedule, NeverShared;
    assert Justified(end.table, end.handlers[g]) && Justified(end.table, end.handlers[h]);
  }

  /** At its mark a paid forward's row is the only verified one for its key and hash, with its proof. */
  lemma MarkInstant(s: State, h: nat)
    requires Inv(s) && Enabled(s, MarkIntent(h)) && Apply(s, MarkIntent(h)).handlers[h].PaidForward()
    ensures var s' := Apply(s, MarkIntent(h));
            var req, id := s.handlers[h].req, s'.handlers[h].pc.marked.value;
            && id in s'.table && req.SameTarget(s'.table[id]) && s'.table[id].status == Verified
            && s'.table[id].paymentId == req.paymentId && s'.table[id].paymentToken == req.paymentToken
            && forall j | j in s'.table && s'.table[j].status == Verified && s'.table[j].virtualKey == req.virtualKey
                          && s'.table[j].hash == req.hash :: j == id
  {
    MarkKeepsInv(s, h);
    var s' := Apply(s, MarkIntent(h));
    assert Justified(s'.table, s'.handlers[h]);
  }

  /** Verified and failed are final: the rows of a run never leave them, nor change at all. */
  lemma {:induction false} ClosedRowsAreFinal(s: State, actions: seq<Action>, i: Id)
    requires Inv(s) && Schedule(s, actions) && NeverShared(s, actions)
    requires i in s.table && !Open(s.table[i])
    ensures i in Run(s, actions).table && Run(s, actions).table[i] == s.table[i]
    decreases |actions|
  {
    if actions != [] {
      var a := actions[0];
      StepKeepsInv(s, a);
      ClosedRowStep(s, a, i);
      ClosedRowsAreFinal(Apply(s, a), actions[1..], i);
    }
  }

  lemma ClosedRowStep(s: State, a: Action, i: Id)
    requires Inv(s) && Enabled(s, a) && i in s.table && !Open(s.table[i])
    ensures i in Apply(s, a).table && Apply(s, a).table[i] == s.table[i]
  {
    hide Unique;
    if a.MarkIntent? {
      assert Justified(s.table, s.handlers[a.h]);
    }
  }

  // ------------------------------------------- what the assumption rules out

  lemma RunCons(s: State, a: Action, rest: seq<Action>)
    requires Enabled(s, a) && Schedule(Apply(s, a), rest)
    ensures Schedule(s, [a] + rest) && Run(s, [a] + rest) == Run(Apply(s, a), rest)
  {
    assert ([a] + rest)[1..] == rest;
  }

  lemma {:induction false} RunAppend(s: State, a: seq<Action>, b: seq<Action>)
    requires Schedule(s, a) && Schedule(Run(s, a), b)
    ensures Schedule(s, a + b) && Run(s, a + b) == Run(Run(s, a), b)
    decreases |a|
  {
    if a == [] {
      assert a + b == b;
    } else {
      RunAppend(Apply(s, a[0]), a[1..], b);
      assert (a + b)[1..] == a[1..] + b;
    }
  }

  /** Look an intent up and have the provider's word on the proof. */
  function HoldWith(k: nat, id: Id, verdict: Verdict): seq<Action> {
    [LookUp(k, Some(id)), Verify(k, verdict)]
  }

  function Hold(k: nat, id: Id): seq<Action> {
    HoldWith(k, id, X402Atomic.Accepted)
  }

  lemma HoldRun(s: State, k: nat, id: Id, verdict: Verdict)
    requires At(s, k, LookingUp) && LatestPending(s.table, s.handlers[k].req, Some(id))
    ensures Schedule(s, HoldWith(k, id, verdict))
    ensures Run(s, HoldWith(k, id, verdict)) == Goto(s, k, Marking(Some(id), verdict))
  {
    hide LatestPending;
    var s1 := Apply(s, LookUp(k, Some(id)));
    RunCons(s1, Verify(k, verdict), []);
    RunCons(s, LookUp(k, Some(id)), [Verify(k, verdict)] + []);
    assert HoldWith(k, id, verdict) == [LookUp(k, Some(id))] + ([Verify(k, verdict)] + []);
  }

  function Race(g: nat, h: nat, id: Id): seq<Action> {
    Hold(g, id) + Hold(h, id) + [MarkIntent(g), MarkIntent(h)]
  }

  /** Both requests were forwarded on the strength of the one intent. */
  ghost predicate BothPaid(end: State, g: nat, h: nat, id: Id) {
    && g < |end.handlers| && h < |end.handlers|
    && end.handlers[g].PaidForward() && end.handlers[h].PaidForward()
    && end.handlers[g].pc.response.intent == end.handlers[h].pc.response.intent == Some(id)
  }

  /** Neither proof is on another row, and no other row is verified for the intent's key and hash. */
  ghost predicate BothMarkable(t: Table, id: Id, first: Request, second: Request)
    requires id in t
  {
    FreeFor(t, id, first) && FreeFor(t, id, second) && SoleForHash(t, id)
  }

  lemma MarkTwiceExactly(t: Table, id: Id, first: Request, second: Request)
    requires Unique(t) && id in t
    ensures var (ok, t1) := Mark(t, id, Verified, first);
            var (ok', t2) := Mark(t1, id, Verified, second);
            && (ok && ok' <==> BothMarkable(t, id, first, second))
            && (ok && ok' ==> t2 == t[id := MarkedRow(MarkedRow(t[id], Verified, first), Verified, second)])
  {
    MarkExactly(t, id, Verified, first);
    var t1 := Mark(t, id, Verified, first).1;
    MarkExactly(t1, id, Verified, second);
    SameElsewhere(t, t1, id, second);
    hide Unique, FreeFor, SoleForHash;
  }

  lemma SameElsewhere(t: Table, t1: Table, id: Id, req: Request)
    requires id in t && id in t1 && t1 == t[id := t1[id]]
    requires t1[id].virtualKey == t[id].virtualKey && t1[id].hash == t[id].hash
    ensures FreeFor(t1, id, req) <==> FreeFor(t, id, req)
    ensures SoleForHash(t1, id) <==> SoleForHash(t, id)
  {
    assert forall j | j in t && j != id :: t1[j] == t[j];
  }

  /** Two accepted requests at the mark of one intent. */
  ghost predicate SharedMark(s: State, g: nat, h: nat, id: Id) {
    && g != h && id in s.table
    && At(s, g, Marking(Some(id), X402Atomic.Accepted)) && At(s, h, Marking(Some(id), X402Atomic.Accepted))
  }

  lemma BothMark(s: State, g: nat, h: nat, id: Id)
    requires Unique(s.table) && SharedMark(s, g, h, id)
    ensures var marks, first, second := [MarkIntent(g), MarkIntent(h)], s.handlers[g].req, s.handlers[h].req;
            && Schedule(s, marks)
            && (BothPaid(Run(s, marks), g, h, id) <==> BothMarkable(s.table, id, first, second))
            && (BothPaid(Run(s, marks), g, h, id) ==>
                  Run(s, marks).table
                  == s.table[id := MarkedRow(MarkedRow(s.table[id], Verified, first), Verified, second)])
  {
    hide Mark, Unique, BothMarkable, MarkedRow, SoleForHash, FreeFor;
    MarkTwiceExactly(s.table, id, s.handlers[g].req, s.handlers[h].req);
    var s1 := Apply(s, MarkIntent(g));
    var s2 := Apply(s1, MarkIntent(h));
    RunCons(s1, MarkIntent(h), []);
    RunCons(s, MarkIntent(g), [MarkIntent(h)] + []);
    assert [MarkIntent(g)] + ([MarkIntent(h)] + []) == [MarkIntent(g), MarkIntent(h)];
    assert Run(s, [MarkIntent(g), MarkIntent(h)]) == s2;
    hide Run, Schedule;
  }

  /**
   * Two requests look up one intent and both proofs are accepted: both are forwarded on it exactly
   * when neither proof is on another row and no other row is verified for its key and hash.  The row
   * is left with the second request's proof over the first's.
   */
  lemma SharedHoldExactly(s: State, g: nat, h: nat, id: Id)
    requires Unique(s.table) && g != h && At(s, g, LookingUp) && At(s, h, LookingUp)
    requires LatestPending(s.table, s.handlers[g].req, Some(id)) && LatestPending(s.table, s.handlers[h].req, Some(id))
    ensures var first, second := s.handlers[g].req, s.handlers[h].req;
            && Schedule(s, Race(g, h, id))
            && (BothPaid(Run(s, Race(g, h, id)), g, h, id) <==> BothMarkable(s.table, id, first, second))
            && (BothPaid(Run(s, Race(g, h, id)), g, h, id) ==>
                  Run(s, Race(g, h, id)).table
                  == s.table[id := MarkedRow(MarkedRow(s.table[id], Verified, first), Verified, second)])
  {
    HoldRun(s, g, id, X402Atomic.Accepted);
    var s2 := Run(s, Hold(g, id));
    HoldRun(s2, h, id, X402Atomic.Accepted);
    RunAppend(s, Hold(g, id), Hold(h, id));
    var s4 := Run(s2, Hold(h, id));
    BothMark(s4, g, h, id);
    RunAppend(s, Hold(g, id) + Hold(h, id), [MarkIntent(g), MarkIntent(h)]);
    hide Run, Schedule, BothPaid, BothMarkable, Hold, Unique;
  }

  /** Two requests for one target about to look its intent up, with payment ids no row carries. */
  ghost predicate Racing(s: State, g: nat, h: nat, id: Id, p: string, q: string) {
    && Unique(s.table) && g != h && At(s, g, LookingUp) && At(s, h, LookingUp)
    && s.handlers[h].req == s.handlers[g].req.(paymentId := Some(q))
    && s.handlers[g].req.paymentId == Some(p) && s.handlers[g].req.paymentToken == None
    && LatestPending(s.table, s.handlers[g].req, Some(id))
    && (forall i | i in s.table :: s.table[i].paymentId != Some(p) && s.table[i].paymentId != Some(q))
    && SoleForHash(s.table, id)
  }

  /**
   * With a shared hold single use fails: both requests are forwarded on the one intent.  One payment
   * id submitted twice pays twice; of two payment ids the first is erased and no row carries it.
   */
  lemma SharedHoldPaysTwice(s: State, g: nat, h: nat, id: Id, p: string, q: string)
    requires Racing(s, g, h, id, p, q)
    ensures Schedule(s, Race(g, h, id))
    ensures var end := Run(s, Race(g, h, id));
            && BothPaid(end, g, h, id)
            && id in end.table && end.table[id].paymentId == Some(q)
            && (p != q ==> forall i | i in end.table :: end.table[i].paymentId != Some(p))
  {
    hide Run, Schedule, BothPaid, Unique;
    var first, second := s.handlers[g].req, s.handlers[h].req;
    assert LatestPending(s.table, second, Some(id)) by {
      SameLookUp(s.table, first, second, Some(id));
    }
    SharedHoldExactly(s, g, h, id);
    assert BothMarkable(s.table, id, first, second);
  }

  lemma SameLookUp(t: Table, a: Request, b: Request, pick: Option<Id>)
    requires b == a.(paymentId := b.paymentId) && LatestPending(t, a, pick)
    ensures LatestPending(t, b, pick)
  {
    assert forall i :: PendingFor(t, i, a) <==> PendingFor(t, i, b);
  }

  // ------------------------------------------ with a shared hold nothing is final

  /** The row changes status, or takes a proof it did not carry. */
  ghost predicate Overwrites(row: Row, status: Status, req: Request) {
    || row.status != status
    || (req.paymentId.Some? && row.paymentId != req.paymentId)
    || (req.paymentToken.Some? && row.paymentToken != req.paymentToken)
  }

  /** In any state a verified or failed row changes exactly when a request that holds it overwrites it. */
  lemma ClosedRowChangesExactly(s: State, a: Action, i: Id)
    requires Enabled(s, a) && i in s.table && !Open(s.table[i])
    ensures i in Apply(s, a).table
    ensures Apply(s, a).table[i] != s.table[i]
       <==> && a.MarkIntent? && s.handlers[a.h].Held() == Some(i)
            && MarkSucceeds(s.table, s.handlers[a.h].req, Some(i), s.handlers[a.h].pc.verdict)
            && Overwrites(s.table[i], MarkStatus(s.handlers[a.h].pc.verdict), s.handlers[a.h].req)
  {
    hide Unique;
    if a.MarkIntent? && s.handlers[a.h].Held() == Some(i) {
      OverwritesExactly(s.table[i], MarkStatus(s.handlers[a.h].pc.verdict), s.handlers[a.h].req);
      hide MarkedRow, Overwrites;
    }
  }

  lemma OverwritesExactly(row: Row, status: Status, req: Request)
    ensures MarkedRow(row, status, req) != row <==> Overwrites(row, status, req)
  {
  }

  /** Two requests hold one intent; the first proof is accepted and marked, the second rejected and marked. */
  function PayThenReject(g: nat, h: nat, id: Id): seq<Action> {
    Hold(g, id) + HoldWith(h, id, X402Atomic.Rejected) + [MarkIntent(g)]
  }

  /** A request was forwarded on an intent that another, refused, is about to turn to failed. */
  ghost predicate PaidAndUndone(s: State, g: nat, h: nat, id: Id, p: string, q: string) {
    && g < |s.handlers| && s.handlers[g].PaidForward() && s.handlers[g].pc.marked == Some(id)
    && id in s.table && s.table[id].status == Verified && s.table[id].paymentId == Some(p)
    && Enabled(s, MarkIntent(h))
    && var end := Apply(s, MarkIntent(h));
       && end.table[id].status == Failed && end.table[id].paymentId == Some(q)
       && end.handlers[g].PaidForward() && end.handlers[h].pc.response == X402Atomic.NotVerified
  }

  lemma BothMarksSucceed(t: Table, id: Id, first: Request, second: Request)
    requires Unique(t) && id in t && BothMarkable(t, id, first, second)
    ensures var (ok, t1) := Mark(t, id, Verified, first);
            && ok && t1 == t[id := MarkedRow(t[id], Verified, first)]
            && Mark(t1, id, Failed, second) == (true, t1[id := MarkedRow(t1[id], Failed, second)])
  {
    MarkExactly(t, id, Verified, first);
    var t1 := Mark(t, id, Verified, first).1;
    MarkExactly(t1, id, Failed, second);
    SameElsewhere(t, t1, id, second);
    hide Unique, FreeFor, SoleForHash;
  }

  lemma RejectedMark(s: State, s1: State, g: nat, h: nat, id: Id, p: string, q: string)
    requires Racing(s, g, h, id, p, q)
    requires s1 == Goto(Goto(s, g, Marking(Some(id), X402Atomic.Accepted)), h, Marking(Some(id), X402Atomic.Rejected))
    ensures Enabled(s1, MarkIntent(g)) && PaidAndUndone(Apply(s1, MarkIntent(g)), g, h, id, p, q)
  {
    BothMarksSucceed(s.table, id, s.handlers[g].req, s.handlers[h].req);
    hide Unique, Mark, FreeFor, SoleForHash, LatestPending;
  }

  /** With a shared hold a payment can be undone: the intent turns to failed and takes the rejected proof. */
  lemma RejectionUndoesPayment(s: State, g: nat, h: nat, id: Id, p: string, q: string)
    requires Racing(s, g, h, id, p, q)
    ensures Schedule(s, PayThenReject(g, h, id))
    ensures PaidAndUndone(Run(s, PayThenReject(g, h, id)), g, h, id, p, q)
  {
    hide Run, Schedule, Unique, LatestPending, PaidAndUndone, Apply, Enabled, SoleForHash, HoldWith;
    var hold := HoldWith(h, id, X402Atomic.Rejected);
    SameLookUp(s.table, s.handlers[g].req, s.handlers[h].req, Some(id));
    HoldRun(s, g, id, X402Atomic.Accepted);
    var s1 := Run(s, Hold(g, id));
    HoldRun(s1, h, id, X402Atomic.Rejected);
    RunAppend(s, Hold(g, id), hold);
    var s2 := Run(s1, hold);
    RejectedMark(s, s2, g, h, id, p, q);
    RunSingle(s2, MarkIntent(g));
    RunAppend(s, Hold(g, id) + hold, [MarkIntent(g)]);
  }

  lemma RunSingle(s: State, a: Action)
    requires Enabled(s, a)
    ensures Schedule(s, [a]) && Run(s, [a]) == Apply(s, a)
  {
    RunCons(s, a, []);
    assert [a] + [] == [a];
  }

  // ------------------------------------------------- expired is not terminal

  /** Without a shared hold an expired row changes in a step exactly when its holder marks it. */
  lemma ExpiredRowChangesExactly(s: State, a: Action, i: Id)
    requires Inv(s) && Enabled(s, a) && i in s.table && s.table[i].status == Expired
    ensures i in Apply(s, a).table
    ensures Apply(s, a).table[i] != s.table[i]
       <==> && a.MarkIntent? && s.handlers[a.h].Held() == Some(i)
            && MarkSucceeds(s.table, s.handlers[a.h].req, Some(i), s.handlers[a.h].pc.verdict)
    ensures Apply(s, a).table[i] != s.table[i]
            ==> Apply(s, a).table[i].status == MarkStatus(s.handlers[a.h].pc.verdict)
  {
    hide Unique, Exclusive, TableOk;
    if a.MarkIntent? {
      assert Justified(s.table, s.handlers[a.h]);
    }
  }

  /** Time passes and another request arrives and sweeps. */
  function Late(ms: nat, other: Request, g: nat): seq<Action> {
    [Tick(ms)] + ([Arrive(other)] + ([Sweep(g)] + []))
  }

  lemma LateRun(s: State, ms: nat, other: Request)
    ensures Schedule(s, Late(ms, other, |s.handlers|))
    ensures Run(s, Late(ms, other, |s.handlers|))
         == State(s.now + ms, ExpireStale(s.table, s.now + ms),
                  s.handlers + [Handler(other, if other.HasProof() then CheckingId else Inserting)])
  {
    var g := |s.handlers|;
    var s1 := Apply(s, Tick(ms));
    var s2 := Apply(s1, Arrive(other));
    assert Apply(s2, Sweep(g)).handlers
        == s.handlers + [Handler(other, if other.HasProof() then CheckingId else Inserting)];
    RunCons(s2, Sweep(g), []);
    RunCons(s1, Arrive(other), [Sweep(g)] + []);
    RunCons(s, Tick(ms), [Arrive(other)] + ([Sweep(g)] + []));
  }

  lemma MarkAfterSweep(t: Table, now: int, id: Id, req: Request)
    requires Unique(t) && id in t && FreeFor(t, id, req) && SoleForHash(t, id)
    ensures Mark(ExpireStale(t, now), id, Verified, req).0
  {
    X402Atomic.SweepKeepsUnique(t, now);
    MarkExactly(ExpireStale(t, now), id, Verified, req);
    hide Unique, Mark;
  }

  /** A held intent that has expired and is about to be verified all the same. */
  ghost predicate Outlived(s: State, h: nat, id: Id) {
    && id in s.table && s.table[id].status == Expired && Enabled(s, MarkIntent(h))
    && var end := Apply(s, MarkIntent(h));
       end.table[id].status == Verified && end.handlers[h].PaidForward()
  }

  lemma MarkOutlives(s: State, h: nat, id: Id)
    requires h < |s.handlers| && s.handlers[h].pc == Marking(Some(id), X402Atomic.Accepted)
    requires id in s.table && s.table[id].status == Expired && Mark(s.table, id, Verified, s.handlers[h].req).0
    ensures Outlived(s, h, id)
  {
    hide Unique;
  }

  /** Any held intent whose proof can be marked outlives its expiry if the mark comes late. */
  lemma HeldIntentOutlivesExpiry(s: State, h: nat, id: Id, ms: nat, other: Request)
    requires Unique(s.table) && At(s, h, Marking(Some(id), X402Atomic.Accepted))
    requires id in s.table && Stale(s.table[id], s.now + ms)
    requires FreeFor(s.table, id, s.handlers[h].req) && SoleForHash(s.table, id)
    ensures Schedule(s, Late(ms, other, |s.handlers|))
    ensures Outlived(Run(s, Late(ms, other, |s.handlers|)), h, id)
  {
    hide Unique, FreeFor, SoleForHash, Apply, Late, Run, Schedule, Outlived, Enabled, Mark;
    LateRun(s, ms, other);
    MarkAfterSweep(s.table, s.now + ms, id, s.handlers[h].req);
    assert ExpireStale(s.table, s.now + ms)[id].status == Expired;
    var late := Run(s, Late(ms, other, |s.handlers|));
    assert late.handlers[h] == s.handlers[h];
    MarkOutlives(late, h, id);
  }

  // ------------------------------------------ the atomic model as a schedule

  /** One request with nothing in between, as handler `h`. */
  function Solo(t: Table, step: X402Atomic.Step, h: nat): seq<Action> {
    var req, swept := step.req, ExpireStale(t, step.now);
    [Arrive(req), Sweep(h)]
    + if !req.HasProof() then [Insert(h, step.newId)]
      else [CheckId(h)]
           + if CarriedElsewhere(swept, req, false) then []
             else [CheckToken(h)]
                  + if CarriedElsewhere(swept, req, true) then []
                    else [LookUp(h, step.pick), Verify(h, step.verdict), MarkIntent(h)]
  }

  /** A request run without interference does to the table, and answers, what the atomic model says. */
  lemma AtomicIsASchedule(s: State, step: X402Atomic.Step)
    requires X402Atomic.Enabled(s.table, step) && step.now == s.now
    ensures var h := |s.handlers|;
            var actions := Solo(s.table, step, h);
            && Schedule(s, actions)
            && var end := Run(s, actions);
               && end.table == X402Atomic.Next(s.table, step)
               && |end.handlers| == h + 1 && end.handlers[..h] == s.handlers && end.handlers[h].pc.Done?
               && end.handlers[h].pc.response == X402Atomic.Answer(s.table, step)
  {
    hide CarriedElsewhere, LatestPending, X402Atomic.BoundElsewhere, X402Atomic.Settle, ExpireStale;
    var h, req, swept := |s.handlers|, step.req, ExpireStale(s.table, s.now);
    var s1 := Apply(s, Arrive(req));
    var s2 := Apply(s1, Sweep(h));
    assert s2.table == swept && s2.handlers[h].req == req && s2.handlers[..h] == s.handlers;
    var actions := Solo(s.table, step, h);
    BoundBySide(swept, req);
    SweepKeepsIds(s.table, s.now);
    var rest := if req.HasProof() then ChecksOf(swept, step, h) else [Insert(h, step.newId)];
    if req.HasProof() {
      SoloChecks(s2, step, h, s.handlers);
    } else {
      SoloInserts(s2, step, h, s.handlers);
    }
    assert actions == [Arrive(req)] + ([Sweep(h)] + rest);
    RunCons(s1, Sweep(h), rest);
    RunCons(s, Arrive(req), [Sweep(h)] + rest);
  }

  lemma BoundBySide(t: Table, req: Request)
    ensures X402Atomic.BoundElsewhere(t, req)
       <==> CarriedElsewhere(t, req, false) || CarriedElsewhere(t, req, true)
  {
    hide CarriesVerified;
  }

  lemma SweepKeepsIds(t: Table, now: int)
    ensures ExpireStale(t, now).Keys == t.Keys
  {
  }

  lemma SoloInserts(s: State, step: X402Atomic.Step, h: nat, others: seq<Handler>)
    requires |s.handlers| == h + 1 && s.handlers[..h] == others && s.handlers[h] == Handler(step.req, Inserting)
    requires step.newId !in s.table
    ensures var actions := [Insert(h, step.newId)];
            && Schedule(s, actions)
            && var end := Run(s, actions);
               && |end.handlers| == h + 1 && end.handlers[..h] == others && end.handlers[h].pc.Done?
               && end.table == s.table[step.newId := NewIntent(step.req, s.now)]
               && end.handlers[h].pc.response == X402Atomic.PaymentRequired(step.newId)
  {
    RunCons(s, Insert(h, step.newId), []);
    assert [Insert(h, step.newId)] + [] == [Insert(h, step.newId)];
  }

  function ChecksOf(swept: Table, step: X402Atomic.Step, h: nat): seq<Action> {
    [CheckId(h)]
    + if CarriedElsewhere(swept, step.req, false) then []
      else [CheckToken(h)]
           + if CarriedElsewhere(swept, step.req, true) then []
             else [LookUp(h, step.pick), Verify(h, step.verdict), MarkIntent(h)]
  }

  lemma SoloChecks(s: State, step: X402Atomic.Step, h: nat, others: seq<Handler>)
    requires |s.handlers| == h + 1 && s.handlers[..h] == others && s.handlers[h] == Handler(step.req, CheckingId)
    requires step.req.HasProof() && LatestPending(s.table, step.req, step.pick)
    ensures var actions := ChecksOf(s.table, step, h);
            && Schedule(s, actions)
            && var end := Run(s, actions);
               && |end.handlers| == h + 1 && end.handlers[..h] == others && end.handlers[h].pc.Done?
               && (end.table, end.handlers[h].pc.response)
                  == if CarriedElsewhere(s.table, step.req, false) || CarriedElsewhere(s.table, step.req, true)
                     then (s.table, X402Atomic.ReplayBlocked)
                     else X402Atomic.Settle(s.table, step.req, step.pick, step.verdict)
  {
    hide CarriedElsewhere;
    var s1 := Apply(s, CheckId(h));
    if CarriedElsewhere(s.table, step.req, false) {
      RunCons(s, CheckId(h), []);
    } else {
      var s2 := Apply(s1, CheckToken(h));
      if CarriedElsewhere(s.table, step.req, true) {
        RunCons(s1, CheckToken(h), []);
        RunCons(s, CheckId(h), [CheckToken(h)] + []);
        assert [CheckToken(h)] + [] == [CheckToken(h)];
      } else {
        var tail := [LookUp(h, step.pick), Verify(h, step.verdict), MarkIntent(h)];
        SoloSettles(s2, step, h, others);
        RunCons(s1, CheckToken(h), tail);
        RunCons(s, CheckId(h), [CheckToken(h)] + tail);
      }
    }
  }

  lemma SoloSettles(s: State, step: X402Atomic.Step, h: nat, others: seq<Handler>)
    requires |s.handlers| == h + 1 && s.handlers[..h] == others && s.handlers[h] == Handler(step.req, LookingUp)
    requires LatestPending(s.table, step.req, step.pick)
    ensures var actions := [LookUp(h, step.pick), Verify(h, step.verdict), MarkIntent(h)];
            && Schedule(s, actions)
            && var end := Run(s, actions);
               && |end.handlers| == h + 1 && end.handlers[..h] == others && end.handlers[h].pc.Done?
               && (end.table, end.handlers[h].pc.response)
                  == X402Atomic.Settle(s.table, step.req, step.pick, step.verdict)
  {
    var a, b, c := LookUp(h, step.pick), Verify(h, step.verdict), MarkIntent(h);
    var s1 := Apply(s, a);
    var s2 := Apply(s1, b);
    var s3 := Apply(s2, c);
    assert s3.handlers[..h] == others;
    RunCons(s2, c, []);
    RunCons(s1, b, [c] + []);
    RunCons(s, a, [b] + ([c] + []));
    assert [a] + ([b] + ([c] + [])) == [a, b, c];
  }

  // ----------------------------------------------- the race can be reached

  const INITIAL := State(0, map[], [])

  function UpToLookUp(req: Request, h: nat): seq<Action> {
    [Arrive(req)] + ([Sweep(h)] + ([CheckId(h)] + ([CheckToken(h)] + [])))
  }

  /** A request with a proof gets as far as its lookup when no intent is stale or verified. */
  lemma ProofSteps(s: State, req: Request)
    requires req.HasProof() && forall i | i in s.table :: s.table[i].status == Pending && !Stale(s.table[i], s.now)
    ensures var h := |s.handlers|;
            var s1 := Apply(s, Arrive(req));
            && Enabled(s1, Sweep(h))
            && var s2 := Apply(s1, Sweep(h));
            && Enabled(s2, CheckId(h))
            && var s3 := Apply(s2, CheckId(h));
            && Enabled(s3, CheckToken(h))
            && Apply(s3, CheckToken(h)) == s.(handlers := s.handlers + [Handler(req, LookingUp)])
  {
    assert ExpireStale(s.table, s.now) == s.table;
    var s2 := Apply(Apply(s, Arrive(req)), Sweep(|s.handlers|));
    assert !CarriedElsewhere(s2.table, req, false) && !CarriedElsewhere(s2.table, req, true);
    hide CarriedElsewhere, ExpireStale, Stale;
    assert Apply(Apply(s2, CheckId(|s.handlers|)), CheckToken(|s.handlers|)).handlers
        == s.handlers + [Handler(req, LookingUp)];
  }

  /** The steps of `ProofSteps` as a schedule. */
  lemma ProofArrives(s: State, req: Request)
    requires req.HasProof() && forall i | i in s.table :: s.table[i].status == Pending && !Stale(s.table[i], s.now)
    ensures Schedule(s, UpToLookUp(req, |s.handlers|))
    ensures Run(s, UpToLookUp(req, |s.handlers|)) == s.(handlers := s.handlers + [Handler(req, LookingUp)])
  {
    var h := |s.handlers|;
    assert Enabled(s, Arrive(req));
    ProofSteps(s, req);
    hide Apply, Enabled;
    var s1 := Apply(s, Arrive(req));
    var s2 := Apply(s1, Sweep(h));
    var s3 := Apply(s2, CheckId(h));
    RunCons(s3, CheckToken(h), []);
    RunCons(s2, CheckId(h), [CheckToken(h)] + []);
    RunCons(s1, Sweep(h), [CheckId(h)] + ([CheckToken(h)] + []));
    RunCons(s, Arrive(req), [Sweep(h)] + ([CheckId(h)] + ([CheckToken(h)] + [])));
  }

  /** The gateway after one unpaid request. */
  function OneIntent(unpaid: Request): State {
    State(0, map[0 := NewIntent(unpaid, 0)], [Handler(unpaid, Done(X402Atomic.PaymentRequired(0), None))])
  }

  function InsertFirst(unpaid: Request): seq<Action> {
    [Arrive(unpaid)] + ([Sweep(0)] + ([Insert(0, 0)] + []))
  }

  lemma FirstIntent(unpaid: Request)
    requires !unpaid.HasProof()
    ensures Schedule(INITIAL, InsertFirst(unpaid)) && Run(INITIAL, InsertFirst(unpaid)) == OneIntent(unpaid)
  {
    var s1 := Apply(INITIAL, Arrive(unpaid));
    var s2 := Apply(s1, Sweep(0));
    RunCons(s2, Insert(0, 0), []);
    RunCons(s1, Sweep(0), [Insert(0, 0)] + []);
    RunCons(INITIAL, Arrive(unpaid), [Sweep(0)] + ([Insert(0, 0)] + []));
    assert Apply(s2, Insert(0, 0)) == OneIntent(unpaid);
  }

  /** From an empty gateway any target and any two payment ids, equal or not, lead to the race. */
  lemma RaceIsReachable(unpaid: Request, p: string, q: string) returns (actions: seq<Action>)
    requires !unpaid.HasProof()
    ensures Schedule(INITIAL, actions) && Racing(Run(INITIAL, actions), 1, 2, 0, p, q)
  {
    hide Run, Schedule, Racing, Apply, UpToLookUp, InsertFirst;
    var first, second := unpaid.(paymentId := Some(p)), unpaid.(paymentId := Some(q));
    var s3 := OneIntent(unpaid);
    FirstIntent(unpaid);
    ProofArrives(s3, first);
    var insert, s4 := InsertFirst(unpaid), Run(s3, UpToLookUp(first, 1));
    RunAppend(INITIAL, insert, UpToLookUp(first, 1));
    ProofArrives(s4, second);
    RunAppend(INITIAL, insert + UpToLookUp(first, 1), UpToLookUp(second, 2));
    actions := insert + UpToLookUp(first, 1) + UpToLookUp(second, 2);
    RacingHere(unpaid, p, q);
  }

  lemma RacingHere(unpaid: Request, p: string, q: string)
    requires !unpaid.HasProof()
    ensures Racing(OneIntent(unpaid).(handlers := OneIntent(unpaid).handlers
                                                  + [Handler(unpaid.(paymentId := Some(p)), LookingUp)]
                                                  + [Handler(unpaid.(paymentId := Some(q)), LookingUp)]), 1, 2, 0, p, q)
  {
  }

  /** From an empty gateway any target and payment ids lead to a payment undone. */
  lemma UndoingIsReachable(unpaid: Request, p: string, q: string) returns (actions: seq<Action>)
    requires !unpaid.HasProof()
    ensures Schedule(INITIAL, actions) && PaidAndUndone(Run(INITIAL, actions), 1, 2, 0, p, q)
  {
    hide Run, Schedule, Racing, PayThenReject, PaidAndUndone;
    var x := RaceIsReachable(unpaid, p, q);
    RejectionUndoesPayment(Run(INITIAL, x), 1, 2, 0, p, q);
    RunAppend(INITIAL, x, PayThenReject(1, 2, 0));
    actions := x + PayThenReject(1, 2, 0);
  }

  /** From an empty gateway any target and payment id lead to a verified intent that had expired. */
  lemma OutlivingIsReachable(unpaid: Request, p: string) returns (actions: seq<Action>)
    requires !unpaid.HasProof()
    ensures Schedule(INITIAL, actions) && Outlived(Run(INITIAL, actions), 1, 0)
  {
    hide Run, Schedule, Apply, UpToLookUp, InsertFirst, HoldWith, Late, Outlived;
    var paid := unpaid.(paymentId := Some(p));
    var s1, insert := OneIntent(unpaid), InsertFirst(unpaid);
    FirstIntent(unpaid);
    ProofArrives(s1, paid);
    RunAppend(INITIAL, insert, UpToLookUp(paid, 1));
    var x, s2 := insert + UpToLookUp(paid, 1), Run(s1, UpToLookUp(paid, 1));
    HoldRun(s2, 1, 0, X402Atomic.Accepted);
    RunAppend(INITIAL, x, Hold(1, 0));
    var s3 := Run(s2, Hold(1, 0));
    HeldIntentOutlivesExpiry(s3, 1, 0, INTENT_MS + 1, unpaid);
    RunAppend(INITIAL, x + Hold(1, 0), Late(INTENT_MS + 1, unpaid, 2));
    actions := x + Hold(1, 0) + Late(INTENT_MS + 1, unpaid, 2);
  }
}
