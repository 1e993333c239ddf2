/**
 * The x402 middleware when every request runs as one step: what `enforce_x402` does to the table and
 * what it answers, and what that keeps over whole runs.
 */
module X402Atomic {
  import opened Prelude
  import opened RequestHash
  import opened PaymentIntents

  /** What the payment provider says about a proof. */
  datatype Verdict = Accepted | Rejected | ProviderError

  datatype Response =
    | Forward(intent: Option<Id>)
    | ReplayBlocked
    | NotVerified
    | VerifyFailed
    | DbError
    | PaymentRequired(intentId: Id)

  // -------------------------------------------------------------- one request

  /** The proof sits on a verified intent of a different request. */
  predicate BoundElsewhere(t: Table, req: Request) {
    exists i | i in t ::
      && t[i].hash != req.hash
      && ((req.paymentId.Some? && CarriesVerified(t, i, false, req.paymentId.value))
          || (req.paymentToken.Some? && CarriesVerified(t, i, true, req.paymentToken.value)))
  }

  function Settle(t: Table, req: Request, pick: Option<Id>, verdict: Verdict): (Table, Response) {
    match verdict
    case Accepted =>
      if pick == None then (t, Forward(None))
      else
        var (ok, marked) := Mark(t, pick.value, Verified, req);
        (marked, if ok then Forward(pick) else DbError)
    case Rejected =>
      if pick == None then (t, NotVerified)
      else
        var (ok, marked) := Mark(t, pick.value, Failed, req);
        (marked, if ok then NotVerified else DbError)
    case ProviderError =>
      (if pick == None then t else Mark(t, pick.value, Failed, req).1, VerifyFailed)
  }

  /** One request at `now`; `pick` is what the pending lookup returned and `newId` an unused id. */
  function Handle(t: Table, now: int, req: Request, pick: Option<Id>, verdict: Verdict, newId: Id): (Table, Response) {
    var swept := ExpireStale(t, now);
    if !req.HasProof() then (swept[newId := NewIntent(req, now)], PaymentRequired(newId))
    else if BoundElsewhere(swept, req) then (swept, ReplayBlocked)
    else Settle(swept, req, pick, verdict)
  }

  /** The queries, one after the other, with their early returns. */
  method EnforceX402(db: IntentStore, now: int, req: Request, verdict: Verdict, newId: Id)
    returns (response: Response, pick: Option<Id>)
    requires Unique(db.rows) && newId !in db.rows
    modifies db
    ensures (db.rows, response) == Handle(old(db.rows), now, req, pick, verdict, newId)
    ensures response.Forward? || response.NotVerified? || response.VerifyFailed? || response.DbError?
            ==> LatestPending(ExpireStale(old(db.rows), now), req, pick)
  {
    pick := None;
    db.ExpireStalePaymentIntents(now);
    if !req.HasProof() {
      db.InsertPaymentIntent(newId, req, now);
      return PaymentRequired(newId), pick;
    }
    SweepKeepsUnique(old(db.rows), now);
    if req.paymentId.Some? {
      var existing := db.FindVerifiedIntent(false, req.paymentId.value);
      if existing.Some? && db.rows[existing.value].hash != req.hash {
        return ReplayBlocked, pick;
      }
      OnlyCarrier(db.rows, existing, false, req);
    }
    if req.paymentToken.Some? {
      var existing := db.FindVerifiedIntent(true, req.paymentToken.value);
      if existing.Some? && db.rows[existing.value].hash != req.hash {
        return ReplayBlocked, pick;
      }
      OnlyCarrier(db.rows, existing, true, req);
    }
    assert !BoundElsewhere(db.rows, req);
    pick := db.FindLatestPendingIntent(req);
    match verdict {
      case Accepted =>
        if pick.Some? {
          var ok := db.MarkPaymentIntent(pick.value, Verified, req);
          if !ok {
            return DbError, pick;
          }
        }
        return Forward(pick), pick;
      case Rejected =>
        if pick.Some? {
          var ok := db.MarkPaymentIntent(pick.value, Failed, req);
          if !ok {
            return DbError, pick;
          }
        }
        return NotVerified, pick;
      case ProviderError =>
        if pick.Some? {
          var _ := db.MarkPaymentIntent(pick.value, Failed, req);
        }
        return VerifyFailed, pick;
    }
  }

  lemma SweepKeepsUnique(t: Table, now: int)
    requires Unique(t)
    ensures Unique(ExpireStale(t, now))
  {
  }

  /** With the unique indexes in place the one row the lookup returns decides. */
  lemma OnlyCarrier(t: Table, found: Option<Id>, byToken: bool, req: Request)
    requires Unique(t)
    requires if byToken then req.paymentToken.Some? else req.paymentId.Some?
    requires var proof := if byToken then req.paymentToken.value else req.paymentId.value;
             FindsVerified(t, byToken, proof, found) && (found.Some? ==> t[found.value].hash == req.hash)
    ensures var proof := if byToken then req.paymentToken.value else req.paymentId.value;
            forall i | i in t && CarriesVerified(t, i, byToken, proof) :: t[i].hash == req.hash
  {
  }

  // ------------------------------------------------------------- whole runs

  /** One request with everything the table does not determine. */
  datatype Step = Step(now: int, req: Request, pick: Option<Id>, verdict: Verdict, newId: Id)

  ghost predicate Enabled(t: Table, s: Step) {
    s.newId !in t && LatestPending(ExpireStale(t, s.now), s.req, s.pick)
  }

  function Next(t: Table, s: Step): (t': Table)
    ensures forall i | i in t :: i in t'
  {
    Handle(t, s.now, s.req, s.pick, s.verdict, s.newId).0
  }

  function Answer(t: Table, s: Step): Response {
    Handle(t, s.now, s.req, s.pick, s.verdict, s.newId).1
  }

  function Run(t: Table, steps: seq<Step>): Table
    decreases |steps|
  {
    if steps == [] then t else Run(Next(t, steps[0]), steps[1..])
  }

  ghost predicate Runs(t: Table, steps: seq<Step>)
    decreases |steps|
  {
    steps == [] || (Enabled(t, steps[0]) && Runs(Next(t, steps[0]), steps[1..]))
  }

  ghost predicate Inv(t: Table) {
    && Unique(t)
    && (forall i | i in t && t[i].status in {Pending, Expired} :: t[i].NoProof())
    && (forall i | i in t :: t[i].expiresAt == Some(t[i].ts + INTENT_MS))
  }

  /** What a step may do to the rows already there. */
  ghost predicate RowsAge(t: Table, t': Table) {
    forall i | i in t ::
      && i in t'
      && (t[i].status != Pending ==> t'[i] == t[i])
      && t'[i].(status := t[i].status, paymentId := t[i].paymentId, paymentToken := t[i].paymentToken) == t[i]
  }

  lemma MarkAges(t: Table, id: Id, status: Status, req: Request)
    requires Inv(t) && id in t && t[id].status == Pending && status in {Verified, Failed}
    ensures var t' := Mark(t, id, status, req).1;
            Inv(t') && RowsAge(t, t')
    ensures Mark(t, id, status, req).1
         == if Mark(t, id, status, req).0
            then t[id := t[id].(status := status, paymentId := req.paymentId, paymentToken := req.paymentToken)]
            else t
  {
    assert t[id].NoProof();
    MarkExactly(t, id, status, req);
    hide Unique;
  }

  lemma SweepAges(t: Table, now: int)
    requires Inv(t)
    ensures Inv(ExpireStale(t, now)) && RowsAge(t, ExpireStale(t, now))
    ensures forall i | i in t && ExpireStale(t, now)[i].status == Pending :: now <= t[i].ts + INTENT_MS
  {
    hide Unique;
    SweepKeepsUnique(t, now);
  }

  lemma InsertAges(t: Table, id: Id, req: Request, now: int)
    requires Inv(t) && id !in t
    ensures Inv(t[id := NewIntent(req, now)]) && RowsAge(t, t[id := NewIntent(req, now)])
  {
  }

  lemma AgesCompose(a: Table, b: Table, c: Table)
    requires RowsAge(a, b) && RowsAge(b, c)
    ensures RowsAge(a, c)
  {
  }

  lemma StepAges(t: Table, s: Step)
    requires Inv(t) && Enabled(t, s)
    ensures Inv(Next(t, s)) && RowsAge(t, Next(t, s))
  {
    hide Inv, RowsAge;
    var swept := ExpireStale(t, s.now);
    SweepAges(t, s.now);
    NoChange(swept);
    if !s.req.HasProof() {
      InsertAges(swept, s.newId, s.req, s.now);
    } else if s.pick.Some? && !BoundElsewhere(swept, s.req) {
      MarkAges(swept, s.pick.value, if s.verdict == Accepted then Verified else Failed, s.req);
    }
    AgesCompose(t, swept, Next(t, s));
  }

  lemma NoChange(t: Table)
    ensures RowsAge(t, t)
  {
  }

  /**
   * Over any run: no row is lost, a row changes only while it is pending, and then only its status
   * and proof; a proof, once written, stays on its row and is on no other.
   */
  lemma {:induction false} Lifecycle(t: Table, steps: seq<Step>)
    requires Inv(t) && Runs(t, steps)
    ensures Inv(Run(t, steps)) && RowsAge(t, Run(t, steps))
    decreases |steps|
  {
    hide Inv, RowsAge, Next, Enabled;
    if steps == [] {
      NoChange(t);
    } else {
      var next := Next(t, steps[0]);
      StepAges(t, steps[0]);
      Lifecycle(next, steps[1..]);
      AgesCompose(t, next, Run(t, steps));
    }
  }

  /** `row` carries `proof` in the column the flag names. */
  predicate Carries(row: Row, byToken: bool, proof: string) {
    Some(proof) == if byToken then row.paymentToken else row.paymentId
  }

  /** Once written, a proof belongs to one row for good. */
  lemma ProofStaysOnOneRow(t: Table, steps: seq<Step>, i: Id, byToken: bool, proof: string)
    requires Inv(t) && Runs(t, steps) && i in t && Carries(t[i], byToken, proof)
    ensures i in Run(t, steps) && Run(t, steps)[i] == t[i]
    ensures forall j | j in Run(t, steps) && Carries(Run(t, steps)[j], byToken, proof) :: j == i
  {
    Lifecycle(t, steps);
    assert !t[i].NoProof();
    assert Run(t, steps)[i] == t[i];
  }

  lemma SweptRow(t: Table, now: int, i: Id)
    requires Inv(t) && i in t
    ensures ExpireStale(t, now)[i]
         == if t[i].status == Pending && t[i].ts + INTENT_MS < now then t[i].(status := Expired) else t[i]
  {
    hide Unique;
  }

  /** Only a pending row changes status, and what each change takes. */
  lemma StatusChange(t: Table, s: Step, i: Id)
    requires Inv(t) && Enabled(t, s) && i in t && Next(t, s)[i].status != t[i].status
    ensures t[i].status == Pending
    ensures Next(t, s)[i].status == Verified ==>
              && s.req.HasProof() && s.verdict == Accepted && Answer(t, s) == Forward(Some(i))
              && s.req.SameTarget(t[i]) && s.now - 15 * 60 * 1000 <= t[i].ts
              && Next(t, s)[i].paymentId == s.req.paymentId && Next(t, s)[i].paymentToken == s.req.paymentToken
    ensures Next(t, s)[i].status == Failed ==> s.verdict != Accepted && s.req.SameTarget(t[i])
    ensures Next(t, s)[i].status == Expired <==> t[i].ts + 15 * 60 * 1000 < s.now
  {
    hide Inv, RowsAge, Mark, BoundElsewhere, ExpireStale;
    SweepAges(t, s.now);
    SweptRow(t, s.now, i);
    var swept := ExpireStale(t, s.now);
    if s.req.HasProof() && !BoundElsewhere(swept, s.req) && s.pick.Some? {
      MarkAges(swept, s.pick.value, if s.verdict == Accepted then Verified else Failed, s.req);
    }
  }

  // ---------------------------------------------------------- replay binding

  /** A proof on a verified intent of another request is refused, whatever the provider says. */
  lemma ReplayBlockedOverRuns(t: Table, steps: seq<Step>, i: Id, byToken: bool, proof: string, s: Step)
    requires Inv(t) && Runs(t, steps) && Enabled(Run(t, steps), s)
    requires CarriesVerified(t, i, byToken, proof)
    requires s.req.hash != t[i].hash
    requires (if byToken then s.req.paymentToken else s.req.paymentId) == Some(proof)
    ensures Answer(Run(t, steps), s) == ReplayBlocked
    ensures Next(Run(t, steps), s) == ExpireStale(Run(t, steps), s.now)
  {
    Lifecycle(t, steps);
    var now := Run(t, steps);
    assert now[i] == t[i];
    assert CarriesVerified(ExpireStale(now, s.now), i, byToken, proof);
  }

  /** The same, for a request that differs in method, target or body. */
  lemma ReplayBlockedForOtherRequest(
    t: Table, steps: seq<Step>, i: Id, byToken: bool, proof: string, s: Step,
    verb: Bytes, target: Bytes, body: Bytes, verb': Bytes, target': Bytes, body': Bytes)
    requires Inv(t) && Runs(t, steps) && Enabled(Run(t, steps), s)
    requires CarriesVerified(t, i, byToken, proof)
    requires LF !in verb && LF !in target && LF !in verb' && LF !in target'
    requires t[i].hash == Frame(verb, target, body) && s.req.hash == Frame(verb', target', body')
    requires (verb, target, body) != (verb', target', body')
    requires (if byToken then s.req.paymentToken else s.req.paymentId) == Some(proof)
    ensures Answer(Run(t, steps), s) == ReplayBlocked
    ensures Next(Run(t, steps), s) == ExpireStale(Run(t, steps), s.now)
  {
    if s.req.hash == t[i].hash {
      FrameInjective(verb, target, body, verb', target', body');
    }
    ReplayBlockedOverRuns(t, steps, i, byToken, proof, s);
  }

  // ------------------------------------------------ the other answers, on columns

  /** A pending row of the request's key, partner, path and hash that has not outlived its 15 minutes. */
  ghost predicate Waiting(row: Row, req: Request, now: int) {
    && row.status == Pending && now <= row.ts + 15 * 60 * 1000
    && row.virtualKey == req.virtualKey && row.partner == req.partner && row.path == req.path && row.hash == req.hash
  }

  /** The lookup finds a newest waiting intent, or there is none. */
  lemma PickIsNewest(t: Table, s: Step)
    requires Inv(t) && Enabled(t, s)
    ensures s.pick.Some? ==> s.pick.value in t && Waiting(t[s.pick.value], s.req, s.now)
    ensures s.pick.Some? ==> forall j | j in t && Waiting(t[j], s.req, s.now) :: t[j].ts <= t[s.pick.value].ts
    ensures s.pick == None ==> forall j | j in t :: !Waiting(t[j], s.req, s.now)
  {
    var swept := ExpireStale(t, s.now);
    forall j | j in t
      ensures PendingFor(swept, j, s.req) <==> Waiting(t[j], s.req, s.now)
      ensures swept[j].ts == t[j].ts
    {
      SweptRow(t, s.now, j);
    }
    assert swept.Keys == t.Keys;
    hide Inv, Waiting, PendingFor, ExpireStale;
  }

  /** A proof is refused as a replay exactly when a verified row of another hash carries its id or token. */
  lemma ReplayBlockedExactly(t: Table, s: Step)
    ensures Answer(t, s) == ReplayBlocked
       <==> exists i | i in t ::
              && t[i].status == Verified && t[i].hash != s.req.hash
              && ((s.req.paymentId.Some? && t[i].paymentId == s.req.paymentId)
                  || (s.req.paymentToken.Some? && t[i].paymentToken == s.req.paymentToken))
  {
    SweepHidesNothing(t, s.now, s.req);
    hide ExpireStale, Mark;
  }

  /** Requests without a proof, and only they, are answered 402 with a new pending intent, good for 15 minutes. */
  lemma UnpaidIsRecorded(t: Table, s: Step)
    ensures Answer(t, s).PaymentRequired? <==> s.req.paymentId == None && s.req.paymentToken == None
    ensures Answer(t, s).PaymentRequired? ==>
              && Answer(t, s) == PaymentRequired(s.newId)
              && Next(t, s) == ExpireStale(t, s.now)[s.newId :=
                                 Row(s.now, s.req.virtualKey, s.req.partner, s.req.path, s.req.hash, Pending,
                                     None, None, Some(s.now + 15 * 60 * 1000))]
  {
    hide Mark, BoundElsewhere, ExpireStale;
  }

  lemma WaitingIntentFailed(t: Table, id: Id, req: Request)
    requires Inv(t) && PendingFor(t, id, req)
    ensures Mark(t, id, Failed, req).0 <==> !Spent(t, req)
  {
    assert t[id].NoProof();
    MarkExactly(t, id, Failed, req);
    hide Mark, Unique;
    assert !CarriesProofOf(t[id], req);
  }

  /**
   * What a proof gets that the provider does not accept and that is bound to no other request.  A
   * rejected one is answered as not verified, unless the mark of a waiting intent fails because the
   * proof is on a row already; after a provider error the answer is the same either way.  A waiting
   * intent is turned to failed, with the proof, exactly when no row carries the proof.
   */
  lemma RefusedProofExactly(t: Table, s: Step)
    requires Inv(t) && Enabled(t, s) && s.req.HasProof() && s.verdict != Accepted && !BoundElsewhere(t, s.req)
    ensures s.verdict == Rejected ==>
              Answer(t, s) == if s.pick.Some? && Spent(t, s.req) then DbError else NotVerified
    ensures s.verdict == ProviderError ==> Answer(t, s) == VerifyFailed
    ensures var swept := ExpireStale(t, s.now);
            Next(t, s) == if s.pick == None || Spent(t, s.req) then swept
                          else swept[s.pick.value := swept[s.pick.value].(status := Failed,
                                       paymentId := s.req.paymentId, paymentToken := s.req.paymentToken)]
  {
    hide Inv, Mark, BoundElsewhere, ExpireStale, Spent, RowsAge;
    var swept := ExpireStale(t, s.now);
    SweepAges(t, s.now);
    SweepHidesNothing(t, s.now, s.req);
    if s.pick.Some? {
      WaitingIntentFailed(swept, s.pick.value, s.req);
      MarkAges(swept, s.pick.value, Failed, s.req);
    }
  }

  // ------------------------------------------- what an accepted proof still buys

  /** The proof is on a row already, verified or failed. */
  ghost predicate Spent(t: Table, req: Request) {
    exists i | i in t :: CarriesProofOf(t[i], req)
  }

  /** The key has a verified intent for the hash already. */
  ghost predicate HashPaid(t: Table, req: Request) {
    exists i | i in t :: t[i].status == Verified && t[i].virtualKey == req.virtualKey && t[i].hash == req.hash
  }

  lemma SweepHidesNothing(t: Table, now: int, req: Request)
    ensures var swept := ExpireStale(t, now);
            && (BoundElsewhere(swept, req) <==> BoundElsewhere(t, req))
            && (Spent(swept, req) <==> Spent(t, req))
            && (HashPaid(swept, req) <==> HashPaid(t, req))
  {
    var swept := ExpireStale(t, now);
    assert forall i | i in t :: swept[i].(status := t[i].status) == t[i]
                                && (swept[i].status == Verified <==> t[i].status == Verified);
    assert forall i, byToken, proof ::
        CarriesVerified(swept, i, byToken, proof) <==> CarriesVerified(t, i, byToken, proof);
    hide ExpireStale, CarriesVerified;
  }

  lemma WaitingIntentMarked(t: Table, id: Id, req: Request)
    requires Inv(t) && PendingFor(t, id, req)
    ensures Mark(t, id, Verified, req).0 <==> !Spent(t, req) && !HashPaid(t, req)
  {
    assert t[id].NoProof();
    MarkExactly(t, id, Verified, req);
    hide Mark, Unique;
    assert !CarriesProofOf(t[id], req);
  }

  /**
   * What an accepted proof gets.  With an intent waiting it is forwarded exactly when no row carries
   * the proof and the key has not yet paid for this hash; the intent then records it.  With none
   * waiting it is forwarded unless it is bound to another request, and nothing records that.
   */
  lemma AcceptedForwardExactly(t: Table, s: Step)
    requires Inv(t) && Enabled(t, s) && s.req.HasProof() && s.verdict == Accepted
    ensures Answer(t, s) == ReplayBlocked <==> BoundElsewhere(t, s.req)
    ensures s.pick.Some? ==> (Answer(t, s) == Forward(s.pick) <==> !Spent(t, s.req) && !HashPaid(t, s.req))
    ensures s.pick.Some? ==> Answer(t, s) in {Forward(s.pick), ReplayBlocked, DbError}
    ensures s.pick == None ==> Answer(t, s) in {Forward(None), ReplayBlocked}
    ensures var swept := ExpireStale(t, s.now);
            Next(t, s) == if Answer(t, s) != Forward(s.pick) || s.pick == None then swept
                          else swept[s.pick.value := swept[s.pick.value].(status := Verified,
                                       paymentId := s.req.paymentId, paymentToken := s.req.paymentToken)]
  {
    hide Inv, Mark, BoundElsewhere, ExpireStale, Spent, HashPaid, RowsAge;
    var swept := ExpireStale(t, s.now);
    SweepAges(t, s.now);
    SweepHidesNothing(t, s.now, s.req);
    BoundIsSpent(swept, s.req);
    if s.pick.Some? {
      WaitingIntentMarked(swept, s.pick.value, s.req);
      MarkAges(swept, s.pick.value, Verified, s.req);
    }
  }

  lemma BoundIsSpent(t: Table, req: Request)
    ensures BoundElsewhere(t, req) ==> Spent(t, req)
  {
    if BoundElsewhere(t, req) {
      var i :| i in t && t[i].hash != req.hash
            && ((req.paymentId.Some? && CarriesVerified(t, i, false, req.paymentId.value))
                || (req.paymentToken.Some? && CarriesVerified(t, i, true, req.paymentToken.value)));
      assert CarriesProofOf(t[i], req);
    }
  }

  lemma OnlyAcceptedIsForwarded(t: Table, s: Step)
    requires Answer(t, s).Forward?
    ensures s.req.HasProof() && s.verdict == Accepted && Answer(t, s) == Forward(s.pick)
  {
    hide BoundElsewhere, ExpireStale, Mark;
  }

  /** A request presents no proof but the other's, whatever its key, partner, path and hash. */
  predicate PresentsOnly(req: Request, other: Request) {
    req.HasProof() && req.paymentId in {None, other.paymentId} && req.paymentToken in {None, other.paymentToken}
  }

  /**
   * A proof that paid once, presented again after any run, by any key: refused with another hash; with
   * the same hash forwarded again exactly when the lookup finds no pending intent.  A second intent it
   * cannot pay for.
   */
  lemma PaidRepeatsExactly(t: Table, first: Step, between: seq<Step>, again: Step)
    requires Inv(t) && Enabled(t, first) && Answer(t, first).Forward? && first.pick.Some?
    requires Runs(Next(t, first), between) && Enabled(Run(Next(t, first), between), again)
    requires PresentsOnly(again.req, first.req) && again.verdict == Accepted
    ensures Answer(Run(Next(t, first), between), again)
         == if again.req.hash != first.req.hash then ReplayBlocked
            else if again.pick == None then Forward(None)
            else DbError
  {
    hide Inv, RowsAge, Next, Enabled, Run, Runs, Answer, BoundElsewhere, Spent, HashPaid;
    var now := Run(Next(t, first), between);
    PaidRow(t, first, between);
    InvAfter(t, first, between);
    BoundByHash(now, first.pick.value, again.req);
    AcceptedForwardExactly(now, again);
  }

  /** The intent a request paid keeps its hash and its proof. */
  lemma PaidRow(t: Table, first: Step, between: seq<Step>)
    requires Inv(t) && Enabled(t, first) && Answer(t, first).Forward? && first.pick.Some?
    requires Runs(Next(t, first), between)
    ensures var now, i := Run(Next(t, first), between), first.pick.value;
            && i in now && now[i].status == Verified && now[i].hash == first.req.hash
            && now[i].paymentId == first.req.paymentId && now[i].paymentToken == first.req.paymentToken
  {
    var paid, i := Next(t, first), first.pick.value;
    OnlyAcceptedIsForwarded(t, first);
    AcceptedForwardExactly(t, first);
    StepAges(t, first);
    Lifecycle(paid, between);
    hide Inv, BoundElsewhere, Mark;
    assert Run(paid, between)[i] == paid[i];
  }

  lemma InvAfter(t: Table, first: Step, between: seq<Step>)
    requires Inv(t) && Enabled(t, first) && Runs(Next(t, first), between)
    ensures Inv(Run(Next(t, first), between))
  {
    hide Inv, Next, Enabled;
    StepAges(t, first);
    Lifecycle(Next(t, first), between);
  }

  /** A paid row's proof is bound to that row's hash and no other. */
  lemma BoundByHash(t: Table, i: Id, req: Request)
    requires Inv(t) && i in t && t[i].status == Verified && req.HasProof()
    requires req.paymentId in {None, t[i].paymentId} && req.paymentToken in {None, t[i].paymentToken}
    ensures BoundElsewhere(t, req) <==> req.hash != t[i].hash
    ensures Spent(t, req)
  {
    assert CarriesProofOf(t[i], req);
    assert Unique(t);
    assert req.paymentId.Some? ==> CarriesVerified(t, i, false, req.paymentId.value);
    assert req.paymentToken.Some? ==> CarriesVerified(t, i, true, req.paymentToken.value);
  }

  /** An unpaid request, its payment, and the same proof once more from any key. */
  function PayAndRepeat(unpaid: Request, p: string, other: Request): seq<Step> {
    [Step(0, unpaid, None, Accepted, 0),
     Step(1, unpaid.(paymentId := Some(p)), Some(0), Accepted, 1),
     Step(2, other.(paymentId := Some(p), hash := unpaid.hash), None, Accepted, 1)]
  }

  /** From an empty table: one payment, and a second forward on it, for the payer or for another key. */
  lemma PaidRepeatIsReachable(unpaid: Request, p: string, other: Request)
    requires !unpaid.HasProof() && !other.HasProof()
    ensures var steps := PayAndRepeat(unpaid, p, other);
            && Runs(map[], steps)
            && Answer(map[], steps[0]) == PaymentRequired(0)
            && Answer(Run(map[], steps[..1]), steps[1]) == Forward(Some(0))
            && Answer(Run(map[], steps[..2]), steps[2]) == Forward(None)
  {
    var steps := PayAndRepeat(unpaid, p, other);
    var s0, s1, s2 := steps[0], steps[1], steps[2];
    var t1 := map[0 := NewIntent(unpaid, 0)];
    var t2 := map[0 := NewIntent(unpaid, 0).(status := Verified, paymentId := Some(p))];
    assert Enabled(map[], s0) && Next(map[], s0) == t1 && Answer(map[], s0) == PaymentRequired(0);
    FirstPayment(unpaid, p);
    assert Enabled(t2, s2) && Answer(t2, s2) == Forward(None);
    hide Enabled, Next, Answer;
    assert steps == [s0] + ([s1] + ([s2] + []));
    assert steps[1..] == [s1] + ([s2] + []) && steps[1..][1..] == [s2] && steps[1..][1..][1..] == [];
    assert Runs(t2, [s2]);
    assert Runs(t1, steps[1..]);
    assert steps[..1] == [s0] && steps[..2] == [s0] + [s1] && steps[..2][1..] == [s1] && [s1][1..] == [];
    assert Run(map[], [s0]) == t1;
    assert Run(t1, [s1]) == Run(t2, []) == t2;
    assert Run(map[], steps[..2]) == Run(t1, steps[..2][1..]);
  }

  lemma FirstPayment(unpaid: Request, p: string)
    requires !unpaid.HasProof()
    ensures var t, s := map[0 := NewIntent(unpaid, 0)], Step(1, unpaid.(paymentId := Some(p)), Some(0), Accepted, 1);
            && Enabled(t, s) && Answer(t, s) == Forward(Some(0))
            && Next(t, s) == map[0 := NewIntent(unpaid, 0).(status := Verified, paymentId := Some(p))]
  {
    var t := map[0 := NewIntent(unpaid, 0)];
    assert ExpireStale(t, 1) == t;
  }

  /** A proof left on a row, were it a failed one, never pays for a waiting intent. */
  lemma SpentProofNeverPays(t: Table, steps: seq<Step>, i: Id, s: Step)
    requires Inv(t) && Runs(t, steps) && Enabled(Run(t, steps), s)
    requires i in t && CarriesProofOf(t[i], s.req)
    ensures Answer(Run(t, steps), s).Forward? ==> s.pick == None
  {
    var now := Run(t, steps);
    Lifecycle(t, steps);
    assert !t[i].NoProof();
    assert now[i] == t[i];
    if Answer(now, s).Forward? {
      OnlyAcceptedIsForwarded(now, s);
      AcceptedForwardExactly(now, s);
    }
  }

  /** Once a key has paid for a hash, no proof pays for a further intent of the two. */
  lemma PaidHashNeverPaysAgain(t: Table, steps: seq<Step>, i: Id, s: Step)
    requires Inv(t) && Runs(t, steps) && Enabled(Run(t, steps), s)
    requires i in t && t[i].status == Verified && t[i].virtualKey == s.req.virtualKey && t[i].hash == s.req.hash
    requires s.req.HasProof() && s.verdict == Accepted && s.pick.Some?
    ensures Answer(Run(t, steps), s) == if BoundElsewhere(Run(t, steps), s.req) then ReplayBlocked else DbError
    ensures Next(Run(t, steps), s) == ExpireStale(Run(t, steps), s.now)
  {
    var now := Run(t, steps);
    Lifecycle(t, steps);
    assert now[i] == t[i];
    AcceptedForwardExactly(now, s);
  }

  /** Every step is forwarded without an intent, and changes nothing but stale rows. */
  ghost predicate AllUnpaid(t: Table, steps: seq<Step>)
    decreases |steps|
  {
    steps == []
    || (Answer(t, steps[0]) == Forward(None) && Next(t, steps[0]) == ExpireStale(t, steps[0].now)
        && AllUnpaid(Next(t, steps[0]), steps[1..]))
  }

  /** With no intent waiting, an accepted proof is forwarded as often and as late as it is presented. */
  lemma {:induction false} UnpaidRepeats(t: Table, req: Request, steps: seq<Step>)
    requires Inv(t) && req.HasProof() && !BoundElsewhere(t, req) && (forall i: Id :: !PendingFor(t, i, req))
    requires Runs(t, steps) && forall s | s in steps :: s.req == req && s.verdict == Accepted
    ensures AllUnpaid(t, steps)
    decreases |steps|
  {
    if steps != [] {
      var s := steps[0];
      assert s in steps;
      SweepAges(t, s.now);
      SweepHidesNothing(t, s.now, req);
      AcceptedForwardExactly(t, s);
      var swept := ExpireStale(t, s.now);
      assert s.pick == None by {
        if s.pick.Some? {
          assert PendingFor(t, s.pick.value, req);
        }
      }
      forall i: Id
        ensures !PendingFor(swept, i, req)
      {
        assert !PendingFor(t, i, req);
      }
      UnpaidRepeats(Next(t, s), req, steps[1..]);
    }
  }
}
