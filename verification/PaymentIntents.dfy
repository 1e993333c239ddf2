/** The `payment_intents` table: its rows, its unique indexes and the statements run against it. */
module PaymentIntents {
  import opened Prelude
  import opened RequestHash

  type Id = nat

  const INTENT_MS := 15 * 60 * 1000

  datatype Status = Pending | Verified | Failed | Expired

  datatype Row = Row(ts: int, virtualKey: nat, partner: string, path: string, hash: Bytes,
                     status: Status, paymentId: Option<string>, paymentToken: Option<string>,
                     expiresAt: Option<int>)
  {
    predicate NoProof() {
      paymentId == None && paymentToken == None
    }
  }

  type Table = map<Id, Row>

  /** What the protocol uses of an incoming request. */
  datatype Request = Request(virtualKey: nat, partner: string, path: string, hash: Bytes,
                             paymentId: Option<string>, paymentToken: Option<string>)
  {
    predicate HasProof() {
      paymentId.Some? || paymentToken.Some?
    }

    /** The columns the lookup of a pending intent compares. */
    predicate SameTarget(row: Row) {
      row.virtualKey == virtualKey && row.partner == partner && row.path == path && row.hash == hash
    }
  }

  // ---------------------------------------------------------- unique indexes

  predicate UniquePaymentId(t: Table) {
    forall i, j | i in t && j in t && i != j :: t[i].paymentId.Some? ==> t[i].paymentId != t[j].paymentId
  }

  predicate UniquePaymentToken(t: Table) {
    forall i, j | i in t && j in t && i != j :: t[i].paymentToken.Some? ==> t[i].paymentToken != t[j].paymentToken
  }

  predicate UniqueVerifiedHash(t: Table) {
    forall i, j | i in t && j in t && i != j ::
      !(t[i].status == Verified && t[j].status == Verified
        && t[i].virtualKey == t[j].virtualKey && t[i].hash == t[j].hash)
  }

  predicate Unique(t: Table) {
    UniquePaymentId(t) && UniquePaymentToken(t) && UniqueVerifiedHash(t)
  }

  // ---------------------------------------------------------------- statements

  function Coalesce<T>(a: Option<T>, b: Option<T>): Option<T> {
    if a.Some? then a else b
  }

  function NewIntent(req: Request, now: int): Row {
    Row(now, req.virtualKey, req.partner, req.path, req.hash, Pending, None, None, Some(now + INTENT_MS))
  }

  function MarkedRow(row: Row, status: Status, req: Request): Row {
    row.(status := status,
         paymentId := Coalesce(req.paymentId, row.paymentId),
         paymentToken := Coalesce(req.paymentToken, row.paymentToken))
  }

  /** An update by id, which fails and changes nothing when it would break an index. */
  function Mark(t: Table, id: Id, status: Status, req: Request): (bool, Table) {
    if id !in t then (true, t)
    else
      var marked := t[id := MarkedRow(t[id], status, req)];
      if Unique(marked) then (true, marked) else (false, t)
  }

  /** The row carries one of the request's proofs. */
  predicate CarriesProofOf(row: Row, req: Request) {
    || (req.paymentId.Some? && row.paymentId == req.paymentId)
    || (req.paymentToken.Some? && row.paymentToken == req.paymentToken)
  }

  /** No row but `id` carries a proof of the request. */
  predicate FreeFor(t: Table, id: Id, req: Request) {
    forall j | j in t && j != id :: !CarriesProofOf(t[j], req)
  }

  /** No row but `id` is verified for the key and hash of `id`. */
  predicate SoleForHash(t: Table, id: Id)
    requires id in t
  {
    forall j | j in t && j != id ::
      !(t[j].status == Verified && t[j].virtualKey == t[id].virtualKey && t[j].hash == t[id].hash)
  }

  /** An update by id succeeds exactly when the proof is free and, to verify, the key and hash are. */
  lemma MarkExactly(t: Table, id: Id, status: Status, req: Request)
    requires Unique(t) && id in t
    ensures Mark(t, id, status, req).0 <==> FreeFor(t, id, req) && (status == Verified ==> SoleForHash(t, id))
    ensures Unique(Mark(t, id, status, req).1)
  {
    var marked := t[id := MarkedRow(t[id], status, req)];
    assert forall j | j in t && j != id :: marked[j] == t[j];
    MarkedIds(t, id, status, req);
    MarkedTokens(t, id, status, req);
    MarkedHashes(t, id, status, req);
    hide UniquePaymentId, UniquePaymentToken, UniqueVerifiedHash, MarkedRow;
  }

  /** An update that finds no row succeeds and changes nothing. */
  lemma MarkNothing(t: Table, id: Id, status: Status, req: Request)
    requires id !in t
    ensures Mark(t, id, status, req) == (true, t)
  {
  }

  lemma MarkedIds(t: Table, id: Id, status: Status, req: Request)
    requires UniquePaymentId(t) && id in t
    ensures UniquePaymentId(t[id := MarkedRow(t[id], status, req)])
       <==> forall j | j in t && j != id :: !(req.paymentId.Some? && t[j].paymentId == req.paymentId)
  {
    var marked := t[id := MarkedRow(t[id], status, req)];
    assert marked[id].paymentId == Coalesce(req.paymentId, t[id].paymentId);
    assert forall j | j in t && j != id :: marked[j] == t[j];
    forall j | j in t && j != id && UniquePaymentId(marked)
      ensures !(req.paymentId.Some? && t[j].paymentId == req.paymentId)
    {
      assert marked[j] == t[j];
    }
  }

  lemma MarkedTokens(t: Table, id: Id, status: Status, req: Request)
    requires UniquePaymentToken(t) && id in t
    ensures UniquePaymentToken(t[id := MarkedRow(t[id], status, req)])
       <==> forall j | j in t && j != id :: !(req.paymentToken.Some? && t[j].paymentToken == req.paymentToken)
  {
    var marked := t[id := MarkedRow(t[id], status, req)];
    assert marked[id].paymentToken == Coalesce(req.paymentToken, t[id].paymentToken);
    assert forall j | j in t && j != id :: marked[j] == t[j];
    forall j | j in t && j != id && UniquePaymentToken(marked)
      ensures !(req.paymentToken.Some? && t[j].paymentToken == req.paymentToken)
    {
      assert marked[j] == t[j];
    }
  }

  lemma MarkedHashes(t: Table, id: Id, status: Status, req: Request)
    requires UniqueVerifiedHash(t) && id in t
    ensures UniqueVerifiedHash(t[id := MarkedRow(t[id], status, req)])
       <==> (status == Verified ==> SoleForHash(t, id))
  {
    var marked := t[id := MarkedRow(t[id], status, req)];
    assert marked[id].status == status;
    forall j | j in t && j != id && UniqueVerifiedHash(marked) && status == Verified
      ensures !(t[j].status == Verified && t[j].virtualKey == t[id].virtualKey && t[j].hash == t[id].hash)
    {
      assert marked[j] == t[j];
    }
  }

  predicate Stale(row: Row, now: int) {
    row.status == Pending && row.expiresAt.Some? && row.expiresAt.value < now
  }

  function ExpireStale(t: Table, now: int): Table {
    map i | i in t :: if Stale(t[i], now) then t[i].(status := Expired) else t[i]
  }

  /** The lookup by payment id (`byToken` false) or token may return `found`. */
  ghost predicate FindsVerified(t: Table, byToken: bool, proof: string, found: Option<Id>) {
    if found.Some? then CarriesVerified(t, found.value, byToken, proof)
    else forall i | i in t :: !CarriesVerified(t, i, byToken, proof)
  }

  predicate CarriesVerified(t: Table, i: Id, byToken: bool, proof: string) {
    i in t && t[i].status == Verified && Some(proof) == if byToken then t[i].paymentToken else t[i].paymentId
  }

  predicate PendingFor(t: Table, i: Id, req: Request) {
    i in t && t[i].status == Pending && req.SameTarget(t[i])
  }

  /** `pick` is a newest pending intent for the request's target, if there is any. */
  ghost predicate LatestPending(t: Table, req: Request, pick: Option<Id>) {
    if pick.Some? then
      PendingFor(t, pick.value, req) && forall i | PendingFor(t, i, req) :: t[i].ts <= t[pick.value].ts
    else forall i: Id :: !PendingFor(t, i, req)
  }

  lemma {:induction false} NewestExists(t: Table, ids: set<Id>) returns (newest: Id)
    requires ids != {} && forall i | i in ids :: i in t
    ensures newest in ids && forall i | i in ids :: t[i].ts <= t[newest].ts
    decreases |ids|
  {
    var first :| first in ids;
    var rest := ids - {first};
    newest := first;
    if rest != {} {
      assert |rest| < |ids|;
      var other := NewestExists(t, rest);
      if t[other].ts > t[first].ts {
        newest := other;
      }
      forall i | i in ids
        ensures t[i].ts <= t[newest].ts
      {
        assert i == first || i in rest;
      }
    }
  }

  /** The table as the database holds it, changed in place by the queries. */
  class IntentStore {
    var rows: Table

    constructor ()
      ensures rows == map[]
    {
      rows := map[];
    }

    method InsertPaymentIntent(id: Id, req: Request, now: int)
      requires id !in rows
      modifies this
      ensures rows == old(rows)[id := NewIntent(req, now)]
    {
      rows := rows[id := Row(now, req.virtualKey, req.partner, req.path, req.hash, Pending, None, None,
                             Some(now + INTENT_MS))];
    }

    method MarkPaymentIntent(id: Id, status: Status, req: Request) returns (ok: bool)
      modifies this
      ensures (ok, rows) == Mark(old(rows), id, status, req)
    {
      ok := true;
      if id in rows {
        var row := rows[id];
        var paymentId := if req.paymentId.Some? then req.paymentId else row.paymentId;
        var paymentToken := if req.paymentToken.Some? then req.paymentToken else row.paymentToken;
        var updated := rows[id := row.(status := status, paymentId := paymentId, paymentToken := paymentToken)];
        ok := Unique(updated);
        if ok {
          rows := updated;
        }
      }
    }

    method ExpireStalePaymentIntents(now: int)
      modifies this
      ensures rows == ExpireStale(old(rows), now)
    {
      rows := map i | i in rows :: if Stale(rows[i], now) then rows[i].(status := Expired) else rows[i];
    }

    method FindVerifiedIntent(byToken: bool, proof: string) returns (found: Option<Id>)
      ensures FindsVerified(rows, byToken, proof, found)
    {
      if i :| i in rows && CarriesVerified(rows, i, byToken, proof) {
        return Some(i);
      }
      return None;
    }

    method FindLatestPendingIntent(req: Request) returns (pick: Option<Id>)
      ensures LatestPending(rows, req, pick)
    {
      var candidates := set i | i in rows && PendingFor(rows, i, req);
      if candidates == {} {
        assert forall i: Id | PendingFor(rows, i, req) :: i in candidates;
        return None;
      }
      ghost var newest := NewestExists(rows, candidates);
      assert forall i | PendingFor(rows, i, req) :: i in candidates;
      var id :| id in candidates && forall i | i in candidates :: rows[i].ts <= rows[id].ts;
      return Some(id);
    }
  }
}
