/** The de-duplication of `payment_intents` that lets its three unique indexes be created. */
module Migration0016 {
  import opened Prelude
  import opened RequestHash
  import opened PaymentIntents

  /** `ORDER BY ts DESC, id DESC`: row `i` comes before row `j`. */
  predicate Outranks(t: Table, i: Id, j: Id)
    requires i in t && j in t
  {
    t[i].ts > t[j].ts || (t[i].ts == t[j].ts && i > j)
  }

  /** The partition of row `i`; rows without a key are not ranked. */
  function Partition<K(==)>(t: Table, key: Row -> Option<K>, i: Id): set<Id>
    requires i in t
  {
    set j | j in t && key(t[j]) == key(t[i])
  }

  /** `ROW_NUMBER()` of row `i` within its partition. */
  function RowNumber<K(==)>(t: Table, key: Row -> Option<K>, i: Id): nat
    requires i in t
  {
    1 + |set j | j in Partition(t, key, i) && Outranks(t, j, i)|
  }

  /** The update that clears what makes a row a duplicate, on every ranked row but the first. */
  function Deduplicated<K(==)>(t: Table, key: Row -> Option<K>, clear: Row -> Row): Table {
    map i | i in t :: if key(t[i]).Some? && RowNumber(t, key, i) > 1 then clear(t[i]) else t[i]
  }

  function PaymentIdOf(row: Row): Option<string> {
    row.paymentId
  }

  function PaymentTokenOf(row: Row): Option<string> {
    row.paymentToken
  }

  function VerifiedGroupOf(row: Row): Option<(nat, Bytes)> {
    if row.status == Verified then Some((row.virtualKey, row.hash)) else None
  }

  function ClearPaymentId(row: Row): Row {
    row.(paymentId := None)
  }

  function ClearPaymentToken(row: Row): Row {
    row.(paymentToken := None)
  }

  function Downgrade(row: Row): Row {
    row.(status := Failed)
  }

  function Migrated(t: Table): Table {
    var noIds := Deduplicated(t, PaymentIdOf, ClearPaymentId);
    var noTokens := Deduplicated(noIds, PaymentTokenOf, ClearPaymentToken);
    Deduplicated(noTokens, VerifiedGroupOf, Downgrade)
  }

  method ClearDuplicateIds(db: IntentStore)
    modifies db
    ensures db.rows == Deduplicated(old(db.rows), PaymentIdOf, ClearPaymentId)
  {
    hide RowNumber;
    var t := db.rows;
    db.rows := map i | i in t ::
      if t[i].paymentId.Some? && RowNumber(t, PaymentIdOf, i) > 1 then t[i].(paymentId := None) else t[i];
  }

  method ClearDuplicateTokens(db: IntentStore)
    modifies db
    ensures db.rows == Deduplicated(old(db.rows), PaymentTokenOf, ClearPaymentToken)
  {
    hide RowNumber;
    var t := db.rows;
    db.rows := map i | i in t ::
      if t[i].paymentToken.Some? && RowNumber(t, PaymentTokenOf, i) > 1 then t[i].(paymentToken := None) else t[i];
  }

  method DowngradeDuplicateHashes(db: IntentStore)
    modifies db
    ensures db.rows == Deduplicated(old(db.rows), VerifiedGroupOf, Downgrade)
  {
    hide RowNumber;
    var t := db.rows;
    db.rows := map i | i in t ::
      if t[i].status == Verified && RowNumber(t, VerifiedGroupOf, i) > 1 then t[i].(status := Failed) else t[i];
  }

  /** The three updates, after which all three indexes can be created. */
  method Migrate(db: IntentStore)
    modifies db
    ensures db.rows == Migrated(old(db.rows))
    ensures Unique(db.rows)
  {
    hide Deduplicated, Unique;
    MigrationIsUnique(db.rows);
    ClearDuplicateIds(db);
    ClearDuplicateTokens(db);
    DowngradeDuplicateHashes(db);
  }

  // ------------------------------------------------------- one ranked update

  /** Row `w` is the newest of the rows whose key is `k`, and of equally old ones that with the greatest id. */
  ghost predicate Greatest<K>(t: Table, key: Row -> Option<K>, k: K, w: Id) {
    && w in t && key(t[w]) == Some(k)
    && forall j | j in t && j != w && key(t[j]) == Some(k) ::
         t[j].ts < t[w].ts || (t[j].ts == t[w].ts && j < w)
  }

  lemma RankOne<K>(t: Table, key: Row -> Option<K>, i: Id, k: K)
    requires i in t && key(t[i]) == Some(k)
    ensures RowNumber(t, key, i) == 1 <==> Greatest(t, key, k, i)
  {
    var above := set j | j in Partition(t, key, i) && Outranks(t, j, i);
    if RowNumber(t, key, i) == 1 {
      assert above == {};
      forall j | j in t && j != i && key(t[j]) == Some(k)
        ensures Outranks(t, i, j)
      {
        assert j !in above;
      }
    } else {
      var j :| j in above;
    }
  }

  lemma {:induction false} GreatestExists<K>(t: Table, key: Row -> Option<K>, k: K, ids: set<Id>) returns (w: Id)
    requires ids != {} && forall i | i in ids :: i in t && key(t[i]) == Some(k)
    ensures w in ids && forall j | j in ids && j != w :: Outranks(t, w, j)
    decreases |ids|
  {
    var i :| i in ids;
    var rest := ids - {i};
    w := i;
    if rest != {} {
      assert |rest| < |ids|;
      var top := GreatestExists(t, key, k, rest);
      if Outranks(t, top, i) {
        w := top;
      }
      forall j | j in ids && j != w
        ensures Outranks(t, w, j)
      {
        assert j == i || j in rest;
      }
    }
  }

  /** After the update each key present before sits on its greatest row alone, which is untouched. */
  lemma OneRowPerKey<K>(t: Table, key: Row -> Option<K>, clear: Row -> Row, i: Id, k: K) returns (w: Id)
    requires forall row :: key(clear(row)) == None
    requires i in t && key(t[i]) == Some(k)
    ensures var t' := Deduplicated(t, key, clear);
            && Greatest(t, key, k, w) && t'[w] == t[w]
            && forall j | j in t' && key(t'[j]) == Some(k) :: j == w
  {
    var ids := set j | j in t && key(t[j]) == Some(k);
    assert i in ids;
    w := GreatestExists(t, key, k, ids);
    forall j | j in t && j != w && key(t[j]) == Some(k)
      ensures Outranks(t, w, j)
    {
      assert j in ids;
    }
    RankOne(t, key, w, k);
    forall j | j in t && key(t[j]) == Some(k) && j != w
      ensures RowNumber(t, key, j) > 1
    {
      assert Outranks(t, w, j);
      RankOne(t, key, j, k);
    }
  }

  ghost predicate NoDuplicates<K(!new)>(t: Table, key: Row -> Option<K>) {
    forall i, j | i in t && j in t && i != j :: key(t[i]).Some? ==> key(t[i]) != key(t[j])
  }

  lemma DeduplicationWorks<K(!new)>(t: Table, key: Row -> Option<K>, clear: Row -> Row)
    requires forall row :: key(clear(row)) == None
    ensures NoDuplicates(Deduplicated(t, key, clear), key)
  {
    var t' := Deduplicated(t, key, clear);
    forall i, j | i in t' && j in t' && i != j && key(t'[i]).Some?
      ensures key(t'[i]) != key(t'[j])
    {
      assert t'[i] == t[i];
      var w := OneRowPerKey(t, key, clear, i, key(t[i]).value);
    }
  }

  lemma NothingToClear<K(!new)>(t: Table, key: Row -> Option<K>, clear: Row -> Row)
    requires NoDuplicates(t, key)
    ensures Deduplicated(t, key, clear) == t
  {
    forall i | i in t && key(t[i]).Some?
      ensures RowNumber(t, key, i) == 1
    {
      RankOne(t, key, i, key(t[i]).value);
    }
  }

  // ------------------------------------------------------- the three updates

  lemma EachRow<K>(t: Table, key: Row -> Option<K>, clear: Row -> Row)
    ensures var t' := Deduplicated(t, key, clear);
            t'.Keys == t.Keys && forall i | i in t :: t'[i] == t[i] || (key(t[i]).Some? && t'[i] == clear(t[i]))
  {
    hide RowNumber;
  }

  /** The columns each update leaves alone. */
  lemma SameColumns(t: Table)
    ensures var noIds := Deduplicated(t, PaymentIdOf, ClearPaymentId);
            var noTokens := Deduplicated(noIds, PaymentTokenOf, ClearPaymentToken);
            && noIds.Keys == noTokens.Keys == Migrated(t).Keys == t.Keys
            && forall i | i in t ::
                 && noIds[i].ts == noTokens[i].ts == t[i].ts
                 && PaymentIdOf(Migrated(t)[i]) == PaymentIdOf(noIds[i])
                 && PaymentTokenOf(noIds[i]) == PaymentTokenOf(t[i])
                 && PaymentTokenOf(Migrated(t)[i]) == PaymentTokenOf(noTokens[i])
                 && VerifiedGroupOf(noTokens[i]) == VerifiedGroupOf(t[i])
  {
    hide Deduplicated;
    var noIds := Deduplicated(t, PaymentIdOf, ClearPaymentId);
    var noTokens := Deduplicated(noIds, PaymentTokenOf, ClearPaymentToken);
    EachRow(t, PaymentIdOf, ClearPaymentId);
    EachRow(noIds, PaymentTokenOf, ClearPaymentToken);
    EachRow(noTokens, VerifiedGroupOf, Downgrade);
    var done := Migrated(t);
    forall i | i in t
      ensures noIds[i].ts == noTokens[i].ts == t[i].ts
      ensures PaymentIdOf(done[i]) == PaymentIdOf(noIds[i])
      ensures PaymentTokenOf(noIds[i]) == PaymentTokenOf(t[i])
      ensures PaymentTokenOf(done[i]) == PaymentTokenOf(noTokens[i])
      ensures VerifiedGroupOf(noTokens[i]) == VerifiedGroupOf(t[i])
    {
      assert noIds[i] == t[i] || noIds[i] == ClearPaymentId(t[i]);
      assert noTokens[i] == noIds[i] || noTokens[i] == ClearPaymentToken(noIds[i]);
      assert done[i] == noTokens[i] || done[i] == Downgrade(noTokens[i]);
    }
  }

  lemma MigrationIsUnique(t: Table)
    ensures Unique(Migrated(t))
  {
    var noIds := Deduplicated(t, PaymentIdOf, ClearPaymentId);
    var noTokens := Deduplicated(noIds, PaymentTokenOf, ClearPaymentToken);
    DeduplicationWorks(t, PaymentIdOf, ClearPaymentId);
    DeduplicationWorks(noIds, PaymentTokenOf, ClearPaymentToken);
    DeduplicationWorks(noTokens, VerifiedGroupOf, Downgrade);
    SameColumns(t);
    UniqueByKeys(Migrated(t), noIds, noTokens);
    hide Deduplicated, Unique;
  }

  lemma UniqueByKeys(t: Table, ids: Table, tokens: Table)
    requires ids.Keys == tokens.Keys == t.Keys
    requires forall i | i in t :: 
               PaymentIdOf(t[i]) == PaymentIdOf(ids[i]) && PaymentTokenOf(t[i]) == PaymentTokenOf(tokens[i])
    requires NoDuplicates(ids, PaymentIdOf) && NoDuplicates(tokens, PaymentTokenOf) && NoDuplicates(t, VerifiedGroupOf)
    ensures Unique(t)
  {
    forall i, j | i in t && j in t && i != j
      ensures t[i].paymentId.Some? ==> t[i].paymentId != t[j].paymentId
      ensures t[i].paymentToken.Some? ==> t[i].paymentToken != t[j].paymentToken
      ensures !(t[i].status == Verified && t[j].status == Verified
                && t[i].virtualKey == t[j].virtualKey && t[i].hash == t[j].hash)
    {
      assert VerifiedGroupOf(t[i]).Some? ==> VerifiedGroupOf(t[i]) != VerifiedGroupOf(t[j]);
    }
  }

  /** No row is lost, and of a row only duplicated values are cleared. */
  lemma MigrationKeepsRows(t: Table)
    ensures Migrated(t).Keys == t.Keys
    ensures forall i | i in t ::
              var row := Migrated(t)[i];
              && (row.paymentId == t[i].paymentId || row.paymentId == None)
              && (row.paymentToken == t[i].paymentToken || row.paymentToken == None)
              && (row.status == t[i].status || (t[i].status == Verified && row.status == Failed))
              && row == t[i].(status := row.status, paymentId := row.paymentId, paymentToken := row.paymentToken)
  {
    hide Deduplicated;
    var noIds := Deduplicated(t, PaymentIdOf, ClearPaymentId);
    var noTokens := Deduplicated(noIds, PaymentTokenOf, ClearPaymentToken);
    EachRow(t, PaymentIdOf, ClearPaymentId);
    EachRow(noIds, PaymentTokenOf, ClearPaymentToken);
    EachRow(noTokens, VerifiedGroupOf, Downgrade);
  }

  /** Every payment id survives, on the greatest of the rows that carried it and nowhere else. */
  lemma MigrationKeepsPaymentIds(t: Table, i: Id, p: string) returns (w: Id)
    requires i in t && t[i].paymentId == Some(p)
    ensures w in t && Greatest(t, PaymentIdOf, p, w)
    ensures t[w].paymentId == Some(p)
    ensures forall j | j in t && j != w && t[j].paymentId == Some(p) ::
              t[j].ts < t[w].ts || (t[j].ts == t[w].ts && j < w)
    ensures forall j | j in Migrated(t) :: Migrated(t)[j].paymentId == Some(p) <==> j == w
  {
    SameColumns(t);
    w := OneRowPerKey(t, PaymentIdOf, ClearPaymentId, i, p);
    assert forall j | j in t && j != w && PaymentIdOf(t[j]) == Some(p) ::
        t[j].ts < t[w].ts || (t[j].ts == t[w].ts && j < w);
    var noIds := Deduplicated(t, PaymentIdOf, ClearPaymentId);
    hide Deduplicated, Migrated;
    assert forall j | j in Migrated(t) :: Migrated(t)[j].paymentId == PaymentIdOf(noIds[j]);
  }

  /** Every payment token survives, on the greatest of the rows that carried it and nowhere else. */
  lemma MigrationKeepsPaymentTokens(t: Table, i: Id, p: string) returns (w: Id)
    requires i in t && t[i].paymentToken == Some(p)
    ensures w in t && Greatest(t, PaymentTokenOf, p, w)
    ensures t[w].paymentToken == Some(p)
    ensures forall j | j in t && j != w && t[j].paymentToken == Some(p) ::
              t[j].ts < t[w].ts || (t[j].ts == t[w].ts && j < w)
    ensures forall j | j in Migrated(t) :: Migrated(t)[j].paymentToken == Some(p) <==> j == w
  {
    var noIds := Deduplicated(t, PaymentIdOf, ClearPaymentId);
    var noTokens := Deduplicated(noIds, PaymentTokenOf, ClearPaymentToken);
    SameColumns(t);
    w := OneRowPerKey(noIds, PaymentTokenOf, ClearPaymentToken, i, p);
    SameGreatest(t, noIds, PaymentTokenOf, p, w);
    hide Deduplicated, Greatest, Migrated;
    assert forall j | j in Migrated(t) :: Migrated(t)[j].paymentToken == PaymentTokenOf(noTokens[j]);
  }

  lemma SameGreatest<K>(t: Table, t': Table, key: Row -> Option<K>, k: K, w: Id)
    requires t.Keys == t'.Keys && forall i | i in t :: t[i].ts == t'[i].ts && key(t[i]) == key(t'[i])
    ensures Greatest(t, key, k, w) <==> Greatest(t', key, k, w)
  {
  }

  /** Every verified (key, hash) group keeps one verified row, its greatest. */
  lemma MigrationKeepsVerifiedGroups(t: Table, i: Id, virtualKey: nat, hash: Bytes) returns (w: Id)
    requires i in t && t[i].status == Verified && t[i].virtualKey == virtualKey && t[i].hash == hash
    ensures w in t && Greatest(t, VerifiedGroupOf, (virtualKey, hash), w)
    ensures t[w].status == Verified && t[w].virtualKey == virtualKey && t[w].hash == hash
    ensures forall j | j in t && j != w && t[j].status == Verified
                       && t[j].virtualKey == virtualKey && t[j].hash == hash ::
              t[j].ts < t[w].ts || (t[j].ts == t[w].ts && j < w)
    ensures forall j | j in Migrated(t) ::
              var row := Migrated(t)[j];
              (row.status == Verified && row.virtualKey == virtualKey && row.hash == hash) <==> j == w
  {
    var noIds := Deduplicated(t, PaymentIdOf, ClearPaymentId);
    var noTokens := Deduplicated(noIds, PaymentTokenOf, ClearPaymentToken);
    SameColumns(t);
    w := OneRowPerKey(noTokens, VerifiedGroupOf, Downgrade, i, (virtualKey, hash));
    SameGreatest(t, noTokens, VerifiedGroupOf, (virtualKey, hash), w);
    assert forall row: Row :: VerifiedGroupOf(row) == Some((virtualKey, hash))
                              <==> row.status == Verified && row.virtualKey == virtualKey && row.hash == hash;
    hide Deduplicated, Greatest;
  }

  function ProofOf(byToken: bool): Row -> Option<string> {
    if byToken then PaymentTokenOf else PaymentIdOf
  }

  /**
   * The newest row keeps a duplicated proof whatever its status, so the proof stays bound to a
   * verified intent exactly when that row is itself the greatest verified one of its group.
   */
  lemma BindingSurvivesExactly(t: Table, i: Id, byToken: bool, p: string) returns (w: Id)
    requires i in t && ProofOf(byToken)(t[i]) == Some(p)
    ensures w in t && Greatest(t, ProofOf(byToken), p, w)
    ensures FindsVerified(Migrated(t), byToken, p, None)
       <==> !(t[w].status == Verified && Greatest(t, VerifiedGroupOf, (t[w].virtualKey, t[w].hash), w))
  {
    hide Migrated, Deduplicated, Greatest;
    if byToken {
      w := MigrationKeepsPaymentTokens(t, i, p);
    } else {
      w := MigrationKeepsPaymentIds(t, i, p);
    }
    MigrationKeepsRows(t);
    var done := Migrated(t);
    assert ProofOf(byToken)(done[w]) == Some(p);
    assert CarriesVerified(done, w, byToken, p) <==> done[w].status == Verified;
    if t[w].status == Verified {
      var best := MigrationKeepsVerifiedGroups(t, w, t[w].virtualKey, t[w].hash);
      assert VerifiedGroupOf(done[w]).Some? <==> w == best;
      OneGreatest(t, VerifiedGroupOf, (t[w].virtualKey, t[w].hash), best, w);
    }
  }

  /** A newer row that was never verified takes the proof from a verified one, which is left without. */
  lemma NewerRowTakesBinding(a: Id, paid: Row, b: Id, newer: Row, byToken: bool, p: string)
    requires paid.status == Verified && newer.status != Verified
    requires a != b && (paid.ts < newer.ts || (paid.ts == newer.ts && a < b))
    requires ProofOf(byToken)(paid) == ProofOf(byToken)(newer) == Some(p)
    ensures var t := map[a := paid, b := newer];
            && CarriesVerified(t, a, byToken, p)
            && FindsVerified(Migrated(t), byToken, p, None)
  {
    var t := map[a := paid, b := newer];
    assert t[a] == paid && t[b] == newer;
    var w := BindingSurvivesExactly(t, a, byToken, p);
    assert Greatest(t, ProofOf(byToken), p, b);
    OneGreatest(t, ProofOf(byToken), p, w, b);
    hide Migrated, Deduplicated;
  }

  lemma OneGreatest<K>(t: Table, key: Row -> Option<K>, k: K, v: Id, w: Id)
    requires Greatest(t, key, k, v)
    ensures Greatest(t, key, k, w) <==> v == w
  {
  }

  /** A table that already satisfies the indexes is left alone, so running the migration twice is safe. */
  lemma MigrationIdempotent(t: Table)
    ensures Unique(t) ==> Migrated(t) == t
    ensures Migrated(Migrated(t)) == Migrated(t)
  {
    UniqueIsFixed(Migrated(t));
    MigrationIsUnique(t);
    UniqueIsFixed(t);
  }

  lemma UniqueIsFixed(t: Table)
    ensures Unique(t) ==> Migrated(t) == t
  {
    if Unique(t) {
      assert NoDuplicates(t, PaymentIdOf) && NoDuplicates(t, PaymentTokenOf) && NoDuplicates(t, VerifiedGroupOf);
      NothingToClear(t, PaymentIdOf, ClearPaymentId);
      NothingToClear(t, PaymentTokenOf, ClearPaymentToken);
      NothingToClear(t, VerifiedGroupOf, Downgrade);
    }
  }
}
