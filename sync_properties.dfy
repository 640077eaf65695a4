/**
 * What a synchronisation run guarantees about the `shopifyapi` table: the
 * loop seen as the sequence of normalised records it syncs, the row each
 * SKU ends up with, the SKU set after a successful run, and that a second
 * run over the same catalog changes nothing.
 */
module SyncProperties {
  import opened Results
  import opened OrderedSets
  import opened RemoteCatalog
  import opened Normalizer
  import opened CatalogStore
  import opened Reconciler

  /** The records of `rs` from index `i` up to the first failure, which the loop syncs. */
  function Rows(rs: seq<Result<CatalogRow, ProductError>>, i: nat): seq<CatalogRow>
    requires i <= |rs|
    decreases |rs| - i
  {
    if i == |rs| then []
    else match rs[i]
      case Failure(_) => []
      case Success(row) => [row] + Rows(rs, i + 1)
  }

  /** The table after the loop body has run for each of `recs`, in order. */
  function ApplyAll(t: Table, recs: seq<CatalogRow>): Table
    decreases |recs|
  {
    if recs == [] then t else ApplyAll(ApplyRecord(t, recs[0]), recs[1..])
  }

  /** The writes those loop iterations issue, in order. */
  function WritesOf(t: Table, recs: seq<CatalogRow>): seq<Write>
    decreases |recs|
  {
    if recs == [] then [] else RecordWrites(t, recs[0]) + WritesOf(ApplyRecord(t, recs[0]), recs[1..])
  }

  /** The SKUs of `recs`, in order. */
  function Skus(recs: seq<CatalogRow>): (s: seq<string>)
    ensures |s| == |recs| && forall j :: 0 <= j < |recs| ==> s[j] == recs[j].sku
  {
    if recs == [] then [] else [recs[0].sku] + Skus(recs[1..])
  }

  /** The first record of `recs` with SKU `k`. */
  function FirstWith(recs: seq<CatalogRow>, k: string): CatalogRow
    requires k in Skus(recs)
  {
    if recs[0].sku == k then recs[0] else FirstWith(recs[1..], k)
  }

  /** The last record of `recs` with SKU `k`. */
  function LastWith(recs: seq<CatalogRow>, k: string): CatalogRow
    requires k in Skus(recs)
  {
    if recs[0].sku == k && k !in Skus(recs[1..]) then recs[0] else LastWith(recs[1..], k)
  }

  /** The row the loop body leaves under the SKU of `rec`, given the row stored there before, if any. */
  function Step(stored: Option<CatalogRow>, rec: CatalogRow): CatalogRow {
    if stored.Some? then Updated(stored.value, rec) else rec
  }

  /** The row that `recs` leave under SKU `k`, one record at a time, starting from `o`. */
  function Settle(o: Option<CatalogRow>, recs: seq<CatalogRow>, k: string): Option<CatalogRow>
    decreases |recs|
  {
    if recs == [] then o
    else Settle(if recs[0].sku == k then Some(Step(o, recs[0])) else o, recs[1..], k)
  }

  /** The loop is the sequence of records it syncs: its table and writes are those of `Rows`. */
  lemma {:induction false} LoopIsRecords(t: Table, rs: seq<Result<CatalogRow, ProductError>>, i: nat)
    requires i <= |rs|
    ensures SyncFrom(t, rs, i).table == ApplyAll(t, Rows(rs, i))
    ensures SyncFrom(t, rs, i).writes == WritesOf(t, Rows(rs, i))
    decreases |rs| - i
  {
    if i < |rs| {
      match rs[i]
      case Failure(_) =>
      case Success(row) =>
        LoopIsRecords(ApplyRecord(t, row), rs, i + 1);
        assert ([row] + Rows(rs, i + 1))[1..] == Rows(rs, i + 1);
    }
  }

  /** `Rows` holds the records of `rs` from `i` on, and stops at the first failure. */
  lemma {:induction false} RowsSpec(rs: seq<Result<CatalogRow, ProductError>>, i: nat)
    requires i <= |rs|
    ensures i + |Rows(rs, i)| <= |rs|
    ensures forall m :: 0 <= m < |Rows(rs, i)| ==> rs[i + m] == Success(Rows(rs, i)[m])
    ensures i + |Rows(rs, i)| < |rs| ==> rs[i + |Rows(rs, i)|].Failure?
    decreases |rs| - i
  {
    if i < |rs| && rs[i].Success? {
      RowsSpec(rs, i + 1);
      var rest := Rows(rs, i + 1);
      assert Rows(rs, i) == [rs[i].value] + rest;
      forall m | 0 <= m < |rest| + 1
        ensures rs[i + m] == Success(Rows(rs, i)[m])
      {
        if m > 0 {
          assert Rows(rs, i)[m] == rest[m - 1];
        }
      }
    }
  }

  /** The loop stops at the first failure from `i` on, with its index and error, and fails only if there is one. */
  lemma {:induction false} LoopStops(t: Table, rs: seq<Result<CatalogRow, ProductError>>, i: nat)
    requires i <= |rs|
    ensures var stop := i + |Rows(rs, i)|;
      if stop < |rs| then rs[stop].Failure? && SyncFrom(t, rs, i).failure == Some(RecordFailed(stop, rs[stop].error))
      else SyncFrom(t, rs, i).failure == None
    decreases |rs| - i
  {
    if i < |rs| && rs[i].Success? {
      var row := rs[i].value;
      LoopStops(ApplyRecord(t, row), rs, i + 1);
      assert |Rows(rs, i)| == 1 + |Rows(rs, i + 1)|;
    }
  }

  /**
   * One loop iteration on a well-formed table (productGetter.js:174-239):
   * the record's SKU ends up stored, with the ten columns rewritten when it
   * was stored and the whole record when it was not; every other row stays
   * as it is, and a new SKU is stored after the existing ones.
   */
  lemma ApplyRecordSpec(t: Table, rec: CatalogRow)
    requires WellFormed(t)
    ensures var r := ApplyRecord(t, rec);
      && WellFormed(r)
      && r.rows.Keys == t.rows.Keys + {rec.sku}
      && r.rows[rec.sku] == Step(Lookup(t, rec.sku), rec)
      && (forall k :: k in t.rows && k != rec.sku ==> r.rows[k] == t.rows[k])
      && r.order == if rec.sku in t.rows then t.order else t.order + [rec.sku]
  {
    if rec.sku in t.rows {
      UnchangedIffUpdateIsIdle(t.rows[rec.sku], rec);
      UpdateWhereSpec(t, rec);
    } else {
      InsertSpec(t, rec);
    }
  }

  /**
   * An iteration issues no write exactly when it leaves the table as it is:
   * an unchanged stored row is neither updated nor inserted again, and every
   * UPDATE or INSERT it issues does change the table.
   */
  lemma QuietIffIdle(t: Table, rec: CatalogRow)
    requires WellFormed(t)
    ensures RecordWrites(t, rec) == [] <==> ApplyRecord(t, rec) == t
    ensures |RecordWrites(t, rec)| <= 1
  {
    ApplyRecordSpec(t, rec);
    if rec.sku in t.rows {
      UnchangedIffUpdateIsIdle(t.rows[rec.sku], rec);
      if HasChanged(t.rows[rec.sku], rec) {
        assert ApplyRecord(t, rec).rows[rec.sku] != t.rows[rec.sku];
      }
    } else {
      assert rec.sku in ApplyRecord(t, rec).rows;
    }
  }

  /**
   * The loop on a well-formed table keeps it well formed and leaves under
   * each SKU `k` the row that the records with SKU `k` settle on.
   */
  lemma {:induction false} ApplyAllSpec(t: Table, recs: seq<CatalogRow>, k: string)
    requires WellFormed(t)
    ensures WellFormed(ApplyAll(t, recs))
    ensures Lookup(ApplyAll(t, recs), k) == Settle(Lookup(t, k), recs, k)
    decreases |recs|
  {
    if recs != [] {
      ApplyRecordSpec(t, recs[0]);
      ApplyAllSpec(ApplyRecord(t, recs[0]), recs[1..], k);
    }
  }

  /** The loop keeps the stored SKUs in their places; new SKUs come after them. */
  lemma {:induction false} ApplyAllOrder(t: Table, recs: seq<CatalogRow>)
    requires WellFormed(t)
    ensures |t.order| <= |ApplyAll(t, recs).order|
    ensures forall j :: 0 <= j < |t.order| ==> ApplyAll(t, recs).order[j] == t.order[j]
    decreases |recs|
  {
    if recs != [] {
      ApplyRecordSpec(t, recs[0]);
      ApplyAllOrder(ApplyRecord(t, recs[0]), recs[1..]);
    }
  }

  /**
   * The row a SKU settles on: untouched when no record carries it;
   * otherwise the ten columns of its last record over the row stored before,
   * or, for a SKU that was not stored, over its first record, whose `sku`
   * and `url` it keeps.
   */
  lemma {:induction false} SettleSpec(o: Option<CatalogRow>, recs: seq<CatalogRow>, k: string)
    ensures k !in Skus(recs) ==> Settle(o, recs, k) == o
    ensures k in Skus(recs) ==>
      Settle(o, recs, k) == Some(Updated(if o.Some? then o.value else FirstWith(recs, k), LastWith(recs, k)))
    decreases |recs|
  {
    if recs != [] {
      var r, rest := recs[0], recs[1..];
      assert Skus(recs) == [r.sku] + Skus(rest);
      if r.sku == k {
        var o' := Some(Step(o, r));
        SettleSpec(o', rest, k);
        if k in Skus(rest) {
          if o.Some? {
            UpdatedTwice(o.value, r, LastWith(rest, k));
          }
        }
      } else {
        SettleSpec(o, rest, k);
      }
    }
  }

  /** Settling twice on the same records is settling once. */
  lemma SettleIdempotent(o: Option<CatalogRow>, recs: seq<CatalogRow>, k: string)
    ensures Settle(Settle(o, recs, k), recs, k) == Settle(o, recs, k)
  {
    SettleSpec(o, recs, k);
    SettleSpec(Settle(o, recs, k), recs, k);
    if k in Skus(recs) {
      var origin := if o.Some? then o.value else FirstWith(recs, k);
      UpdatedTwice(origin, LastWith(recs, k), LastWith(recs, k));
    }
  }

  /** When every SKU is used once, the first and the last record with a SKU are the one record with it. */
  lemma {:induction false} OnlyRecordWith(recs: seq<CatalogRow>, j: nat)
    requires NoDup(Skus(recs)) && j < |recs|
    ensures FirstWith(recs, recs[j].sku) == recs[j] && LastWith(recs, recs[j].sku) == recs[j]
    decreases |recs|
  {
    var rest := recs[1..];
    assert Skus(recs) == [recs[0].sku] + Skus(rest);
    assert NoDup(Skus(rest)) by {
      forall a, b | 0 <= a < b < |Skus(rest)| ensures Skus(rest)[a] != Skus(rest)[b] {
        assert Skus(rest)[a] == Skus(recs)[a + 1] && Skus(rest)[b] == Skus(recs)[b + 1];
      }
    }
    if j == 0 {
      assert recs[0].sku !in Skus(rest) by {
        forall a | 0 <= a < |Skus(rest)| ensures Skus(rest)[a] != recs[0].sku {
          assert Skus(rest)[a] == Skus(recs)[a + 1];
        }
      }
    } else {
      assert recs[j] == rest[j - 1];
      assert recs[0].sku != recs[j].sku by {
        assert Skus(recs)[0] == recs[0].sku && Skus(recs)[j] == recs[j].sku;
      }
      OnlyRecordWith(rest, j - 1);
    }
  }

  /** Two well-formed tables that store the same row under every SKU hold the same rows. */
  lemma SameRows(a: Table, b: Table)
    requires forall k :: Lookup(a, k) == Lookup(b, k)
    ensures a.rows == b.rows
  {
    assert a.rows.Keys == b.rows.Keys by {
      forall k ensures k in a.rows <==> k in b.rows {
        assert Lookup(a, k).Some? == Lookup(b, k).Some?;
      }
    }
    forall k | k in a.rows ensures a.rows[k] == b.rows[k] {
      assert Lookup(a, k) == Lookup(b, k);
    }
  }

  /** Records whose SKUs are all stored already add no row and leave the table order as it is. */
  lemma {:induction false} ApplyAllStoredOrder(t: Table, recs: seq<CatalogRow>)
    requires WellFormed(t) && forall j :: 0 <= j < |recs| ==> recs[j].sku in t.rows
    ensures ApplyAll(t, recs).order == t.order && ApplyAll(t, recs).rows.Keys == t.rows.Keys
    decreases |recs|
  {
    if recs != [] {
      ApplyRecordSpec(t, recs[0]);
      ApplyAllStoredOrder(ApplyRecord(t, recs[0]), recs[1..]);
    }
  }

  /** After the loop every record's SKU is stored, in addition to the SKUs stored before. */
  lemma ApplyAllKeys(t: Table, recs: seq<CatalogRow>)
    requires WellFormed(t)
    ensures forall k :: k in ApplyAll(t, recs).rows <==> k in t.rows || k in Skus(recs)
  {
    forall k ensures k in ApplyAll(t, recs).rows <==> k in t.rows || k in Skus(recs) {
      ApplyAllSpec(t, recs, k);
      SettleSpec(Lookup(t, k), recs, k);
    }
  }

  /** Running the loop over the same records a second time leaves the table as the first time left it. */
  lemma ApplyAllIdempotent(t: Table, recs: seq<CatalogRow>)
    requires WellFormed(t)
    ensures ApplyAll(ApplyAll(t, recs), recs) == ApplyAll(t, recs)
  {
    var r1 := ApplyAll(t, recs);
    var r2 := ApplyAll(r1, recs);
    ApplyAllSpec(t, recs, "");
    ApplyAllKeys(t, recs);
    forall k ensures Lookup(r2, k) == Lookup(r1, k) {
      ApplyAllSpec(t, recs, k);
      ApplyAllSpec(r1, recs, k);
      SettleIdempotent(Lookup(t, k), recs, k);
    }
    SameRows(r2, r1);
    ApplyAllStoredOrder(r1, recs);
  }

  /** Records that all find their row stored and unchanged cause no write and no change. */
  lemma {:induction false} NoWritesWhenSettled(t: Table, recs: seq<CatalogRow>)
    requires forall j :: 0 <= j < |recs| ==> recs[j].sku in t.rows && !HasChanged(t.rows[recs[j].sku], recs[j])
    ensures ApplyAll(t, recs) == t && WritesOf(t, recs) == []
    decreases |recs|
  {
    if recs != [] {
      assert ApplyRecord(t, recs[0]) == t;
      NoWritesWhenSettled(t, recs[1..]);
    }
  }

  /** After the loop over records with distinct SKUs, each record finds its row stored and unchanged. */
  lemma SettledAfterLoop(t: Table, recs: seq<CatalogRow>)
    requires WellFormed(t) && NoDup(Skus(recs))
    ensures var r := ApplyAll(t, recs);
      forall j :: 0 <= j < |recs| ==> recs[j].sku in r.rows && !HasChanged(r.rows[recs[j].sku], recs[j])
  {
    var r := ApplyAll(t, recs);
    forall j | 0 <= j < |recs| ensures recs[j].sku in r.rows && !HasChanged(r.rows[recs[j].sku], recs[j]) {
      var k := recs[j].sku;
      assert Skus(recs)[j] == k;
      ApplyAllSpec(t, recs, k);
      SettleSpec(Lookup(t, k), recs, k);
      OnlyRecordWith(recs, j);
      UpdatedTwice(if k in t.rows then t.rows[k] else recs[j], recs[j], recs[j]);
    }
  }

  /**
   * `deletedSkus` (productGetter.js:128) holds exactly the stored SKUs that
   * are not remote, once each and in table order, and the DELETE is issued
   * exactly when there is one (productGetter.js:129).
   */
  lemma DeletedSkusSpec(t: Table, remote: seq<string>)
    requires WellFormed(t)
    ensures var deleted := DeletedSkus(t, remote);
      && (forall k :: k in deleted <==> k in t.rows && k !in remote)
      && NoDup(deleted) && InOrderOf(deleted, t.order)
      && (Deletes(t, remote) == [] <==> forall k :: k in t.rows ==> k in remote)
  {
    ExceptOrder(t.order, remote);
    var deleted := DeletedSkus(t, remote);
    if Deletes(t, remote) != [] {
      assert deleted[0] in deleted;
    }
  }

  /** The DELETE keeps exactly the stored rows whose SKU is remote, as they were. */
  lemma PrunedSpec(t: Table, remote: seq<string>)
    requires WellFormed(t)
    ensures var p := Pruned(t, remote);
      && WellFormed(p)
      && (forall k :: k in p.rows <==> k in t.rows && k in remote)
      && (forall k :: k in p.rows ==> p.rows[k] == t.rows[k])
  {
    var deleted := DeletedSkus(t, remote);
    DeletedSkusSpec(t, remote);
    DeleteWhereSpec(t, deleted);
    if |deleted| == 0 {
      forall k | k in t.rows ensures k in remote {
        assert k !in deleted;
      }
    }
  }

  /** What `Normalized` says about each product, in the terms of `Normalize`'s contract. */
  lemma NormalizedFacts(ps: seq<RemoteProduct>)
    ensures forall i :: 0 <= i < |ps| ==>
      && (Normalized(ps)[i].Success? <==> |ps[i].images| > 0 && |ps[i].variants| > 0)
      && (Normalized(ps)[i].Failure? ==> (Normalized(ps)[i].error == MissingImage <==> |ps[i].images| == 0))
      && (Normalized(ps)[i].Success? ==> Normalized(ps)[i].value.sku == ps[i].variants[0].sku)
  {
    forall i | 0 <= i < |ps|
      ensures Normalized(ps)[i] == Normalize(ps[i])
      ensures Normalized(ps)[i].Success? ==> Normalized(ps)[i].value.sku == ps[i].variants[0].sku
    {
      NormalizedAt(ps, i);
      if Normalize(ps[i]).Success? {
        NormalizeFields(ps[i]);
      }
    }
  }

  /** When every product normalises, the synced records are the normalised products. */
  lemma RecordsAre(rs: seq<Result<CatalogRow, ProductError>>)
    requires |Rows(rs, 0)| == |rs|
    ensures forall i :: 0 <= i < |rs| ==> rs[i] == Success(Rows(rs, 0)[i])
  {
    RowsSpec(rs, 0);
    forall i | 0 <= i < |rs| ensures rs[i] == Success(Rows(rs, 0)[i]) {
      assert rs[0 + i] == Success(Rows(rs, 0)[i]);
    }
  }

  /** When every product normalises, the synced records carry the remote SKUs, in order. */
  lemma RecordSkus(ps: seq<RemoteProduct>)
    requires RemoteSkus(ps).Success? && |Rows(Normalized(ps), 0)| == |ps|
    ensures Skus(Rows(Normalized(ps), 0)) == RemoteSkus(ps).value
  {
    RecordsAre(Normalized(ps));
    NormalizedFacts(ps);
  }

  /** A successful run syncs the normalised record of every product, after the DELETE. */
  lemma SuccessfulRun(t: Table, ps: seq<RemoteProduct>)
    requires Reconcile(t, ps).result.Success?
    ensures RemoteSkus(ps).Success? && |Rows(Normalized(ps), 0)| == |ps|
    ensures Reconcile(t, ps).table == ApplyAll(Pruned(t, RemoteSkus(ps).value), Rows(Normalized(ps), 0))
  {
    var base := Pruned(t, RemoteSkus(ps).value);
    LoopIsRecords(base, Normalized(ps), 0);
    LoopStops(base, Normalized(ps), 0);
    RowsSpec(Normalized(ps), 0);
  }

  /**
   * After a successful run (productGetter.js:128-240) the table is well
   * formed and stores exactly the remote first-variant SKUs.
   */
  lemma EndState(t: Table, ps: seq<RemoteProduct>)
    requires WellFormed(t) && Reconcile(t, ps).result.Success?
    ensures WellFormed(Reconcile(t, ps).table)
    ensures forall k :: k in Reconcile(t, ps).table.rows <==> k in RemoteSkus(ps).value
  {
    var remote := RemoteSkus(ps).value;
    var base := Pruned(t, remote);
    PrunedSpec(t, remote);
    SuccessfulRun(t, ps);
    RecordSkus(ps);
    var recs := Rows(Normalized(ps), 0);
    ApplyAllKeys(base, recs);
    ApplyAllSpec(base, recs, "");
  }

  /**
   * After a successful run over products with distinct first-variant SKUs,
   * the row of each product's SKU is its normalised record: its ten columns
   * over the row stored before, which keeps its `url` (productGetter.js:
   * 194-208), or the whole record with all twelve columns when the SKU was
   * not stored (productGetter.js:218-239).
   */
  lemma RowAfterRun(t: Table, ps: seq<RemoteProduct>, i: nat)
    requires WellFormed(t) && Reconcile(t, ps).result.Success?
    requires NoDup(RemoteSkus(ps).value) && i < |ps|
    ensures Normalize(ps[i]).Success?
    ensures var k := ps[i].variants[0].sku; var rec := Normalize(ps[i]).value;
      && k in Reconcile(t, ps).table.rows
      && Reconcile(t, ps).table.rows[k] == if k in t.rows then Updated(t.rows[k], rec) else rec
  {
    var remote := RemoteSkus(ps).value;
    var base := Pruned(t, remote);
    SuccessfulRun(t, ps);
    RecordSkus(ps);
    RecordsAre(Normalized(ps));
    NormalizedAt(ps, i);
    var recs := Rows(Normalized(ps), 0);
    var k := remote[i];
    PrunedSpec(t, remote);
    assert Skus(recs)[i] == k;
    ApplyAllSpec(base, recs, k);
    SettleSpec(Lookup(base, k), recs, k);
    OnlyRecordWith(recs, i);
    assert k in remote;
  }

  /**
   * A second run over the same catalog leaves the table as the first left
   * it and ends the same way, whether the first run succeeded or stopped at
   * a product without variants or images. When the first-variant SKUs are
   * distinct it issues no write at all.
   */
  lemma Idempotent(t: Table, ps: seq<RemoteProduct>)
    requires WellFormed(t)
    ensures var first := Reconcile(t, ps); var second := Reconcile(first.table, ps);
      && second.table == first.table && second.result == first.result
      && (RemoteSkus(ps).Failure? || NoDup(RemoteSkus(ps).value) ==> second.writes == [])
  {
    if RemoteSkus(ps).Success? {
      SecondRunTable(t, ps);
      SecondRunResult(t, ps);
      if NoDup(RemoteSkus(ps).value) {
        SecondRunQuiet(t, ps);
      }
    }
  }

  /** The second run leaves the table as the first left it. */
  lemma SecondRunTable(t: Table, ps: seq<RemoteProduct>)
    requires WellFormed(t) && RemoteSkus(ps).Success?
    ensures var r1 := Reconcile(t, ps).table; Reconcile(r1, ps).table == r1
  {
    var remote := RemoteSkus(ps).value;
    var rs := Normalized(ps);
    var base := Pruned(t, remote);
    var r1 := Reconcile(t, ps).table;
    SecondRunPrunesNothing(t, ps);
    LoopIsRecords(r1, rs, 0);
    PrunedSpec(t, remote);
    ApplyAllIdempotent(base, Rows(rs, 0));
  }

  /** The second run ends as the first did: both loops stop at the same product, or neither does. */
  lemma SecondRunResult(t: Table, ps: seq<RemoteProduct>)
    requires WellFormed(t) && RemoteSkus(ps).Success?
    ensures var r1 := Reconcile(t, ps).table; Reconcile(r1, ps).result == Reconcile(t, ps).result
  {
    var remote := RemoteSkus(ps).value;
    var rs := Normalized(ps);
    var r1 := Reconcile(t, ps).table;
    SecondRunPrunesNothing(t, ps);
    LoopStops(r1, rs, 0);
    LoopStops(Pruned(t, remote), rs, 0);
  }

  /** With distinct first-variant SKUs the second run finds every row stored and unchanged, and writes nothing. */
  lemma SecondRunQuiet(t: Table, ps: seq<RemoteProduct>)
    requires WellFormed(t) && RemoteSkus(ps).Success? && NoDup(RemoteSkus(ps).value)
    ensures var r1 := Reconcile(t, ps).table; Reconcile(r1, ps).writes == []
  {
    var remote := RemoteSkus(ps).value;
    var rs := Normalized(ps);
    var base := Pruned(t, remote);
    var recs := Rows(rs, 0);
    var r1 := Reconcile(t, ps).table;
    SecondRunPrunesNothing(t, ps);
    LoopIsRecords(r1, rs, 0);
    PrunedSpec(t, remote);
    RecordSkusPrefix(ps);
    SettledAfterLoop(base, recs);
    NoWritesWhenSettled(r1, recs);
  }

  /**
   * After a first run that got past the SKU extraction, every stored SKU is
   * remote: the table is well formed and the second run's DELETE is not
   * issued.
   */
  lemma SecondRunPrunesNothing(t: Table, ps: seq<RemoteProduct>)
    requires WellFormed(t) && RemoteSkus(ps).Success?
    ensures var remote := RemoteSkus(ps).value; var r1 := Reconcile(t, ps).table;
      && r1 == ApplyAll(Pruned(t, remote), Rows(Normalized(ps), 0))
      && WellFormed(r1)
      && (forall k :: k in r1.rows ==> k in remote)
      && Pruned(r1, remote) == r1 && Deletes(r1, remote) == []
  {
    var remote := RemoteSkus(ps).value;
    var base := Pruned(t, remote);
    var recs := Rows(Normalized(ps), 0);
    LoopIsRecords(base, Normalized(ps), 0);
    var r1 := Reconcile(t, ps).table;
    PrunedSpec(t, remote);
    RecordSkusPrefix(ps);
    ApplyAllKeys(base, recs);
    ApplyAllSpec(base, recs, "");
    DeletedSkusSpec(r1, remote);
  }

  /**
   * The synced records carry the remote first-variant SKUs of the products
   * they come from, so they follow the remote SKU list as a prefix.
   */
  lemma RecordSkusPrefix(ps: seq<RemoteProduct>)
    requires RemoteSkus(ps).Success?
    ensures var recs := Rows(Normalized(ps), 0); var remote := RemoteSkus(ps).value;
      && |recs| <= |remote|
      && (forall j :: 0 <= j < |recs| ==> Skus(recs)[j] == remote[j])
      && (forall k :: k in Skus(recs) ==> k in remote)
      && (NoDup(remote) ==> NoDup(Skus(recs)))
  {
    RecordSkuAt(ps);
  }

  /** Each synced record's SKU is the remote SKU at its index. */
  lemma RecordSkuAt(ps: seq<RemoteProduct>)
    requires RemoteSkus(ps).Success?
    ensures |Rows(Normalized(ps), 0)| <= |ps|
    ensures forall j :: 0 <= j < |Rows(Normalized(ps), 0)| ==> Rows(Normalized(ps), 0)[j].sku == RemoteSkus(ps).value[j]
  {
    var rs := Normalized(ps);
    var recs := Rows(rs, 0);
    RowsSpec(rs, 0);
    NormalizedFacts(ps);
    forall j | 0 <= j < |recs| ensures recs[j].sku == RemoteSkus(ps).value[j] {
      assert rs[0 + j] == Success(recs[j]);
    }
  }

  /**
   * Without distinct first-variant SKUs a second run can write: two
   * records with one SKU and different titles, synced into an empty table,
   * leave the second's columns; a second pass then rewrites the row to the
   * first record's columns and back again, with two UPDATEs.
   */
  lemma SharedSkuLoop(rs: seq<Result<CatalogRow, ProductError>>, a: CatalogRow, b: CatalogRow)
    requires rs == [Success(a), Success(b)] && a.sku == b.sku && a.title != b.title
    ensures var first := SyncFrom(Table([], map[]), rs, 0);
      && first == LoopResult(Table([a.sku], map[a.sku := Updated(a, b)]), [InsertStatement(a.sku), UpdateStatement(a.sku)], None)
      && SyncFrom(first.table, rs, 0) == LoopResult(first.table, [UpdateStatement(a.sku), UpdateStatement(a.sku)], None)
  {
    var empty := Table([], map[]);
    var k := a.sku;
    var t1 := ApplyRecord(empty, a);
    assert t1 == Table([k], map[k := a]);
    var r1 := ApplyRecord(t1, b);
    assert HasChanged(a, b);
    assert r1 == Table([k], map[k := Updated(a, b)]);
    assert SyncFrom(r1, rs, 2) == LoopResult(r1, [], None);
    assert SyncFrom(t1, rs, 1) == LoopResult(r1, [UpdateStatement(k)], None);
    assert HasChanged(Updated(a, b), a);
    UpdatedTwice(a, b, a);
    assert Updated(a, a) == a;
    assert ApplyRecord(r1, a) == t1;
  }

  /**
   * The same at the level of runs: a catalog of two products with one
   * first-variant SKU and different titles, synced into an empty table;
   * the second run, though it leaves the table as it is, issues two UPDATEs.
   */
  lemma SharedSkuRun(p: RemoteProduct, q: RemoteProduct)
    requires |p.images| > 0 && |p.variants| > 0 && |q.images| > 0 && |q.variants| > 0
    requires p.variants[0].sku == q.variants[0].sku && p.title != q.title
    ensures var first := Reconcile(Table([], map[]), [p, q]); var second := Reconcile(first.table, [p, q]);
      && first.result.Success? && second.table == first.table
      && second.writes == [UpdateStatement(p.variants[0].sku), UpdateStatement(p.variants[0].sku)]
  {
    var ps := [p, q];
    var empty := Table([], map[]);
    var k := p.variants[0].sku;
    var a, b := TwoProducts(p, q);
    SharedSkuLoop(Normalized(ps), a, b);
    ExceptNothing([]);
    assert Pruned(empty, [k, k]) == empty && Deletes(empty, [k, k]) == [];
    var r1 := Table([k], map[k := Updated(a, b)]);
    ExceptCovered([k], [k, k]);
    assert Pruned(r1, [k, k]) == r1 && Deletes(r1, [k, k]) == [];
  }

  /** Two products that both normalise, with one first-variant SKU and different titles: their records and SKU list. */
  lemma TwoProducts(p: RemoteProduct, q: RemoteProduct) returns (a: CatalogRow, b: CatalogRow)
    requires |p.images| > 0 && |p.variants| > 0 && |q.images| > 0 && |q.variants| > 0
    requires p.variants[0].sku == q.variants[0].sku && p.title != q.title
    ensures Normalized([p, q]) == [Success(a), Success(b)]
    ensures a.sku == b.sku == p.variants[0].sku && a.title != b.title
    ensures RemoteSkus([p, q]) == Success([p.variants[0].sku, p.variants[0].sku])
  {
    NormalizeFields(p);
    NormalizeFields(q);
    a, b := Normalize(p).value, Normalize(q).value;
    var ps := [p, q];
    assert Normalized(ps) == [Success(a), Success(b)];
    assert RemoteSkus(ps).Success?;
    assert RemoteSkus(ps).value == [p.variants[0].sku, p.variants[0].sku];
  }


  /**
   * A run that fails either stops at the first product without variants,
   * before any write, or, when all have variants, at the first product
   * without images, after syncing the products before it.
   */
  lemma FailedRun(t: Table, ps: seq<RemoteProduct>)
    requires WellFormed(t) && Reconcile(t, ps).result.Failure?
    ensures var o := Reconcile(t, ps); var e := o.result.error;
      && e.RecordFailed? && e.index < |ps|
      && (e.reason == MissingVariant ==>
            && |ps[e.index].variants| == 0 && (forall j :: 0 <= j < e.index ==> |ps[j].variants| > 0)
            && o.table == t && o.writes == [])
      && (e.reason == MissingImage ==>
            && RemoteSkus(ps).Success? && |ps[e.index].images| == 0
            && (forall j :: 0 <= j < e.index ==> |ps[j].images| > 0)
            && |Rows(Normalized(ps), 0)| == e.index
            && o.table == ApplyAll(Pruned(t, RemoteSkus(ps).value), Rows(Normalized(ps), 0)))
  {
    if RemoteSkus(ps).Success? {
      FailedLoop(Pruned(t, RemoteSkus(ps).value), ps);
    }
  }

  /** A loop that fails stops at the first product without images, after syncing the products before it. */
  lemma FailedLoop(t: Table, ps: seq<RemoteProduct>)
    requires RemoteSkus(ps).Success? && SyncFrom(t, Normalized(ps), 0).failure.Some?
    ensures var e := SyncFrom(t, Normalized(ps), 0).failure.value;
      && e == RecordFailed(|Rows(Normalized(ps), 0)|, MissingImage) && e.index < |ps|
      && |ps[e.index].images| == 0
      && (forall j :: 0 <= j < e.index ==> |ps[j].images| > 0)
      && SyncFrom(t, Normalized(ps), 0).table == ApplyAll(t, Rows(Normalized(ps), 0))
  {
    LoopFails(t, Normalized(ps));
    NormalizedFacts(ps);
  }

  /** A loop that fails does so at the first failure, after syncing the records before it. */
  lemma LoopFails(t: Table, rs: seq<Result<CatalogRow, ProductError>>)
    requires SyncFrom(t, rs, 0).failure.Some?
    ensures var stop := |Rows(rs, 0)|;
      && stop < |rs| && rs[stop].Failure?
      && SyncFrom(t, rs, 0).failure == Some(RecordFailed(stop, rs[stop].error))
      && (forall j :: 0 <= j < stop ==> rs[j].Success?)
      && SyncFrom(t, rs, 0).table == ApplyAll(t, Rows(rs, 0))
  {
    LoopStops(t, rs, 0);
    RowsSpec(rs, 0);
    LoopIsRecords(t, rs, 0);
    forall j | 0 <= j < |Rows(rs, 0)| ensures rs[j].Success? {
      assert rs[0 + j] == Success(Rows(rs, 0)[j]);
    }
  }

  /** An empty remote catalog deletes every stored row in one statement and writes nothing else. */
  lemma EmptyCatalog(t: Table)
    requires WellFormed(t)
    ensures Reconcile(t, []) == Outcome(Table([], map[]), if |t.order| > 0 then [DeleteStatement(t.order)] else [], Success([]))
  {
    assert RemoteSkus([]) == Success([]);
    PruneAll(t);
    assert Normalized([]) == [];
  }

  /** With no remote SKU the DELETE lists every stored SKU, and empties the table. */
  lemma PruneAll(t: Table)
    requires WellFormed(t)
    ensures Pruned(t, []) == Table([], map[])
    ensures Deletes(t, []) == if |t.order| > 0 then [DeleteStatement(t.order)] else []
  {
    ExceptNothing(t.order);
    if |t.order| > 0 {
      DeleteEverything(t);
    } else {
      assert t.order == [];
    }
  }

  /** Deleting every stored SKU empties the table. */
  lemma DeleteEverything(t: Table)
    requires WellFormed(t)
    ensures DeleteWhere(t, t.order) == Table([], map[])
  {
    ExceptCovered(t.order, t.order);
    assert DeleteWhere(t, t.order).rows == map[];
  }
}
