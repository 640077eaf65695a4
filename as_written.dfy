/**
 * The change check of productGetter.js:174-193 as it is written. It reads
 * the ten columns from the result of `SELECT COUNT(*) AS count ... WHERE
 * sku = ?`. That result always has exactly one row, whose only column is
 * `count`. So `results.length > 0` always holds, every column the check
 * reads is `undefined`, and every comparison with `!==` is true. The rest
 * of the model uses the evidently intended check, `CatalogStore.HasChanged`,
 * which compares against the stored row.
 */
module AsWritten {
  import opened Results
  import opened Normalizer
  import opened CatalogStore
  import opened Reconciler

  /** A column value as JavaScript reads it from a result row; a column the row lacks reads as `undefined`. */
  datatype JsValue = Undefined | Str(s: string) | Num(n: int) | JsonList(items: seq<string>)

  /** The single row that SELECT COUNT(*) AS count FROM shopifyapi WHERE sku = ? returns. */
  function CountRow(t: Table, sku: string): map<string, JsValue> {
    map["count" := Num(if sku in t.rows then 1 else 0)]
  }

  /** `row.name` on a result row. */
  function Column(row: map<string, JsValue>, name: string): JsValue {
    if name in row then row[name] else Undefined
  }

  /** The check of productGetter.js:182-191, applied to whatever row `results[0]` is. */
  predicate HasChangedAsWritten(dbProduct: map<string, JsValue>, rec: CatalogRow) {
    || Column(dbProduct, "title") != Str(rec.title)
    || Column(dbProduct, "description") != Str(rec.description)
    || Column(dbProduct, "imageSrc") != JsonList(rec.imageSrc)
    || Column(dbProduct, "prices") != Str(rec.prices)
    || Column(dbProduct, "quantity") != Num(rec.quantity)
    || Column(dbProduct, "size") != JsonList(rec.size)
    || Column(dbProduct, "color") != JsonList(rec.color)
    || Column(dbProduct, "material") != JsonList(rec.material)
    || Column(dbProduct, "Category") != Str(rec.category)
    || Column(dbProduct, "status") != Str(rec.status)
  }

  /** The loop body as written: the UPDATE is issued whenever the check says so, then the insert if the SKU is absent. */
  function ApplyRecordAsWritten(t: Table, rec: CatalogRow): Table {
    var afterUpdate := if HasChangedAsWritten(CountRow(t, rec.sku), rec) then UpdateWhere(t, rec) else t;
    if rec.sku in afterUpdate.rows then afterUpdate else Insert(afterUpdate, rec)
  }

  /** The writes the loop body as written issues for `rec`. */
  function RecordWritesAsWritten(t: Table, rec: CatalogRow): seq<Write> {
    (if HasChangedAsWritten(CountRow(t, rec.sku), rec) then [UpdateStatement(rec.sku)] else [])
    + (if rec.sku in t.rows then [] else [InsertStatement(rec.sku)])
  }

  /** Read against the COUNT row, the check reports a change for every record, whatever the table holds. */
  lemma AlwaysChanged(t: Table, rec: CatalogRow)
    ensures HasChangedAsWritten(CountRow(t, rec.sku), rec)
  {
    assert "title" != "count";
    assert Column(CountRow(t, rec.sku), "title") == Undefined;
  }

  /**
   * Every record as written issues an UPDATE, and a record whose SKU is
   * absent issues an UPDATE that matches no row and then the INSERT.
   */
  lemma UpdateForEveryRecord(t: Table, rec: CatalogRow)
    ensures RecordWritesAsWritten(t, rec) ==
      [UpdateStatement(rec.sku)] + (if rec.sku in t.rows then [] else [InsertStatement(rec.sku)])
  {
    AlwaysChanged(t, rec);
  }

  /** The defect costs writes, not contents: the table the loop body leaves is the one the intended check leaves. */
  lemma SameTable(t: Table, rec: CatalogRow)
    requires WellFormed(t)
    ensures ApplyRecordAsWritten(t, rec) == ApplyRecord(t, rec)
  {
    AlwaysChanged(t, rec);
    if rec.sku in t.rows && !HasChanged(t.rows[rec.sku], rec) {
      UnchangedIffUpdateIsIdle(t.rows[rec.sku], rec);
      assert UpdateWhere(t, rec).rows == t.rows;
    }
  }

  /**
   * The input that shows it: a table that already stores the record
   * unchanged. The intended check issues no write; as written, the run
   * still sends an UPDATE for it.
   */
  lemma StoredRowStillUpdated(r: CatalogRow)
    ensures var t := Table([r.sku], map[r.sku := r]);
      && WellFormed(t)
      && !HasChanged(r, r)
      && RecordWrites(t, r) == []
      && RecordWritesAsWritten(t, r) == [UpdateStatement(r.sku)]
  {
    var t := Table([r.sku], map[r.sku := r]);
    UpdateForEveryRecord(t, r);
  }
}
