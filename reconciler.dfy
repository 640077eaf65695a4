/**
 * The synchronisation run `productGetter` (productGetter.js:116-252), with
 * its database statements issued one after another: fetch every page, take
 * each product's first-variant SKU, delete the stored rows whose SKU is no
 * longer remote, then for every product update its row if it changed and
 * insert it if its SKU is absent.
 */
module Reconciler {
  import opened Results
  import opened OrderedSets
  import opened RemoteCatalog
  import opened Pagination
  import opened Normalizer
  import opened CatalogStore

  /** Why a run stops: the fetch throws, or a product lacks the image or variant read at index 0. */
  datatype SyncError = FetchFailed(fetchError: FetchError) | RecordFailed(index: nat, reason: ProductError)

  /** A write statement sent to the table. */
  datatype Write = DeleteStatement(skus: seq<string>) | UpdateStatement(sku: string) | InsertStatement(sku: string)

  /** The table after a run, the writes it issued in order, and what the run returns or throws. */
  datatype Outcome = Outcome(table: Table, writes: seq<Write>, result: Result<seq<RemoteProduct>, SyncError>)

  /** The index of the first product for which `ok` does not hold, or `|ps|` when it holds throughout. */
  function FirstFailing(ps: seq<RemoteProduct>, ok: RemoteProduct -> bool): (i: nat)
    ensures i <= |ps|
    ensures forall j :: 0 <= j < i ==> ok(ps[j])
    ensures i < |ps| ==> !ok(ps[i])
  {
    if ps == [] || !ok(ps[0]) then 0 else 1 + FirstFailing(ps[1..], ok)
  }

  predicate HasVariant(p: RemoteProduct) {
    |p.variants| > 0
  }

  /**
   * `skusFromShopify` (productGetter.js:121): the first variant's SKU of every
   * product, in order; the map throws at the first product without variants.
   */
  function RemoteSkus(ps: seq<RemoteProduct>): (r: Result<seq<string>, SyncError>)
    ensures r.Success? <==> forall i :: 0 <= i < |ps| ==> |ps[i].variants| > 0
    ensures r.Success? ==> |r.value| == |ps| && forall i :: 0 <= i < |ps| ==> r.value[i] == ps[i].variants[0].sku
    ensures r.Failure? ==>
      && r.error.RecordFailed? && r.error.reason == MissingVariant && r.error.index < |ps|
      && |ps[r.error.index].variants| == 0
      && forall j :: 0 <= j < r.error.index ==> |ps[j].variants| > 0
  {
    var i := FirstFailing(ps, HasVariant);
    if i < |ps| then Failure(RecordFailed(i, MissingVariant))
    else Success(seq(|ps|, k requires 0 <= k < |ps| => ps[k].variants[0].sku))
  }

  /** The per-record loop body (productGetter.js:174-239) on the table: update if changed, then insert if absent. */
  function ApplyRecord(t: Table, rec: CatalogRow): Table {
    var afterUpdate := if rec.sku in t.rows && HasChanged(t.rows[rec.sku], rec) then UpdateWhere(t, rec) else t;
    if rec.sku in afterUpdate.rows then afterUpdate else Insert(afterUpdate, rec)
  }

  /** The writes the loop body issues for `rec`. */
  function RecordWrites(t: Table, rec: CatalogRow): seq<Write> {
    if rec.sku !in t.rows then [InsertStatement(rec.sku)]
    else if HasChanged(t.rows[rec.sku], rec) then [UpdateStatement(rec.sku)]
    else []
  }

  /** `deletedSkus` (productGetter.js:128): the stored SKUs, in table order, that are not among the remote ones. */
  function DeletedSkus(t: Table, remote: seq<string>): seq<string> {
    Except(t.order, remote)
  }

  /** The table after the DELETE of productGetter.js:129-138, which is issued only when `deletedSkus` is not empty. */
  function Pruned(t: Table, remote: seq<string>): Table {
    var deleted := DeletedSkus(t, remote);
    if |deleted| > 0 then DeleteWhere(t, deleted) else t
  }

  /** The DELETE statement issued, if any. */
  function Deletes(t: Table, remote: seq<string>): seq<Write> {
    var deleted := DeletedSkus(t, remote);
    if |deleted| > 0 then [DeleteStatement(deleted)] else []
  }

  /** What the product loop leaves behind: the table, the writes it issued in order, and the error that stopped it, if any. */
  datatype LoopResult = LoopResult(table: Table, writes: seq<Write>, failure: Option<SyncError>)

  /** What normalising each product gives, in order. */
  function Normalized(ps: seq<RemoteProduct>): seq<Result<CatalogRow, ProductError>> {
    seq(|ps|, i requires 0 <= i < |ps| => Normalize(ps[i]))
  }

  /** `Normalized` holds, at each index, the normalisation of the product at that index. */
  lemma NormalizedAt(ps: seq<RemoteProduct>, i: nat)
    requires i < |ps|
    ensures |Normalized(ps)| == |ps| && Normalized(ps)[i] == Normalize(ps[i])
  {
  }

  /**
   * The product loop (productGetter.js:140-240) from product `i` on, against
   * table `t`, given what normalising each product gives: each normalised
   * record is synced; the first product that cannot be normalised stops the
   * loop with the error its normalisation raises.
   */
  function SyncFrom(t: Table, rs: seq<Result<CatalogRow, ProductError>>, i: nat): LoopResult
    requires i <= |rs|
    decreases |rs| - i
  {
    if i == |rs| then LoopResult(t, [], None)
    else match rs[i]
      case Failure(e) => LoopResult(t, [], Some(RecordFailed(i, e)))
      case Success(row) =>
        var rest := SyncFrom(ApplyRecord(t, row), rs, i + 1);
        LoopResult(rest.table, RecordWrites(t, row) + rest.writes, rest.failure)
  }

  /** The loop result `rest`, preceded by the writes already issued. */
  function After(writes: seq<Write>, rest: LoopResult): LoopResult {
    LoopResult(rest.table, writes + rest.writes, rest.failure)
  }

  /**
   * A run over the fetched products `ps` against table `t`. A product
   * without variants stops the run before any write; a product without
   * images stops it at that product, after the writes for the products
   * before it.
   */
  function Reconcile(t: Table, ps: seq<RemoteProduct>): Outcome {
    match RemoteSkus(ps)
    case Failure(e) => Outcome(t, [], Failure(e))
    case Success(remote) =>
      var loop := SyncFrom(Pruned(t, remote), Normalized(ps), 0);
      Outcome(loop.table, Deletes(t, remote) + loop.writes, if loop.failure.Some? then Failure(loop.failure.value) else Success(ps))
  }

  /** A whole run: a failed fetch aborts it with the table untouched. */
  function Run(t: Table, fetched: Result<seq<RemoteProduct>, FetchError>): Outcome {
    match fetched
    case Failure(e) => Outcome(t, [], Failure(FetchFailed(e)))
    case Success(ps) => Reconcile(t, ps)
  }

  /**
   * The loop body for one normalised record (productGetter.js:174-239): the
   * first existence query and the change check, then a second, fresh
   * existence query that decides the insert.
   */
  method SyncRecord(store: Store, row: CatalogRow) returns (w: seq<Write>)
    requires store.Valid()
    modifies store
    ensures store.Valid()
    ensures store.State() == ApplyRecord(old(store.State()), row)
    ensures w == RecordWrites(old(store.State()), row)
  {
    w := [];
    var stored := store.FindRow(row.sku);
    if stored.Some? && HasChanged(stored.value, row) {
      store.UpdateRow(row);
      w := w + [UpdateStatement(row.sku)];
    }
    var count := store.CountSku(row.sku);
    if count > 0 {
      return;
    }
    store.InsertRow(row);
    w := w + [InsertStatement(row.sku)];
  }

  /**
   * One iteration of the `for (const product of products)` loop: normalise
   * product `i`, then sync its record. `target`, what the whole loop is to
   * leave behind, stays what the rest of the loop leaves behind after the
   * writes issued so far.
   */
  method SyncProduct(store: Store, products: seq<RemoteProduct>, i: nat, writes: seq<Write>, ghost target: LoopResult)
      returns (stop: Option<SyncError>, writes': seq<Write>)
    requires i < |products| && store.Valid()
    requires target == After(writes, SyncFrom(store.State(), Normalized(products), i))
    modifies store
    ensures store.Valid()
    ensures stop.Some? ==> target == LoopResult(store.State(), writes', stop)
    ensures stop.None? ==> target == After(writes', SyncFrom(store.State(), Normalized(products), i + 1))
  {
    ghost var before := store.State();
    var rec := NormalizeProduct(products[i]);
    NormalizedAt(products, i);
    if rec.Failure? {
      return Some(RecordFailed(i, rec.error)), writes;
    }
    var w := SyncRecord(store, rec.value);
    ghost var rest := SyncFrom(store.State(), Normalized(products), i + 1);
    assert SyncFrom(before, Normalized(products), i) == LoopResult(rest.table, w + rest.writes, rest.failure);
    assert writes + (w + rest.writes) == (writes + w) + rest.writes;
    stop, writes' := None, writes + w;
  }

  /** The `for (const product of products)` loop (productGetter.js:140-240). */
  method SyncProducts(store: Store, products: seq<RemoteProduct>) returns (failure: Option<SyncError>, writes: seq<Write>)
    requires store.Valid()
    modifies store
    ensures store.Valid()
    ensures LoopResult(store.State(), writes, failure) == SyncFrom(old(store.State()), Normalized(products), 0)
  {
    writes, failure := [], None;
    ghost var target := SyncFrom(store.State(), Normalized(products), 0);
    var i := 0;
    while i < |products| && failure.None?
      invariant i <= |products| && store.Valid()
      invariant failure.None? ==> target == After(writes, SyncFrom(store.State(), Normalized(products), i))
      invariant failure.Some? ==> target == LoopResult(store.State(), writes, failure)
    {
      failure, writes := SyncProduct(store, products, i, writes, target);
      i := i + 1;
    }
  }

  /** The SELECT sku, the `deletedSkus` filter and the DELETE (productGetter.js:122-138). */
  method DeleteStale(store: Store, remote: seq<string>) returns (writes: seq<Write>)
    requires store.Valid()
    modifies store
    ensures store.Valid()
    ensures store.State() == Pruned(old(store.State()), remote) && writes == Deletes(old(store.State()), remote)
  {
    var skusFromDatabase := store.SelectSkus();
    var deletedSkus := Except(skusFromDatabase, remote);
    writes := [];
    if |deletedSkus| > 0 {
      store.DeleteIn(deletedSkus);
      writes := [DeleteStatement(deletedSkus)];
    }
  }

  /** The run after the fetch (productGetter.js:121-240), on the fetched `products`. */
  method ReconcileProducts(store: Store, products: seq<RemoteProduct>) returns (r: Result<seq<RemoteProduct>, SyncError>, writes: seq<Write>)
    requires store.Valid()
    modifies store
    ensures store.Valid()
    ensures Outcome(store.State(), writes, r) == Reconcile(old(store.State()), products)
  {
    writes := [];
    var skusFromShopify := RemoteSkus(products);
    if skusFromShopify.Failure? {
      return Failure(skusFromShopify.error), writes;
    }
    writes := DeleteStale(store, skusFromShopify.value);
    var failure, recordWrites := SyncProducts(store, products);
    writes := writes + recordWrites;
    r := if failure.Some? then Failure(failure.value) else Success(products);
  }

  /**
   * productGetter (productGetter.js:116-252) against the table in `store`,
   * with the API `api`, which lets the fetch loop stop after `n` requests.
   */
  method ProductGetter(store: Store, api: Api, ghost n: nat) returns (r: Result<seq<RemoteProduct>, SyncError>, writes: seq<Write>)
    requires store.Valid() && Stops(api, None, n)
    modifies store
    ensures store.Valid()
    ensures Outcome(store.State(), writes, r) == Run(old(store.State()), FetchFrom(api, None, n))
  {
    var fetched, requested := FetchAllProducts(api, n);
    if fetched.Failure? {
      return Failure(FetchFailed(fetched.error)), [];
    }
    r, writes := ReconcileProducts(store, fetched.value);
  }
}
