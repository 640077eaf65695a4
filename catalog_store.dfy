/**
 * The `shopifyapi` table, one row per SKU, and the four statements the
 * synchronisation issues against it: SELECT sku, SELECT COUNT(*) ... WHERE
 * sku = ?, DELETE ... WHERE sku IN (?), UPDATE ... WHERE sku = ? and INSERT.
 * A table is an order of its SKUs together with the rows keyed by SKU.
 * SQL promises no row order without ORDER BY; the model chooses insertion
 * order, and `SELECT sku` returns the SKUs in it.
 */
module CatalogStore {
  import opened Results
  import opened OrderedSets
  import opened Normalizer

  datatype Table = Table(order: seq<string>, rows: map<string, CatalogRow>)

  /** The SKU uniquely identifies a row, and every row is filed under its own SKU. */
  predicate WellFormed(t: Table) {
    && NoDup(t.order)
    && (forall k :: k in t.order ==> k in t.rows)
    && (forall k :: k in t.rows ==> k in t.order)
    && (forall k :: k in t.rows ==> t.rows[k].sku == k)
  }

  /** The row filed under `sku`, if any. */
  function Lookup(t: Table, sku: string): Option<CatalogRow> {
    if sku in t.rows then Some(t.rows[sku]) else None
  }

  /** How many times `x` occurs in `s`. */
  function Occurrences(s: seq<string>, x: string): nat {
    if s == [] then 0
    else Occurrences(s[..|s| - 1], x) + (if s[|s| - 1] == x then 1 else 0)
  }

  /** In a duplicate-free sequence an element occurs once if present and not at all otherwise. */
  lemma {:induction false} OccurrencesNoDup(s: seq<string>, x: string)
    requires NoDup(s)
    ensures Occurrences(s, x) == if x in s then 1 else 0
  {
    if s != [] {
      var init := s[..|s| - 1];
      assert s == init + [s[|s| - 1]];
      assert NoDup(init);
      OccurrencesNoDup(init, x);
    }
  }

  /**
   * The ten columns an UPDATE rewrites, with the values of `incoming`; `sku`
   * and `url` keep their stored values.
   */
  function Updated(stored: CatalogRow, incoming: CatalogRow): CatalogRow {
    stored.(
      title := incoming.title,
      description := incoming.description,
      imageSrc := incoming.imageSrc,
      prices := incoming.prices,
      quantity := incoming.quantity,
      size := incoming.size,
      color := incoming.color,
      material := incoming.material,
      category := incoming.category,
      status := incoming.status)
  }

  /** The change check (productGetter.js:182-191), applied to the stored row. */
  predicate HasChanged(stored: CatalogRow, incoming: CatalogRow) {
    || stored.title != incoming.title
    || stored.description != incoming.description
    || stored.imageSrc != incoming.imageSrc
    || stored.prices != incoming.prices
    || stored.quantity != incoming.quantity
    || stored.size != incoming.size
    || stored.color != incoming.color
    || stored.material != incoming.material
    || stored.category != incoming.category
    || stored.status != incoming.status
  }

  /**
   * The change check and the UPDATE agree: a row has not changed exactly
   * when rewriting its ten columns with the incoming values would leave it as
   * it is. So `sku` and `url` are neither compared nor rewritten.
   */
  lemma UnchangedIffUpdateIsIdle(stored: CatalogRow, incoming: CatalogRow)
    ensures !HasChanged(stored, incoming) <==> Updated(stored, incoming) == stored
  {
  }

  /** A second UPDATE overrides the first; the stored `sku` and `url` survive both. */
  lemma UpdatedTwice(stored: CatalogRow, a: CatalogRow, b: CatalogRow)
    ensures Updated(Updated(stored, a), b) == Updated(stored, b)
    ensures Updated(stored, b).sku == stored.sku && Updated(stored, b).url == stored.url
    ensures !HasChanged(Updated(stored, b), b)
  {
  }

  /** DELETE FROM shopifyapi WHERE sku IN (skus) */
  function DeleteWhere(t: Table, skus: seq<string>): Table {
    Table(Except(t.order, skus), map k | k in t.rows && k !in skus :: t.rows[k])
  }

  /** UPDATE shopifyapi SET <ten columns> WHERE sku = incoming.sku: no row matches when the SKU is absent. */
  function UpdateWhere(t: Table, incoming: CatalogRow): Table {
    if incoming.sku in t.rows then Table(t.order, t.rows[incoming.sku := Updated(t.rows[incoming.sku], incoming)]) else t
  }

  /** INSERT INTO shopifyapi (<twelve columns>) VALUES (incoming): a new row, stored after the others. */
  function Insert(t: Table, incoming: CatalogRow): Table
    requires incoming.sku !in t.rows
  {
    Table(t.order + [incoming.sku], t.rows[incoming.sku := incoming])
  }

  /** The DELETE removes exactly the rows whose SKU is listed, keeps the others as they are, and keeps the table well formed. */
  lemma DeleteWhereSpec(t: Table, skus: seq<string>)
    ensures var r := DeleteWhere(t, skus);
      && r.rows.Keys == t.rows.Keys - set s | s in skus
      && (forall k :: k in r.rows ==> r.rows[k] == t.rows[k])
      && (WellFormed(t) ==> WellFormed(r))
  {
  }

  /**
   * The UPDATE rewrites the ten columns of the row with the incoming SKU, if
   * there is one, and touches nothing else; the table stays well formed.
   */
  lemma UpdateWhereSpec(t: Table, incoming: CatalogRow)
    ensures var r := UpdateWhere(t, incoming);
      && r.order == t.order && r.rows.Keys == t.rows.Keys
      && (forall k :: k in r.rows && k != incoming.sku ==> r.rows[k] == t.rows[k])
      && (incoming.sku in t.rows ==> r.rows[incoming.sku] == Updated(t.rows[incoming.sku], incoming))
      && (WellFormed(t) ==> WellFormed(r))
  {
  }

  /**
   * The INSERT adds one row, the incoming record itself, after the existing
   * ones, which it leaves as they are; the table stays well formed.
   */
  lemma InsertSpec(t: Table, incoming: CatalogRow)
    requires incoming.sku !in t.rows
    ensures var r := Insert(t, incoming);
      && r.order == t.order + [incoming.sku]
      && r.rows.Keys == t.rows.Keys + {incoming.sku} && r.rows[incoming.sku] == incoming
      && (forall k :: k in t.rows ==> r.rows[k] == t.rows[k])
      && (WellFormed(t) ==> WellFormed(r))
  {
    if WellFormed(t) {
      assert incoming.sku !in t.order;
    }
  }

  /** The database connection, holding the table. */
  class Store {
    var order: seq<string>
    var rows: map<string, CatalogRow>

    function State(): Table
      reads this
    {
      Table(order, rows)
    }

    ghost predicate Valid()
      reads this
    {
      WellFormed(State())
    }

    constructor (t: Table)
      requires WellFormed(t)
      ensures Valid() && State() == t
    {
      order, rows := t.order, t.rows;
    }

    /** SELECT sku FROM shopifyapi: every SKU once, in physical order. */
    method SelectSkus() returns (skus: seq<string>)
      requires Valid()
      ensures skus == order
      ensures NoDup(skus) && forall k :: k in skus <==> k in rows
    {
      skus := order;
    }

    /** SELECT COUNT(*) AS count FROM shopifyapi WHERE sku = ? */
    method CountSku(sku: string) returns (count: nat)
      requires Valid()
      ensures count == Occurrences(order, sku)
      ensures count <= 1 && (count > 0 <==> sku in rows)
    {
      count := Occurrences(order, sku);
      OccurrencesNoDup(order, sku);
    }

    /** The stored row with this SKU, the row the change check is meant to compare. */
    method FindRow(sku: string) returns (found: Option<CatalogRow>)
      requires Valid()
      ensures found.Some? <==> sku in rows
      ensures found.Some? ==> found.value == rows[sku] && found.value.sku == sku
    {
      found := if sku in rows then Some(rows[sku]) else None;
    }

    method DeleteIn(skus: seq<string>)
      requires Valid()
      modifies this
      ensures Valid() && State() == DeleteWhere(old(State()), skus)
    {
      DeleteWhereSpec(State(), skus);
      var t := DeleteWhere(State(), skus);
      order, rows := t.order, t.rows;
    }

    method UpdateRow(incoming: CatalogRow)
      requires Valid()
      modifies this
      ensures Valid() && State() == UpdateWhere(old(State()), incoming)
    {
      UpdateWhereSpec(State(), incoming);
      if incoming.sku in rows {
        rows := rows[incoming.sku := Updated(rows[incoming.sku], incoming)];
      }
    }

    method InsertRow(incoming: CatalogRow)
      requires Valid() && incoming.sku !in rows
      modifies this
      ensures Valid() && State() == Insert(old(State()), incoming)
    {
      InsertSpec(State(), incoming);
      order := order + [incoming.sku];
      rows := rows[incoming.sku := incoming];
    }
  }
}
