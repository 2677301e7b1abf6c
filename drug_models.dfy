/** The drug inventory tables (app/models/base.py). */
module DrugModels {
  import opened Common

  /** A row of the drugs table. Sku and name are unique and not null; deleted defaults to false. */
  datatype Drug = Drug(
    id: int,
    sku: string,
    name: string,
    sellPrice: Float,
    purchasePrice: Float,
    stock: int,
    deleted: bool)

  function DrugId(d: Drug): int
  {
    d.id
  }

  /** A row of the purchase table: quantities, subcost, order date and paid status
      are required; the drug link, paid date and note are nullable. */
  datatype DrugPurchase = DrugPurchase(
    id: int,
    drugId: Option<int>,
    quantities: int,
    subcost: int,
    orderDate: Time,
    paidStatus: bool,
    paidDate: Option<Time>,
    note: Option<string>)

  /** A drug given to the session before it has an id. */
  datatype NewDrug = NewDrug(sku: string, name: string, sellPrice: Float, purchasePrice: Float, stock: int)

  /** The row that committing a pending drug under `id` stores; deleted takes its default. */
  function Persisted(d: NewDrug, id: int): (r: Drug)
    ensures r.id == id && !r.deleted
    ensures r.sku == d.sku && r.name == d.name && r.stock == d.stock
    ensures r.sellPrice == d.sellPrice && r.purchasePrice == d.purchasePrice
  {
    Drug(id, d.sku, d.name, d.sellPrice, d.purchasePrice, d.stock, false)
  }

  /** The unique constraint on drug_sku, over every row, deleted or not. */
  predicate SkusUnique(rows: map<int, Drug>)
  {
    forall a, b :: a in rows && b in rows && rows[a].sku == rows[b].sku ==> a == b
  }

  /** The unique constraint on drug_name, over every row, deleted or not. */
  predicate NamesUnique(rows: map<int, Drug>)
  {
    forall a, b :: a in rows && b in rows && rows[a].name == rows[b].name ==> a == b
  }

  /** Both constraints; a commit that would break either is refused by the store. */
  predicate Constrained(rows: map<int, Drug>)
  {
    SkusUnique(rows) && NamesUnique(rows)
  }
}
