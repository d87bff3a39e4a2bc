/** ProductService: the soft delete of a product, and what it does to the product queries. */
module ProductService {
  import opened Entities
  import opened Repositories

  /** The product rows after product `id` has been flagged inactive. */
  function SoftDeletedProducts(rows: map<ProductId, ProductRow>, id: ProductId): (r: map<ProductId, ProductRow>)
    ensures r.Keys == rows.Keys
    ensures forall k :: k in rows ==>
              r[k].name == rows[k].name && r[k].price == rows[k].price && r[k].stock == rows[k].stock
    ensures forall k :: k in rows ==> r[k].active == (rows[k].active && k != id)
  {
    if id in rows then rows[id := rows[id].(active := false)] else rows
  }

  /**
   * softDelete: true exactly when the product exists; then only its active flag is cleared.
   * For an absent id the store is left as it was.
   */
  method SoftDelete(db: Database, id: ProductId) returns (found: bool)
    requires db.Valid()
    modifies db, db.products.Values
    ensures db.Valid()
    ensures found <==> id in old(db.products)
    ensures db.products == old(db.products) && db.Rows() == SoftDeletedProducts(old(db.Rows()), id)
    ensures db.users == old(db.users) && db.roles == old(db.roles) && db.bills == old(db.bills)
  {
    if id in db.products {
      var product := db.products[id];
      product.active := false;
      db.SaveProduct(product);
      return true;
    }
    return false;
  }

  /** A second soft delete of the same product changes nothing more. */
  lemma SoftDeleteIdempotent(rows: map<ProductId, ProductRow>, id: ProductId)
    ensures SoftDeletedProducts(SoftDeletedProducts(rows, id), id) == SoftDeletedProducts(rows, id)
  {
  }

  /**
   * After a soft delete the product leaves the active listing and the price-range search, but
   * the name and stock searches, which do not filter on `active`, still return it.
   */
  lemma SoftDeleteAndQueries(rows: map<ProductId, ProductRow>, id: ProductId, text: string, stock: int, min: real, max: real)
    ensures FindAllActive(SoftDeletedProducts(rows, id)) == FindAllActive(rows) - {id}
    ensures FindByPriceRange(SoftDeletedProducts(rows, id), min, max) == FindByPriceRange(rows, min, max) - {id}
    ensures FindByNameContainingIgnoreCase(SoftDeletedProducts(rows, id), text) == FindByNameContainingIgnoreCase(rows, text)
    ensures FindByStock(SoftDeletedProducts(rows, id), stock) == FindByStock(rows, stock)
  {
    var after := SoftDeletedProducts(rows, id);
    assert forall k :: k in after ==> after[k].name == rows[k].name;
  }
}
