/** `shop/dal/product.py`: the product list, optionally narrowed to one category, and the
    lookup by key. */
module Products {
  import opened Wrappers
  import opened Seqs
  import opened Store
  import opened Models

  /** `get_all_or_category_products`: every product when no category is given (Python's
      `not category` also holds for key 0), otherwise exactly the products of that category,
      in table order. */
  function GetAllOrCategoryProducts(rows: seq<Row<Product>>, category: Option<nat>): (r: seq<Row<Product>>)
    ensures category.None? || category.value == 0 ==> r == rows
    ensures category.Some? && category.value != 0 ==>
      (forall i :: 0 <= i < |r| ==> r[i].rec.category == category.value) &&
      (forall i :: 0 <= i < |rows| && rows[i].rec.category == category.value ==> rows[i] in r) &&
      ((forall i :: 0 <= i < |rows| ==> rows[i].rec.category != category.value) ==> r == [])
    ensures IsSubsequence(r, rows)
  {
    if category.None? || category.value == 0 then
      FilterKeepsAll(rows, (row: Row<Product>) => true);
      FilterIsSubsequence(rows, (row: Row<Product>) => true);
      rows
    else
      var inCategory := (row: Row<Product>) => row.rec.category == category.value;
      FilterIsSubsequence(rows, inCategory);
      Filter(rows, inCategory)
  }

  /** `get_product_by_pk`: the stored product, or `Http404`. */
  function GetProductByPk(products: Table<Product>, pk: nat): (r: Result<Product>)
    ensures r.Ok? ==> Row(pk, r.value) in products.rows
    ensures r.Err? ==> r == Err(NotFound) && !Has(products, pk)
  {
    Get(products, pk)
  }
}
