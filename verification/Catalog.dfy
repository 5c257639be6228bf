/** What cart and checkout read about a variant and its product. */
module Catalog {
  import opened Outcomes
  import opened Lines

  type ProductId = nat

  datatype ProductInfo = ProductInfo(id: ProductId, deleted: bool, published: bool)

  datatype VariantInfo = VariantInfo(price: int, deleted: bool, active: bool, product: Option<ProductInfo>)

  type Catalog = map<VariantId, VariantInfo>

  predicate ProductSellable(catalog: Catalog, v: VariantId) {
    v in catalog && catalog[v].product.Some? && !catalog[v].product.value.deleted && catalog[v].product.value.published
  }

  predicate VariantSellable(catalog: Catalog, v: VariantId) {
    v in catalog && !catalog[v].deleted && catalog[v].active
  }

  predicate Sellable(catalog: Catalog, v: VariantId) {
    ProductSellable(catalog, v) && VariantSellable(catalog, v)
  }
}
