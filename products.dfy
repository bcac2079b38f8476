/** products/models.py and products/forms.py: the product variant, whose
    `stock_quantity` is the counter the whole ledger keeps, and its validators. */
module Products {
  import opened Common

  datatype Product = Product(
    name: string,
    category: CategoryId,
    unit: UnitId,
    supplier: Option<SupplierId>,
    description: string,
    isActive: bool)

  /** One row of the variant table. `stockQuantity` is a PositiveIntegerField, so it
      is a `nat`: the database never holds a negative stock. */
  datatype ProductVariant = ProductVariant(
    product: ProductId,
    variantName: string,
    price: int,
    stockQuantity: nat,
    reorderLevel: nat,
    isActive: bool)

  /** The variant table, by primary key. */
  type Variants = map<VariantId, ProductVariant>

  /** The model default of a freshly created variant row. */
  const DefaultReorderLevel: nat := 5

  predicate NeedsReorder(v: ProductVariant) {
    v.stockQuantity <= v.reorderLevel
  }

  predicate IsInStock(v: ProductVariant) {
    v.stockQuantity > 0
  }

  /** `add_stock`: a quantity that is not positive raises ValueError and nothing is
      saved; otherwise the counter grows by exactly the quantity, and
      `stock_quantity` is the only field written. */
  function AddStock(v: ProductVariant, quantity: int): (r: Result<ProductVariant>)
    ensures r.Err? <==> quantity <= 0
    ensures r.Err? ==> r.error == InvalidQuantity
    ensures r.Ok? ==> r.value.stockQuantity == v.stockQuantity + quantity
    ensures r.Ok? ==> r.value == v.(stockQuantity := r.value.stockQuantity)
  {
    if quantity <= 0 then Err(InvalidQuantity)
    else Ok(v.(stockQuantity := v.stockQuantity + quantity))
  }

  /** `reduce_stock`: a quantity that is not positive raises, then one above the
      stock raises; otherwise the counter shrinks by exactly the quantity and stays
      non-negative, and `stock_quantity` is the only field written. */
  function ReduceStock(v: ProductVariant, quantity: int): (r: Result<ProductVariant>)
    ensures r.Err? <==> quantity <= 0 || quantity > v.stockQuantity
    ensures r.Err? ==> r.error == (if quantity <= 0 then InvalidQuantity else InsufficientStock)
    ensures r.Ok? ==> r.value.stockQuantity == v.stockQuantity - quantity
    ensures r.Ok? ==> r.value == v.(stockQuantity := r.value.stockQuantity)
  {
    if quantity <= 0 then Err(InvalidQuantity)
    else if quantity > v.stockQuantity then Err(InsufficientStock)
    else Ok(v.(stockQuantity := v.stockQuantity - quantity))
  }

  /** Adding a positive quantity and then removing it gives back the row. */
  lemma AddThenReduce(v: ProductVariant, quantity: int)
    requires quantity > 0
    ensures AddStock(v, quantity).Ok?
    ensures ReduceStock(AddStock(v, quantity).value, quantity) == Ok(v)
  {
  }

  /** A successful reduction followed by adding the same quantity gives back the row. */
  lemma ReduceThenAdd(v: ProductVariant, quantity: int)
    requires ReduceStock(v, quantity).Ok?
    ensures AddStock(ReduceStock(v, quantity).value, quantity) == Ok(v)
  {
  }

  /** More stock never raises the reorder flag nor clears the in-stock flag: an
      addition leaves the variant in stock and keeps it clear of the reorder flag if
      it was; a reduction keeps the reorder flag if it was set, and leaves the variant
      in stock exactly when it takes less than the whole stock. */
  lemma StockFlagsMonotone(v: ProductVariant, quantity: int)
    ensures AddStock(v, quantity).Ok? ==> IsInStock(AddStock(v, quantity).value)
    ensures AddStock(v, quantity).Ok? && !NeedsReorder(v) ==> !NeedsReorder(AddStock(v, quantity).value)
    ensures ReduceStock(v, quantity).Ok? && NeedsReorder(v) ==> NeedsReorder(ReduceStock(v, quantity).value)
    ensures ReduceStock(v, quantity).Ok? ==> (IsInStock(ReduceStock(v, quantity).value) <==> quantity < v.stockQuantity)
  {
  }

  /** What a variant form submits: its name, its price (None when left empty) and
      its reorder level. The form has no `stock_quantity` field, so it cannot set
      the stock. */
  datatype VariantForm = VariantForm(variantName: string, price: Option<int>, reorderLevel: nat)

  /** `ProductVariantForm.clean_price`: the test `price and price <= 0` is false for
      an empty price and for 0, so only a negative price is refused; an accepted
      price is returned unchanged. */
  function CleanPrice(price: Option<int>): (r: Result<Option<int>>)
    ensures r.Err? <==> price.Some? && price.value < 0
    ensures r.Err? ==> r.error == NonPositivePrice
    ensures r.Ok? ==> r.value == price
  {
    if price.Some? && price.value != 0 && price.value <= 0 then Err(NonPositivePrice)
    else Ok(price)
  }

  lemma ZeroPriceAccepted()
    ensures CleanPrice(Some(0)) == Ok(Some(0))
  {
  }

  /** The product's total stock shown on its detail page: the sum of its
      variants' counters. */
  function TotalStock(vs: seq<ProductVariant>): nat
  {
    if vs == [] then 0 else TotalStock(vs[..|vs| - 1]) + vs[|vs| - 1].stockQuantity
  }

  /** The total is at least any one variant's stock, and it is zero exactly when no
      variant is in stock. */
  lemma {:induction false} TotalStockBounds(vs: seq<ProductVariant>)
    ensures forall i :: 0 <= i < |vs| ==> vs[i].stockQuantity <= TotalStock(vs)
    ensures TotalStock(vs) == 0 <==> forall i :: 0 <= i < |vs| ==> !IsInStock(vs[i])
  {
    if vs != [] {
      TotalStockBounds(vs[..|vs| - 1]);
      assert forall i :: 0 <= i < |vs| - 1 ==> vs[..|vs| - 1][i] == vs[i];
    }
  }
}
