/** The database the views and model methods work on, as one value: every table of
    the stock ledger, the referential integrity its foreign keys keep, and what each
    operation does to the tables. Each operation either succeeds with the new tables
    or fails with an error and changes nothing, as a `transaction.atomic` block or a
    refusal before any write does. */
module Database {
  import opened Common
  import opened Products
  import opened Inventory
  import Orders
  import Sales

  /** All tables. Categories and units are kept with their `is_active` flag only;
      primary keys of new rows come from one counter. */
  datatype Tables = Tables(
    variants: Variants,
    products: map<ProductId, Product>,
    categories: map<CategoryId, bool>,
    units: map<UnitId, bool>,
    customers: map<CustomerId, Sales.Customer>,
    orders: map<OrderId, Orders.Order>,
    sales: map<SaleId, Sales.Sale>,
    entries: seq<StockEntry>,
    movements: seq<StockMovement>,
    nextId: nat)

  // ---------------------------------------------------------------------------
  // Referential integrity

  predicate OrderItemsIn(o: Orders.Order, vs: Variants) {
    forall i :: 0 <= i < |o.items| ==> o.items[i].variant in vs
  }

  predicate SaleItemsIn(s: Sales.Sale, vs: Variants) {
    forall i :: 0 <= i < |s.items| ==> s.items[i].variant in vs
  }

  predicate EntriesIn(es: seq<StockEntry>, vs: Variants) {
    forall i :: 0 <= i < |es| ==> es[i].variant in vs
  }

  predicate MovementsIn(ms: seq<StockMovement>, vs: Variants) {
    forall i :: 0 <= i < |ms| ==> ms[i].variant in vs
  }

  /** Every foreign key names an existing row, and every allocated key is below the
      counter, so the next key is fresh. */
  predicate Consistent(t: Tables) {
    && (forall v :: v in t.variants ==> t.variants[v].product in t.products && v < t.nextId)
    && (forall p :: p in t.products ==>
          t.products[p].category in t.categories && t.products[p].unit in t.units && p < t.nextId)
    && (forall o :: o in t.orders ==> OrderItemsIn(t.orders[o], t.variants) && o < t.nextId)
    && (forall s :: s in t.sales ==>
          t.sales[s].customer in t.customers && SaleItemsIn(t.sales[s], t.variants) && s < t.nextId)
    && EntriesIn(t.entries, t.variants)
    && MovementsIn(t.movements, t.variants)
  }

  /** A sale item or an order item refers to the variant (both foreign keys protect
      the variant from deletion). */
  predicate SaleUses(s: Sales.Sale, v: VariantId) {
    exists i :: 0 <= i < |s.items| && s.items[i].variant == v
  }

  predicate OrderUses(o: Orders.Order, v: VariantId) {
    exists i :: 0 <= i < |o.items| && o.items[i].variant == v
  }

  predicate VariantInUse(t: Tables, v: VariantId) {
    (exists id :: id in t.sales && SaleUses(t.sales[id], v)) ||
    (exists id :: id in t.orders && OrderUses(t.orders[id], v))
  }

  /** What a method reports, given the outcome its specification prescribes: on
      success the new tables are the prescribed ones; on failure the same error is
      reported and the tables are as before. */
  predicate Committed(r: Outcome, spec: Result<Tables>, before: Tables, after: Tables) {
    match spec
    case Ok(t) => r == Pass && after == t
    case Err(e) => r == Fail(e) && after == before
  }

  /** The same for an operation that inserts a row and reports its new key, which
      is the counter's value before the call. */
  predicate CommittedId(r: Result<nat>, spec: Result<Tables>, before: Tables, after: Tables) {
    match spec
    case Ok(t) => r == Ok(before.nextId) && after == t
    case Err(e) => r == Err(e) && after == before
  }

  // ---------------------------------------------------------------------------
  // The stock counter and the audit log

  /** `ProductVariant.add_stock` on the stored row. */
  function AddStockOn(t: Tables, id: VariantId, quantity: int): (r: Result<Tables>)
    ensures r.Ok? <==> id in t.variants && quantity > 0
    ensures r.Ok? ==> r.value == t.(variants := t.variants[id := t.variants[id].(stockQuantity := t.variants[id].stockQuantity + quantity)])
  {
    if id !in t.variants then Err(NotFound)
    else
      match AddStock(t.variants[id], quantity)
      case Err(e) => Err(e)
      case Ok(v) => Ok(t.(variants := t.variants[id := v]))
  }

  /** `ProductVariant.reduce_stock` on the stored row. */
  function ReduceStockOn(t: Tables, id: VariantId, quantity: int): (r: Result<Tables>)
    ensures r.Ok? <==> id in t.variants && 0 < quantity <= t.variants[id].stockQuantity
    ensures r.Ok? ==> r.value == t.(variants := t.variants[id := t.variants[id].(stockQuantity := t.variants[id].stockQuantity - quantity)])
  {
    if id !in t.variants then Err(NotFound)
    else
      match ReduceStock(t.variants[id], quantity)
      case Err(e) => Err(e)
      case Ok(v) => Ok(t.(variants := t.variants[id := v]))
  }

  /** `StockMovement.create_movement`: a row is appended whose snapshot is the
      variant's current stock; the variant is not written. The `new_stock` column
      is non-negative, so the database refuses a movement that would end below zero. */
  function CreateMovementOn(t: Tables, id: VariantId, movementType: MovementType, quantity: int,
                            actor: Option<EmployeeId>, ref: string, notes: string): (r: Result<Tables>)
    ensures r.Ok? <==> id in t.variants && t.variants[id].stockQuantity + quantity >= 0
    ensures r.Ok? ==> r.value.variants == t.variants
    ensures r.Ok? ==> r.value == t.(movements := t.movements + [CreateMovement(id, t.variants[id].stockQuantity, movementType, quantity, actor, ref, notes)])
  {
    if id !in t.variants then Err(NotFound)
    else
      var m := CreateMovement(id, t.variants[id].stockQuantity, movementType, quantity, actor, ref, notes);
      if m.newStock < 0 then Err(NegativeStock)
      else Ok(t.(movements := t.movements + [m]))
  }

  // ---------------------------------------------------------------------------
  // Stock entries

  /** Saving a new stock entry: the row is appended and its quantity added to its
      variant's stock once. */
  function SaveEntryOn(t: Tables, e: StockEntry): (r: Result<Tables>)
    ensures r.Ok? <==> e.variant in t.variants && t.variants[e.variant].stockQuantity + e.quantity >= 0
    ensures r.Ok? ==> r.value == t.(entries := t.entries + [e],
      variants := t.variants[e.variant := t.variants[e.variant].(stockQuantity := t.variants[e.variant].stockQuantity + e.quantity)])
  {
    if e.variant !in t.variants then Err(NotFound)
    else
      match ApplyNewEntry(t.variants[e.variant], e.quantity)
      case Err(err) => Err(err)
      case Ok(v) => Ok(t.(entries := t.entries + [e], variants := t.variants[e.variant := v]))
  }

  /** Saving an entry that already has a row: the row is rewritten and no stock
      changes. */
  function ResaveEntryOn(t: Tables, i: nat, e: StockEntry): (r: Result<Tables>)
    requires i < |t.entries|
    ensures r.Ok? <==> e.variant in t.variants
    ensures r.Ok? ==> r.value.variants == t.variants && r.value == t.(entries := t.entries[i := e])
  {
    if e.variant !in t.variants then Err(NotFound)
    else Ok(t.(entries := t.entries[i := e]))
  }

  /** The stock_entry view on the tables. */
  function RecordEntryOn(t: Tables, f: EntryForm, actor: EmployeeId): Result<Tables> {
    match RecordEntry(t.variants, f, actor)
    case Err(e) => Err(e)
    case Ok(res) => Ok(t.(variants := t.variants[f.variant := res.0], entries := t.entries + [res.1]))
  }

  /** The view's write is exactly the save of the entry it builds: the stock moves
      once, by the normalised quantity, and one entry carrying that quantity is
      appended. */
  lemma RecordEntryIsSave(t: Tables, f: EntryForm, actor: EmployeeId)
    ensures f.variant in t.variants && t.variants[f.variant].isActive && CleanQuantity(f.quantity, Some(t.variants[f.variant])).Ok? ==>
      RecordEntryOn(t, f, actor) == SaveEntryOn(t, StockEntry(f.variant, NormaliseQuantity(f.entryType, f.quantity), f.entryType, Some(actor), f.notes))
    ensures RecordEntryOn(t, f, actor).Ok? ==>
      var u := RecordEntryOn(t, f, actor).value;
      && u.entries == t.entries + [StockEntry(f.variant, NormaliseQuantity(f.entryType, f.quantity), f.entryType, Some(actor), f.notes)]
      && u.variants[f.variant].stockQuantity == t.variants[f.variant].stockQuantity + NormaliseQuantity(f.entryType, f.quantity)
  {
  }

  // ---------------------------------------------------------------------------
  // Purchase orders

  /** What `mark_as_delivered` leaves stored when it raises: the item row is saved
      before `add_stock` is called, so an amount `add_stock` refuses still leaves
      the item rewritten as `Orders.SavedItem` says; a missing row, or a total the
      database refuses, leaves everything as it was. */
  function MarkAsDeliveredLeft(t: Tables, o: OrderId, i: nat, quantity: Option<int>): (r: Tables)
    ensures r == t.(orders := r.orders)
    ensures r.orders.Keys == t.orders.Keys
    ensures forall p :: p in t.orders && p != o ==> r.orders[p] == t.orders[p]
  {
    if o !in t.orders || i >= |t.orders[o].items| || t.orders[o].items[i].variant !in t.variants then t
    else
      match Orders.SavedItem(t.orders[o].items[i], quantity)
      case Err(_) => t
      case Ok(saved) => t.(orders := t.orders[o := t.orders[o].(items := t.orders[o].items[i := saved])])
  }

  /** `OrderItem.mark_as_delivered` on the stored item `i` of an order and its
      variant. */
  function MarkAsDeliveredOn(t: Tables, o: OrderId, i: nat, quantity: Option<int>): (r: Result<Tables>)
    ensures r.Ok? <==>
      && o in t.orders && i < |t.orders[o].items| && t.orders[o].items[i].variant in t.variants
      && Orders.DeliveryAmount(t.orders[o].items[i], quantity) > 0
    ensures r.Ok? ==> var v := t.orders[o].items[i].variant;
      r.value == MarkAsDeliveredLeft(t, o, i, quantity).(variants :=
        t.variants[v := AddStock(t.variants[v], Orders.DeliveryAmount(t.orders[o].items[i], quantity)).value])
  {
    if o !in t.orders || i >= |t.orders[o].items| || t.orders[o].items[i].variant !in t.variants then Err(NotFound)
    else
      var item := t.orders[o].items[i];
      match Orders.MarkAsDelivered(item, t.variants[item.variant], quantity)
      case Err(e) => Err(e)
      case Ok(res) =>
        Ok(t.(orders := t.orders[o := t.orders[o].(items := t.orders[o].items[i := res.0])],
              variants := t.variants[item.variant := res.1]))
  }

  /** The confirm_delivery view on the tables. */
  function ConfirmDeliveryOn(t: Tables, o: OrderId, qs: seq<int>, ns: seq<string>, actor: EmployeeId, now: Timestamp): Result<Tables> {
    if o !in t.orders then Err(NotFound)
    else
      match Orders.ConfirmDelivery(t.orders[o], t.variants, qs, ns, actor, now)
      case Err(e) => Err(e)
      case Ok(res) => Ok(t.(orders := t.orders[o := res.0], variants := res.1))
  }

  /** The create_order view: the new order gets the next key. */
  function CreateOrderOn(t: Tables, supplier: SupplierId, expected: Option<int>, notes: string,
                         actor: EmployeeId, forms: seq<Orders.OrderItemForm>): Result<Tables> {
    match Orders.NewOrder(supplier, expected, notes, actor, forms, t.variants)
    case Err(e) => Err(e)
    case Ok(order) => Ok(t.(orders := t.orders[t.nextId := order], nextId := t.nextId + 1))
  }

  /** The delete_order view: the order and, by cascade, its items go. */
  function DeleteOrderOn(t: Tables, o: OrderId): (r: Result<Tables>)
    ensures r.Ok? <==> o in t.orders && t.orders[o].status != Orders.Delivered
    ensures r.Ok? ==> r.value == t.(orders := t.orders - {o})
  {
    if o !in t.orders then Err(NotFound)
    else
      match Orders.CheckOrderDeletable(t.orders[o])
      case Fail(e) => Err(e)
      case Pass => Ok(t.(orders := t.orders - {o}))
  }

  // ---------------------------------------------------------------------------
  // Sales

  /** The create_sale view: the new sale gets the next key. */
  function CreateSaleOn(t: Tables, form: Sales.SaleForm, actor: EmployeeId, forms: seq<Sales.SaleItemForm>): Result<Tables> {
    match Sales.CreateSale(t.variants, t.customers, form, actor, forms)
    case Err(e) => Err(e)
    case Ok(s) => Ok(t.(sales := t.sales[t.nextId := s], nextId := t.nextId + 1))
  }

  /** `Sale.complete_sale` on a stored sale, whose customer's name goes into the
      movements' notes. */
  function CompleteSaleOn(t: Tables, id: SaleId): Result<Tables> {
    if id !in t.sales || t.sales[id].customer !in t.customers then Err(NotFound)
    else
      var s := t.sales[id];
      match Sales.CompleteSale(t.variants, s, id, Sales.CustomerName(t.customers[s.customer]))
      case Err(e) => Err(e)
      case Ok(res) => Ok(t.(variants := res.0, movements := t.movements + res.1, sales := t.sales[id := res.2]))
  }

  /** One turn of the deduction loop on the tables: the item's variant row and the
      movement log. */
  function SaleTurnOn(t: Tables, it: Sales.SaleItem, ref: string, actor: Option<EmployeeId>, notes: string): Result<Tables> {
    match Sales.SaleTurn(Ok((t.variants, t.movements)), it, ref, actor, notes)
    case Err(e) => Err(e)
    case Ok(res) => Ok(t.(variants := res.0, movements := res.1))
  }

  /** The deduction loop of `complete_sale` on the tables: the variants deducted
      and the movements appended to the log. */
  function DeductOn(t: Tables, items: seq<Sales.SaleItem>, ref: string, actor: Option<EmployeeId>, notes: string): Result<Tables> {
    match Sales.Deduct(t.variants, items, ref, actor, notes)
    case Err(e) => Err(e)
    case Ok(res) => Ok(t.(variants := res.0, movements := t.movements + res.1))
  }

  /** The deduction loop on the tables is its turns one after another. */
  lemma DeductOnStep(t: Tables, items: seq<Sales.SaleItem>, k: nat, ref: string, actor: Option<EmployeeId>, notes: string)
    requires k < |items|
    ensures DeductOn(t, items[..k + 1], ref, actor, notes) ==
      (if DeductOn(t, items[..k], ref, actor, notes).Err? then DeductOn(t, items[..k], ref, actor, notes)
       else SaleTurnOn(DeductOn(t, items[..k], ref, actor, notes).value, items[k], ref, actor, notes))
  {
    assert items[..k + 1][..k] == items[..k];
    var acc := Sales.Deduct(t.variants, items[..k], ref, actor, notes);
    var it := items[k];
    if acc.Ok? && it.variant in acc.value.0 {
      var w := acc.value.0[it.variant];
      var m := CreateMovement(it.variant, w.stockQuantity, SaleMovement, -(it.quantity as int), actor, ref, notes);
      assert t.movements + (acc.value.1 + [m]) == (t.movements + acc.value.1) + [m];
    }
  }

  /** One turn of the restoring loop on the tables. */
  function ReturnTurnOn(t: Tables, it: Sales.SaleItem, ref: string, actor: Option<EmployeeId>, notes: string): Result<Tables> {
    match Sales.ReturnTurn(Ok((t.variants, t.movements)), it, ref, actor, notes)
    case Err(e) => Err(e)
    case Ok(res) => Ok(t.(variants := res.0, movements := res.1))
  }

  /** The restoring loop of `cancel_sale` on the tables. */
  function RestoreOn(t: Tables, items: seq<Sales.SaleItem>, ref: string, actor: Option<EmployeeId>, notes: string): Result<Tables> {
    match Sales.Restore(t.variants, items, ref, actor, notes)
    case Err(e) => Err(e)
    case Ok(res) => Ok(t.(variants := res.0, movements := t.movements + res.1))
  }

  lemma RestoreOnStep(t: Tables, items: seq<Sales.SaleItem>, k: nat, ref: string, actor: Option<EmployeeId>, notes: string)
    requires k < |items|
    ensures RestoreOn(t, items[..k + 1], ref, actor, notes) ==
      (if RestoreOn(t, items[..k], ref, actor, notes).Err? then RestoreOn(t, items[..k], ref, actor, notes)
       else ReturnTurnOn(RestoreOn(t, items[..k], ref, actor, notes).value, items[k], ref, actor, notes))
  {
    assert items[..k + 1][..k] == items[..k];
    var acc := Sales.Restore(t.variants, items[..k], ref, actor, notes);
    var it := items[k];
    if acc.Ok? && it.variant in acc.value.0 {
      var w := acc.value.0[it.variant];
      var m := CreateMovement(it.variant, w.stockQuantity, ReturnMovement, it.quantity, actor, ref, notes);
      assert t.movements + (acc.value.1 + [m]) == (t.movements + acc.value.1) + [m];
    }
  }

  /** `Sale.cancel_sale` on a stored sale. */
  function CancelSaleOn(t: Tables, id: SaleId): Result<Tables> {
    if id !in t.sales || t.sales[id].customer !in t.customers then Err(NotFound)
    else
      var s := t.sales[id];
      match Sales.CancelSale(t.variants, s, id, Sales.CustomerName(t.customers[s.customer]))
      case Err(e) => Err(e)
      case Ok(res) => Ok(t.(variants := res.0, movements := t.movements + res.1, sales := t.sales[id := res.2]))
  }

  /** The delete_sale view: the sale and, by cascade, its items go. */
  function DeleteSaleOn(t: Tables, id: SaleId): (r: Result<Tables>)
    ensures r.Ok? <==> id in t.sales && t.sales[id].status != Sales.Completed
    ensures r.Ok? ==> r.value == t.(sales := t.sales - {id})
  {
    if id !in t.sales then Err(NotFound)
    else
      match Sales.CheckSaleDeletable(t.sales[id])
      case Fail(e) => Err(e)
      case Pass => Ok(t.(sales := t.sales - {id}))
  }

  /** The delete_customer view. */
  function DeleteCustomerOn(t: Tables, c: CustomerId): (r: Result<Tables>)
    ensures r.Ok? <==> c in t.customers && forall id :: id in t.sales ==> t.sales[id].customer != c
    ensures r.Ok? ==> r.value == t.(customers := t.customers - {c})
  {
    if c !in t.customers then Err(NotFound)
    else
      match Sales.CheckCustomerDeletable(t.sales, c)
      case Fail(e) => Err(e)
      case Pass => Ok(t.(customers := t.customers - {c}))
  }
}
