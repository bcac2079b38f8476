/** The database as the one mutable object of the ledger: the model methods and
    views that write rows become methods of `Store`, each changing the tables step
    by step as the source does. Each method is proved against the operation of the
    same name on the tables: on success the new tables are the prescribed ones, on
    a refusal the method reports the same error and every table is as it was (the
    `transaction.atomic` blocks roll their writes back). Every public operation
    (a method that requires `Valid()`) also keeps referential integrity; the
    per-step workers its loops call state only the tables they write. */
module Ledger {
  import opened Common
  import opened Products
  import opened Inventory
  import Orders
  import Sales
  import opened Database
  import opened Catalog
  import opened Integrity

  class Store {
    var variants: Variants
    var products: map<ProductId, Product>
    var categories: map<CategoryId, bool>
    var units: map<UnitId, bool>
    var customers: map<CustomerId, Sales.Customer>
    var orders: map<OrderId, Orders.Order>
    var sales: map<SaleId, Sales.Sale>
    var entries: seq<StockEntry>
    var movements: seq<StockMovement>
    var nextId: nat

    /** The tables as one value. */
    function Contents(): Tables
      reads this
    {
      Tables(variants, products, categories, units, customers, orders, sales, entries, movements, nextId)
    }

    predicate Valid()
      reads this
    {
      Consistent(Contents())
    }

    /** A store holding the given consistent tables. */
    constructor (t: Tables)
      requires Consistent(t)
      ensures Contents() == t && Valid()
    {
      variants := t.variants;
      products := t.products;
      categories := t.categories;
      units := t.units;
      customers := t.customers;
      orders := t.orders;
      sales := t.sales;
      entries := t.entries;
      movements := t.movements;
      nextId := t.nextId;
    }

    /** The rollback of a transaction: every table back to the saved copy. */
    method Rollback(t: Tables)
      modifies this
      ensures Contents() == t
    {
      variants := t.variants;
      products := t.products;
      categories := t.categories;
      units := t.units;
      customers := t.customers;
      orders := t.orders;
      sales := t.sales;
      entries := t.entries;
      movements := t.movements;
      nextId := t.nextId;
    }

    // -------------------------------------------------------------------------
    // The stock counter and the audit log

    /** `ProductVariant.add_stock` on row `id`. */
    method AddStock(id: VariantId, quantity: int) returns (r: Outcome)
      requires Valid()
      modifies this
      ensures Valid()
      ensures Committed(r, AddStockOn(old(Contents()), id, quantity), old(Contents()), Contents())
    {
      ghost var t0 := Contents();
      if id !in variants {
        return Fail(NotFound);
      }
      if quantity <= 0 {
        return Fail(InvalidQuantity);
      }
      var v := variants[id];
      variants := variants[id := v.(stockQuantity := v.stockQuantity + quantity)];
      assert Contents() == AddStockOn(t0, id, quantity).value;
      AddStockKeeps(t0, id, quantity);
      r := Pass;
    }

    /** `ProductVariant.reduce_stock` on row `id`. */
    method ReduceStock(id: VariantId, quantity: int) returns (r: Outcome)
      requires Valid()
      modifies this
      ensures Valid()
      ensures Committed(r, ReduceStockOn(old(Contents()), id, quantity), old(Contents()), Contents())
    {
      ghost var t0 := Contents();
      if id !in variants {
        return Fail(NotFound);
      }
      if quantity <= 0 {
        return Fail(InvalidQuantity);
      }
      var v := variants[id];
      if quantity > v.stockQuantity {
        return Fail(InsufficientStock);
      }
      variants := variants[id := v.(stockQuantity := v.stockQuantity - quantity)];
      assert Contents() == ReduceStockOn(t0, id, quantity).value;
      ReduceStockKeeps(t0, id, quantity);
      r := Pass;
    }

    /** `StockMovement.create_movement` for row `id`. */
    method CreateMovement(id: VariantId, movementType: MovementType, quantity: int,
                          actor: Option<EmployeeId>, ref: string, notes: string) returns (r: Outcome)
      requires Valid()
      modifies this
      ensures Valid()
      ensures Committed(r, CreateMovementOn(old(Contents()), id, movementType, quantity, actor, ref, notes), old(Contents()), Contents())
    {
      ghost var t0 := Contents();
      if id !in variants {
        return Fail(NotFound);
      }
      var m := Inventory.CreateMovement(id, variants[id].stockQuantity, movementType, quantity, actor, ref, notes);
      if m.newStock < 0 {
        return Fail(NegativeStock);
      }
      movements := movements + [m];
      assert Contents() == CreateMovementOn(t0, id, movementType, quantity, actor, ref, notes).value;
      CreateMovementKeeps(t0, id, movementType, quantity, actor, ref, notes);
      r := Pass;
    }

    /** `StockEntry.save` for a new entry. */
    method SaveStockEntry(e: StockEntry) returns (r: Outcome)
      requires Valid()
      modifies this
      ensures Valid()
      ensures Committed(r, SaveEntryOn(old(Contents()), e), old(Contents()), Contents())
    {
      ghost var t0 := Contents();
      if e.variant !in variants {
        return Fail(NotFound);
      }
      var v := variants[e.variant];
      if v.stockQuantity + e.quantity < 0 {
        return Fail(NegativeStock);
      }
      entries := entries + [e];
      variants := variants[e.variant := v.(stockQuantity := v.stockQuantity + e.quantity)];
      assert Contents() == SaveEntryOn(t0, e).value;
      SaveEntryKeeps(t0, e);
      r := Pass;
    }

    /** `StockEntry.save` for the stored entry `i`. */
    method ResaveStockEntry(i: nat, e: StockEntry) returns (r: Outcome)
      requires Valid() && i < |entries|
      modifies this
      ensures Valid()
      ensures Committed(r, ResaveEntryOn(old(Contents()), i, e), old(Contents()), Contents())
    {
      ghost var t0 := Contents();
      if e.variant !in variants {
        return Fail(NotFound);
      }
      entries := entries[i := e];
      assert Contents() == ResaveEntryOn(t0, i, e).value;
      ResaveEntryKeeps(t0, i, e);
      r := Pass;
    }

    /** The stock_entry view: the variant must be active and the raw quantity pass
        the form's check; the entry type then decides the sign of the quantity, and
        the entry's save refuses a negative stock and applies the quantity once. */
    method RecordStockEntry(f: EntryForm, actor: EmployeeId) returns (r: Outcome)
      requires Valid()
      modifies this
      ensures Valid()
      ensures Committed(r, RecordEntryOn(old(Contents()), f, actor), old(Contents()), Contents())
    {
      ghost var t0 := Contents();
      if f.variant !in variants || !variants[f.variant].isActive {
        return Fail(NotFound);
      }
      var v := variants[f.variant];
      var cleaned := CleanQuantity(f.quantity, Some(v));
      if cleaned.Err? {
        return Fail(cleaned.error);
      }
      var qty: int := cleaned.value;
      if f.entryType == Damage {
        qty := -(Abs(qty) as int);
      } else if f.entryType == Addition || f.entryType == Return {
        qty := Abs(qty);
      }
      assert qty == NormaliseQuantity(f.entryType, f.quantity);
      RecordEntryIsSave(t0, f, actor);
      r := SaveStockEntry(StockEntry(f.variant, qty, f.entryType, Some(actor), f.notes));
    }

    // -------------------------------------------------------------------------
    // Purchase orders

    /** `OrderItem.mark_as_delivered` on item `i` of order `o`. It is not atomic:
        the item is saved before `add_stock` runs, so a refused amount still leaves
        the item row rewritten (`Database.MarkAsDeliveredLeft`). */
    method MarkAsDelivered(o: OrderId, i: nat, quantity: Option<int>) returns (r: Outcome)
      requires Valid()
      modifies this
      ensures Valid()
      ensures match MarkAsDeliveredOn(old(Contents()), o, i, quantity)
        case Ok(u) => r == Pass && Contents() == u
        case Err(e) => r == Fail(e) && Contents() == MarkAsDeliveredLeft(old(Contents()), o, i, quantity)
    {
      ghost var t0 := Contents();
      if o !in orders || i >= |orders[o].items| || orders[o].items[i].variant !in variants {
        return Fail(NotFound);
      }
      var item := orders[o].items[i];
      var saved := Orders.SavedItem(item, quantity);
      if saved.Err? {
        return Fail(saved.error);
      }
      orders := orders[o := orders[o].(items := orders[o].items[i := saved.value])];
      assert Contents() == MarkAsDeliveredLeft(t0, o, i, quantity);
      MarkAsDeliveredLeftKeeps(t0, o, i, quantity);
      r := AddStock(item.variant, Orders.DeliveryAmount(item, quantity));
      if r.Pass? {
        assert Contents() == MarkAsDeliveredOn(t0, o, i, quantity).value;
      }
    }

    /** One submitted form of the delivery formset, quantity `q` and notes `note`: a
        positive quantity binds the notes to the item, marks it delivered and credits
        its variant; any other leaves both alone. */
    method DeliverItem(item: Orders.OrderItem, q: int, note: string) returns (r: Result<Orders.OrderItem>)
      modifies this
      ensures q > 0 && item.variant !in old(variants) ==> r == Err(NotFound) && variants == old(variants)
      ensures q > 0 && item.variant in old(variants) ==>
        match Orders.MarkAsDelivered(item.(notes := note), old(variants)[item.variant], Some(q))
        case Err(e) => r == Err(e) && variants == old(variants)
        case Ok(res) => r == Ok(res.0) && variants == old(variants)[item.variant := res.1]
      ensures q <= 0 ==> r == Ok(item) && variants == old(variants)
      ensures Contents() == old(Contents()).(variants := variants)
    {
      if q <= 0 {
        return Ok(item);
      }
      if item.variant !in variants {
        return Err(NotFound);
      }
      var res := Orders.MarkAsDelivered(item.(notes := note), variants[item.variant], Some(q));
      if res.Err? {
        return Err(res.error);
      }
      variants := variants[item.variant := res.value.1];
      r := Ok(res.value.0);
    }

    /** The loop of confirm_delivery over the items, in order; a refusal puts the
        variant table back as it was. */
    method DeliverItems(items: seq<Orders.OrderItem>, qs: seq<int>, ns: seq<string>) returns (r: Result<seq<Orders.OrderItem>>)
      requires |qs| == |items| && |ns| == |items|
      modifies this
      ensures match Orders.Deliver(items, old(variants), qs, ns)
        case Err(e) => r == Err(e) && Contents() == old(Contents())
        case Ok(res) => r == Ok(res.0) && Contents() == old(Contents()).(variants := res.1)
    {
      var vs0 := variants;
      var done: seq<Orders.OrderItem> := [];
      var k := 0;
      while k < |items|
        invariant 0 <= k <= |items|
        invariant Orders.Deliver(items[..k], vs0, qs[..k], ns[..k]) == Ok((done, variants))
        invariant Contents() == old(Contents()).(variants := variants)
      {
        assert items[..k + 1][..k] == items[..k] && qs[..k + 1][..k] == qs[..k] && ns[..k + 1][..k] == ns[..k];
        var item := DeliverItem(items[k], qs[k], ns[k]);
        if item.Err? {
          Orders.DeliverPrefixErr(items, vs0, qs, ns, k + 1);
          variants := vs0;
          return Err(item.error);
        }
        done := done + [item.value];
        k := k + 1;
      }
      assert items[..k] == items && qs[..k] == qs && ns[..k] == ns;
      r := Ok(done);
    }

    /** The confirm_delivery view: the formset (a quantity and a notes text per item)
        is validated, every item with a positive submitted quantity takes its notes
        and is marked delivered, in item order, then the status rule is applied and
        the receiver recorded; a failure on any item rolls everything back. */
    method ConfirmDelivery(o: OrderId, qs: seq<int>, ns: seq<string>, actor: EmployeeId, now: Timestamp) returns (r: Outcome)
      requires Valid()
      modifies this
      ensures Valid()
      ensures Committed(r, ConfirmDeliveryOn(old(Contents()), o, qs, ns, actor, now), old(Contents()), Contents())
    {
      ghost var t0 := Contents();
      if o !in orders {
        return Fail(NotFound);
      }
      var order := orders[o];
      if order.status == Orders.Delivered {
        return Fail(AlreadyDelivered);
      }
      if |qs| != |order.items| || |ns| != |order.items| {
        return Fail(FormMismatch);
      }
      var check := Orders.ValidateDeliveries(order.items, qs);
      if check.Fail? {
        return Fail(check.error);
      }
      var done := DeliverItems(order.items, qs, ns);
      if done.Err? {
        return Fail(done.error);
      }
      orders := orders[o := order.(items := done.value, status := Orders.DeliveryStatus(done.value, order.status),
                                   receivedBy := Some(actor), receivedDate := Some(now))];
      assert Contents() == ConfirmDeliveryOn(t0, o, qs, ns, actor, now).value;
      ConfirmDeliveryKeeps(t0, o, qs, ns, actor, now);
      r := Pass;
    }

    /** The create_order view; the new order's key is reported. */
    method CreateOrder(supplier: SupplierId, expected: Option<int>, notes: string,
                       actor: EmployeeId, forms: seq<Orders.OrderItemForm>) returns (r: Result<nat>)
      requires Valid()
      modifies this
      ensures Valid()
      ensures CommittedId(r, CreateOrderOn(old(Contents()), supplier, expected, notes, actor, forms), old(Contents()), Contents())
    {
      ghost var t0 := Contents();
      var order := Orders.NewOrder(supplier, expected, notes, actor, forms, variants);
      if order.Err? {
        return Err(order.error);
      }
      var id := nextId;
      orders := orders[id := order.value];
      nextId := nextId + 1;
      assert Contents() == CreateOrderOn(t0, supplier, expected, notes, actor, forms).value;
      CreateOrderKeeps(t0, supplier, expected, notes, actor, forms);
      r := Ok(id);
    }

    /** The delete_order view. */
    method DeleteOrder(o: OrderId) returns (r: Outcome)
      requires Valid()
      modifies this
      ensures Valid()
      ensures Committed(r, DeleteOrderOn(old(Contents()), o), old(Contents()), Contents())
    {
      ghost var t0 := Contents();
      if o !in orders {
        return Fail(NotFound);
      }
      if orders[o].status == Orders.Delivered {
        return Fail(DeliveredOrder);
      }
      orders := orders - {o};
      assert Contents() == DeleteOrderOn(t0, o).value;
      DeleteOrderKeeps(t0, o);
      r := Pass;
    }

    // -------------------------------------------------------------------------
    // Sales

    /** The stock check of create_sale and complete_sale: the items in order, the
        first one whose variant is missing or short reporting the refusal. Nothing
        is written. */
    method CheckItemsStock(items: seq<Sales.SaleItem>) returns (r: Outcome)
      ensures r == Sales.CheckStock(variants, items)
    {
      var k := 0;
      while k < |items|
        invariant 0 <= k <= |items|
        invariant forall j :: 0 <= j < k ==> Sales.ItemCovered(variants, items[j])
      {
        if items[k].variant !in variants {
          Sales.CheckStockSkip(variants, items, k);
          return Fail(NotFound);
        }
        if variants[items[k].variant].stockQuantity < items[k].quantity {
          Sales.CheckStockSkip(variants, items, k);
          return Fail(InsufficientStock);
        }
        k := k + 1;
      }
      Sales.CheckStockSkip(variants, items, k);
      r := Pass;
    }

    /** The writes of the create_sale view: the filled item forms are validated,
        then each item's stock is checked in turn; the new sale is PENDING and no
        stock moves. */
    method InsertSale(form: Sales.SaleForm, actor: EmployeeId, forms: seq<Sales.SaleItemForm>) returns (r: Result<nat>)
      modifies this
      ensures CommittedId(r, CreateSaleOn(old(Contents()), form, actor, forms), old(Contents()), Contents())
    {
      ghost var t0 := Contents();
      if form.customer !in customers {
        return Err(NotFound);
      }
      var cleaned := Sales.CleanSaleItems(forms, variants);
      if cleaned.Err? {
        return Err(cleaned.error);
      }
      var items := cleaned.value;
      if items == [] {
        return Err(EmptySale);
      }
      var check := CheckItemsStock(items);
      if check.Fail? {
        return Err(check.error);
      }
      var s := Sales.Sale(form.customer, Some(actor), Sales.Pending, form.paymentMethod,
                          form.deliveryRequired, 0, form.notes, items);
      var id := nextId;
      sales := sales[id := s.(deliveryFee := Sales.CalculateDeliveryFee(s))];
      nextId := nextId + 1;
      r := Ok(id);
    }

    /** The create_sale view. */
    method CreateSale(form: Sales.SaleForm, actor: EmployeeId, forms: seq<Sales.SaleItemForm>) returns (r: Result<nat>)
      requires Valid()
      modifies this
      ensures Valid()
      ensures CommittedId(r, CreateSaleOn(old(Contents()), form, actor, forms), old(Contents()), Contents())
    {
      ghost var t0 := Contents();
      r := InsertSale(form, actor, forms);
      if r.Ok? {
        CreateSaleKeeps(t0, form, actor, forms);
      }
    }

    /** One turn of the deduction loop: `reduce_stock` on the item's variant, then
        a SALE movement whose snapshot is the stock before the change. */
    method DeductItem(it: Sales.SaleItem, ref: string, actor: Option<EmployeeId>, notes: string) returns (r: Outcome)
      modifies this
      ensures Committed(r, SaleTurnOn(old(Contents()), it, ref, actor, notes), old(Contents()), Contents())
    {
      if it.variant !in variants {
        return Fail(NotFound);
      }
      var w := variants[it.variant];
      var reduced := Products.ReduceStock(w, it.quantity);
      if reduced.Err? {
        return Fail(reduced.error);
      }
      variants := variants[it.variant := reduced.value];
      movements := movements + [Inventory.CreateMovement(it.variant, w.stockQuantity, SaleMovement, -(it.quantity as int), actor, ref, notes)];
      r := Pass;
    }

    /** The deduction loop of complete_sale; a refusal puts the variants and the
        movement log back as they were. */
    method DeductItems(items: seq<Sales.SaleItem>, ref: string, actor: Option<EmployeeId>, notes: string) returns (r: Outcome)
      modifies this
      ensures Committed(r, DeductOn(old(Contents()), items, ref, actor, notes), old(Contents()), Contents())
    {
      var t0 := Contents();
      assert items[..0] == [] && t0.movements + [] == t0.movements;
      var k := 0;
      while k < |items|
        invariant 0 <= k <= |items|
        invariant DeductOn(t0, items[..k], ref, actor, notes) == Ok(Contents())
      {
        DeductOnStep(t0, items, k, ref, actor, notes);
        r := DeductItem(items[k], ref, actor, notes);
        if r.Fail? {
          Sales.DeductPrefixErr(t0.variants, items, k + 1, ref, actor, notes);
          Rollback(t0);
          return;
        }
        k := k + 1;
      }
      assert items[..k] == items;
      r := Pass;
    }

    /** `Sale.complete_sale`: every item's stock is checked before anything is
        deducted; then each item in turn reduces its variant's stock and logs a SALE
        movement; then the sale is COMPLETED with its delivery fee refreshed. */
    method CompleteSale(id: SaleId) returns (r: Outcome)
      requires Valid()
      modifies this
      ensures Valid()
      ensures Committed(r, CompleteSaleOn(old(Contents()), id), old(Contents()), Contents())
    {
      ghost var t0 := Contents();
      if id !in sales || sales[id].customer !in customers {
        return Fail(NotFound);
      }
      var s := sales[id];
      if s.status == Sales.Completed {
        return Fail(AlreadyCompleted);
      }
      if s.items == [] {
        return Fail(EmptySale);
      }
      var check := CheckItemsStock(s.items);
      if check.Fail? {
        return check;
      }
      var deducted := DeductItems(s.items, Sales.SaleReference(id), s.createdBy,
                                  Sales.SaleNotes(Sales.CustomerName(customers[s.customer])));
      if deducted.Fail? {
        return deducted;
      }
      sales := sales[id := s.(status := Sales.Completed, deliveryFee := Sales.CalculateDeliveryFee(s))];
      assert Contents() == CompleteSaleOn(t0, id).value;
      CompleteSaleKeeps(t0, id);
      r := Pass;
    }

    /** One turn of the restoring loop: `add_stock` on the item's variant, then a
        RETURN movement. */
    method ReturnItem(it: Sales.SaleItem, ref: string, actor: Option<EmployeeId>, notes: string) returns (r: Outcome)
      modifies this
      ensures Committed(r, ReturnTurnOn(old(Contents()), it, ref, actor, notes), old(Contents()), Contents())
    {
      if it.variant !in variants {
        return Fail(NotFound);
      }
      var w := variants[it.variant];
      var added := Products.AddStock(w, it.quantity);
      if added.Err? {
        return Fail(added.error);
      }
      variants := variants[it.variant := added.value];
      movements := movements + [Inventory.CreateMovement(it.variant, w.stockQuantity, ReturnMovement, it.quantity, actor, ref, notes)];
      r := Pass;
    }

    /** The restoring loop of cancel_sale; a refusal puts the variants and the
        movement log back as they were. */
    method ReturnItems(items: seq<Sales.SaleItem>, ref: string, actor: Option<EmployeeId>, notes: string) returns (r: Outcome)
      modifies this
      ensures Committed(r, RestoreOn(old(Contents()), items, ref, actor, notes), old(Contents()), Contents())
    {
      var t0 := Contents();
      assert items[..0] == [] && t0.movements + [] == t0.movements;
      var k := 0;
      while k < |items|
        invariant 0 <= k <= |items|
        invariant RestoreOn(t0, items[..k], ref, actor, notes) == Ok(Contents())
      {
        RestoreOnStep(t0, items, k, ref, actor, notes);
        r := ReturnItem(items[k], ref, actor, notes);
        if r.Fail? {
          Sales.RestorePrefixErr(t0.variants, items, k + 1, ref, actor, notes);
          Rollback(t0);
          return;
        }
        k := k + 1;
      }
      assert items[..k] == items;
      r := Pass;
    }

    /** The writes of `Sale.cancel_sale`: a COMPLETED sale gives each item's
        quantity back with a RETURN movement; a PENDING one only changes status. */
    method MarkCancelled(id: SaleId) returns (r: Outcome)
      modifies this
      ensures Committed(r, CancelSaleOn(old(Contents()), id), old(Contents()), Contents())
    {
      ghost var t0 := Contents();
      if id !in sales || sales[id].customer !in customers {
        return Fail(NotFound);
      }
      var s := sales[id];
      if s.status == Sales.Cancelled {
        return Fail(AlreadyCancelled);
      }
      if s.status == Sales.Completed {
        r := ReturnItems(s.items, Sales.CancelReference(id), s.createdBy,
                         Sales.CancelNotes(Sales.CustomerName(customers[s.customer])));
        if r.Fail? {
          return;
        }
      } else {
        assert movements == t0.movements + [];
      }
      sales := sales[id := s.(status := Sales.Cancelled)];
      r := Pass;
    }

    /** `Sale.cancel_sale`, which keeps the database consistent. */
    method CancelSale(id: SaleId) returns (r: Outcome)
      requires Valid()
      modifies this
      ensures Valid()
      ensures Committed(r, CancelSaleOn(old(Contents()), id), old(Contents()), Contents())
    {
      ghost var t0 := Contents();
      r := MarkCancelled(id);
      if r.Pass? {
        CancelSaleKeeps(t0, id);
      }
    }

    /** The delete_sale view. */
    method DeleteSale(id: SaleId) returns (r: Outcome)
      requires Valid()
      modifies this
      ensures Valid()
      ensures Committed(r, DeleteSaleOn(old(Contents()), id), old(Contents()), Contents())
    {
      ghost var t0 := Contents();
      if id !in sales {
        return Fail(NotFound);
      }
      if sales[id].status == Sales.Completed {
        return Fail(CompletedSale);
      }
      sales := sales - {id};
      assert Contents() == DeleteSaleOn(t0, id).value;
      DeleteSaleKeeps(t0, id);
      r := Pass;
    }

    /** The delete_customer view. */
    method DeleteCustomer(c: CustomerId) returns (r: Outcome)
      requires Valid()
      modifies this
      ensures Valid()
      ensures Committed(r, DeleteCustomerOn(old(Contents()), c), old(Contents()), Contents())
    {
      ghost var t0 := Contents();
      if c !in customers {
        return Fail(NotFound);
      }
      if exists id :: id in sales && sales[id].customer == c {
        return Fail(InUse);
      }
      customers := customers - {c};
      assert Contents() == DeleteCustomerOn(t0, c).value;
      DeleteCustomerKeeps(t0, c);
      r := Pass;
    }

    // -------------------------------------------------------------------------
    // Products

    /** One new variant form: the row is saved under the next key with stock 0,
        and a positive initial stock then goes in through an ADDITION entry. */
    method SaveNewVariant(pid: ProductId, productName: string, input: VariantInput, actor: EmployeeId, heading: string)
      modifies this
      ensures Contents() == AddVariant(old(Contents()), pid, productName, input, actor, heading).value
    {
      var id := nextId;
      variants := variants[id := NewVariant(pid, input.form)];
      nextId := nextId + 1;
      if input.stock > 0 {
        var v := variants[id];
        entries := entries + [StockEntry(id, input.stock, Addition, Some(actor), StockNote(heading, productName, input.form.variantName))];
        variants := variants[id := v.(stockQuantity := v.stockQuantity + input.stock)];
      }
    }

    /** The loop over new variant forms shared by create_product and
        update_product. */
    method SaveNewVariants(pid: ProductId, productName: string, ins: seq<VariantInput>, actor: EmployeeId, heading: string)
      modifies this
      ensures Contents() == Catalog.AddVariants(old(Contents()), pid, productName, ins, actor, heading).value
    {
      ghost var t0 := Contents();
      var k := 0;
      while k < |ins|
        invariant 0 <= k <= |ins|
        invariant Contents() == Catalog.AddVariants(t0, pid, productName, ins[..k], actor, heading).value
      {
        assert ins[..k + 1][..k] == ins[..k];
        assert Catalog.AddVariants(t0, pid, productName, ins[..k + 1], actor, heading) ==
               AddVariant(Contents(), pid, productName, ins[k], actor, heading);
        SaveNewVariant(pid, productName, ins[k], actor, heading);
        k := k + 1;
      }
      assert ins[..k] == ins;
    }

    /** The create_product view; the new product's key is reported. */
    method CreateProduct(f: ProductForm, ins: seq<VariantInput>, actor: EmployeeId) returns (r: Result<nat>)
      requires Valid()
      modifies this
      ensures Valid()
      ensures CommittedId(r, CreateProductOn(old(Contents()), f, ins, actor), old(Contents()), Contents())
    {
      ghost var t0 := Contents();
      var cleaned := CleanProductForm(Contents(), f);
      if cleaned.Fail? {
        return Err(cleaned.error);
      }
      var formset := CleanVariantInputs(ins);
      if formset.Fail? {
        return Err(formset.error);
      }
      var minimum := CheckFormsetMinimum(|ins|, 1);
      if minimum.Fail? {
        return Err(minimum.error);
      }
      var pid := nextId;
      products := products[pid := Product(f.name, f.category, f.unit, f.supplier, f.description, true)];
      nextId := nextId + 1;
      ghost var t1 := Contents();
      assert t1 == t0.(products := t0.products[pid := Product(f.name, f.category, f.unit, f.supplier, f.description, true)],
                       nextId := pid + 1);
      assert CreateProductOn(t0, f, ins, actor) == AddVariants(t1, pid, f.name, ins, actor, InitialStockLabel);
      SaveNewVariants(pid, f.name, ins, actor, InitialStockLabel);
      assert Contents() == CreateProductOn(t0, f, ins, actor).value;
      CreateProductKeeps(t0, f, ins, actor);
      r := Ok(pid);
    }

    /** One kept variant form: the row takes the form's fields and is written with
        the stock it had when the update began; a difference from the form's stock
        then goes in through an ADJUSTMENT entry. */
    method SaveKeptVariant(before: Variants, productName: string, k: KeptVariant, actor: EmployeeId)
      requires k.id in variants && k.id in before
      modifies this
      ensures Contents() == KeepVariant(old(Contents()), before, productName, k, actor).value
    {
      var oldStock := before[k.id].stockQuantity;
      var difference := k.input.stock - oldStock;
      variants := variants[k.id := variants[k.id].(variantName := k.input.form.variantName, price := PriceOf(k.input.form),
                                                   reorderLevel := k.input.form.reorderLevel, stockQuantity := oldStock)];
      if difference != 0 {
        var v := variants[k.id];
        entries := entries + [StockEntry(k.id, difference, Adjustment, Some(actor), StockNote(AdjustmentLabel, productName, k.input.form.variantName))];
        variants := variants[k.id := v.(stockQuantity := v.stockQuantity + difference)];
      }
    }

    /** The loop over the kept variant forms, in order. */
    method SaveKeptVariants(before: Variants, productName: string, kept: seq<KeptVariant>, actor: EmployeeId)
      requires forall i :: 0 <= i < |kept| ==> kept[i].id in variants && kept[i].id in before
      modifies this
      ensures Contents() == KeepVariants(old(Contents()), before, productName, kept, actor).value
    {
      ghost var t0 := Contents();
      var k := 0;
      while k < |kept|
        invariant 0 <= k <= |kept|
        invariant KeepVariants(t0, before, productName, kept[..k], actor) == Ok(Contents())
      {
        assert kept[..k + 1][..k] == kept[..k];
        SaveKeptVariant(before, productName, kept[k], actor);
        k := k + 1;
      }
      assert kept[..k] == kept;
    }

    /** `variant.delete()`: refused while a sale item or an order item refers to the
        variant; otherwise its entries and movements go with it. */
    method DeleteVariant(id: VariantId) returns (r: Outcome)
      modifies this
      ensures Committed(r, DeleteVariantOn(old(Contents()), id), old(Contents()), Contents())
    {
      if id !in variants {
        return Fail(NotFound);
      }
      if VariantInUse(Contents(), id) {
        return Fail(InUse);
      }
      variants := variants - {id};
      entries := EntriesWithout(entries, {id});
      movements := MovementsWithout(movements, {id});
      r := Pass;
    }

    /** The loop over the variants marked for deletion, in order; a refusal puts
        every table back as it was. */
    method DeleteVariants(removed: seq<VariantId>) returns (r: Outcome)
      modifies this
      ensures Committed(r, Catalog.DeleteVariants(old(Contents()), removed), old(Contents()), Contents())
    {
      var t0 := Contents();
      var k := 0;
      while k < |removed|
        invariant 0 <= k <= |removed|
        invariant Catalog.DeleteVariants(t0, removed[..k]) == Ok(Contents())
      {
        assert removed[..k + 1][..k] == removed[..k];
        var step := DeleteVariant(removed[k]);
        if step.Fail? {
          DeleteVariantsPrefixErr(t0, removed, k + 1);
          Rollback(t0);
          return step;
        }
        k := k + 1;
      }
      assert removed[..k] == removed;
      r := Pass;
    }

    /** The update_product view: the product form and the variant formset are
        validated against the product's rows; then, in one transaction, the
        product's fields, each kept variant re-saved, the new variants and the
        deletions; a refused deletion rolls everything back. */
    method UpdateProduct(pid: ProductId, f: ProductForm, kept: seq<KeptVariant>,
                         added: seq<VariantInput>, removed: seq<VariantId>, actor: EmployeeId) returns (r: Outcome)
      requires Valid()
      modifies this
      ensures Valid()
      ensures Committed(r, UpdateProductOn(old(Contents()), pid, f, kept, added, removed, actor), old(Contents()), Contents())
    {
      var t0 := Contents();
      if pid !in products {
        return Fail(NotFound);
      }
      var cleaned := CleanProductForm(t0, f);
      if cleaned.Fail? {
        return cleaned;
      }
      if !FormsMatch(t0, pid, kept, removed) {
        return Fail(FormMismatch);
      }
      var formset := CleanVariantInputs(KeptInputs(kept) + added);
      if formset.Fail? {
        return formset;
      }
      var minimum := CheckFormsetMinimum(|kept| + |added|, 1);
      if minimum.Fail? {
        return minimum;
      }
      UpdateProductSteps(t0, pid, f, kept, added, removed, actor);
      products := products[pid := UpdatedProduct(products[pid], f)];
      ghost var t1 := Contents();
      assert t1 == t0.(products := t0.products[pid := UpdatedProduct(t0.products[pid], f)]);
      SaveKeptVariants(t0.variants, f.name, kept, actor);
      ghost var t2 := Contents();
      SaveNewVariants(pid, f.name, added, actor, NewVariantLabel);
      ghost var t3 := Contents();
      assert t3 == AddVariants(t2, pid, f.name, added, actor, NewVariantLabel).value;
      assert UpdateProductOn(t0, pid, f, kept, added, removed, actor) == Catalog.DeleteVariants(t3, removed);
      r := DeleteVariants(removed);
      if r.Fail? {
        Rollback(t0);
        return;
      }
      UpdateProductKeeps(t0, pid, f, kept, added, removed, actor);
    }

    /** The delete of a product row: refused while a variant of the product has a
        sale item or an order item; otherwise the cascade deletes its variants and
        their entries and movements. */
    method CascadeDeleteProduct(pid: ProductId) returns (r: Outcome)
      modifies this
      ensures Committed(r, DeleteProductOn(old(Contents()), pid), old(Contents()), Contents())
    {
      if pid !in products {
        return Fail(NotFound);
      }
      var gone := VariantsOf(Contents(), pid);
      if exists v :: v in gone && VariantInUse(Contents(), v) {
        return Fail(InUse);
      }
      products := products - {pid};
      variants := VariantsWithout(variants, gone);
      entries := EntriesWithout(entries, gone);
      movements := MovementsWithout(movements, gone);
      r := Pass;
    }

    /** The delete_product view, which keeps the database consistent. */
    method DeleteProduct(pid: ProductId) returns (r: Outcome)
      requires Valid()
      modifies this
      ensures Valid()
      ensures Committed(r, DeleteProductOn(old(Contents()), pid), old(Contents()), Contents())
    {
      ghost var t0 := Contents();
      r := CascadeDeleteProduct(pid);
      if r.Pass? {
        DeleteProductKeeps(t0, pid);
      }
    }

    /** The delete_category view. */
    method DeleteCategory(c: CategoryId) returns (r: Outcome)
      requires Valid()
      modifies this
      ensures Valid()
      ensures Committed(r, DeleteCategoryOn(old(Contents()), c), old(Contents()), Contents())
    {
      ghost var t0 := Contents();
      if c !in categories {
        return Fail(NotFound);
      }
      if exists p :: p in products && products[p].category == c {
        return Fail(InUse);
      }
      categories := categories - {c};
      assert Contents() == DeleteCategoryOn(t0, c).value;
      DeleteCategoryKeeps(t0, c);
      r := Pass;
    }

    /** The delete_unit view. */
    method DeleteUnit(u: UnitId) returns (r: Outcome)
      requires Valid()
      modifies this
      ensures Valid()
      ensures Committed(r, DeleteUnitOn(old(Contents()), u), old(Contents()), Contents())
    {
      ghost var t0 := Contents();
      if u !in units {
        return Fail(NotFound);
      }
      if exists p :: p in products && products[p].unit == u {
        return Fail(InUse);
      }
      units := units - {u};
      assert Contents() == DeleteUnitOn(t0, u).value;
      DeleteUnitKeeps(t0, u);
      r := Pass;
    }
  }
}
