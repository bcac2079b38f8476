/** Referential integrity of the ledger's tables: every operation that succeeds
    keeps every foreign key pointing at an existing row and every key below the
    counter. Deletions keep it because they are refused while a protecting row
    still refers to the deleted one, and the cascades take the dependent rows. */
module Integrity {
  import opened Common
  import opened Products
  import opened Inventory
  import Orders
  import Sales
  import opened Database
  import opened Catalog

  /** The variant table changed only in stock columns: every table that refers to
      a variant stays consistent. */
  lemma StockOnlyChange(t: Tables, u: Tables)
    requires Consistent(t)
    requires u == t.(variants := u.variants, entries := u.entries, movements := u.movements)
    requires u.variants.Keys == t.variants.Keys
    requires forall v :: v in u.variants ==> u.variants[v].product == t.variants[v].product
    requires EntriesIn(u.entries, u.variants) && MovementsIn(u.movements, u.variants)
    ensures Consistent(u)
  {
    forall o | o in u.orders ensures OrderItemsIn(u.orders[o], u.variants) {
      assert OrderItemsIn(t.orders[o], t.variants);
    }
    forall s | s in u.sales ensures SaleItemsIn(u.sales[s], u.variants) {
      assert SaleItemsIn(t.sales[s], t.variants);
    }
  }

  lemma AddStockKeeps(t: Tables, id: VariantId, quantity: int)
    requires Consistent(t) && AddStockOn(t, id, quantity).Ok?
    ensures Consistent(AddStockOn(t, id, quantity).value)
  {
    StockOnlyChange(t, AddStockOn(t, id, quantity).value);
  }

  lemma ReduceStockKeeps(t: Tables, id: VariantId, quantity: int)
    requires Consistent(t) && ReduceStockOn(t, id, quantity).Ok?
    ensures Consistent(ReduceStockOn(t, id, quantity).value)
  {
    StockOnlyChange(t, ReduceStockOn(t, id, quantity).value);
  }

  lemma CreateMovementKeeps(t: Tables, id: VariantId, movementType: MovementType, quantity: int,
                            actor: Option<EmployeeId>, ref: string, notes: string)
    requires Consistent(t) && CreateMovementOn(t, id, movementType, quantity, actor, ref, notes).Ok?
    ensures Consistent(CreateMovementOn(t, id, movementType, quantity, actor, ref, notes).value)
  {
  }

  lemma SaveEntryKeeps(t: Tables, e: StockEntry)
    requires Consistent(t) && SaveEntryOn(t, e).Ok?
    ensures Consistent(SaveEntryOn(t, e).value)
  {
    StockOnlyChange(t, SaveEntryOn(t, e).value);
  }

  lemma ResaveEntryKeeps(t: Tables, i: nat, e: StockEntry)
    requires i < |t.entries|
    requires Consistent(t) && ResaveEntryOn(t, i, e).Ok?
    ensures Consistent(ResaveEntryOn(t, i, e).value)
  {
  }

  lemma RecordEntryKeeps(t: Tables, f: EntryForm, actor: EmployeeId)
    requires Consistent(t) && RecordEntryOn(t, f, actor).Ok?
    ensures Consistent(RecordEntryOn(t, f, actor).value)
  {
    StockOnlyChange(t, RecordEntryOn(t, f, actor).value);
  }

  lemma MarkAsDeliveredLeftKeeps(t: Tables, o: OrderId, i: nat, quantity: Option<int>)
    requires Consistent(t)
    ensures Consistent(MarkAsDeliveredLeft(t, o, i, quantity))
  {
    var u := MarkAsDeliveredLeft(t, o, i, quantity);
    forall p | p in u.orders ensures OrderItemsIn(u.orders[p], u.variants) {
      assert OrderItemsIn(t.orders[p], t.variants);
    }
  }

  lemma MarkAsDeliveredKeeps(t: Tables, o: OrderId, i: nat, quantity: Option<int>)
    requires Consistent(t) && MarkAsDeliveredOn(t, o, i, quantity).Ok?
    ensures Consistent(MarkAsDeliveredOn(t, o, i, quantity).value)
  {
    var u := MarkAsDeliveredOn(t, o, i, quantity).value;
    forall p | p in u.orders ensures OrderItemsIn(u.orders[p], u.variants) {
      assert OrderItemsIn(t.orders[p], t.variants);
    }
    forall s | s in u.sales ensures SaleItemsIn(u.sales[s], u.variants) {
      assert SaleItemsIn(t.sales[s], t.variants);
    }
  }

  lemma ConfirmDeliveryKeeps(t: Tables, o: OrderId, qs: seq<int>, ns: seq<string>, actor: EmployeeId, now: Timestamp)
    requires Consistent(t) && ConfirmDeliveryOn(t, o, qs, ns, actor, now).Ok?
    ensures Consistent(ConfirmDeliveryOn(t, o, qs, ns, actor, now).value)
  {
    var order := t.orders[o];
    assert OrderItemsIn(order, t.variants);
    assert |qs| == |order.items| && |ns| == |order.items|;
    Orders.DeliverFacts(order.items, t.variants, qs, ns);
    var u := ConfirmDeliveryOn(t, o, qs, ns, actor, now).value;
    var (its, ws) := Orders.Deliver(order.items, t.variants, qs, ns).value;
    forall v | v in ws ensures ws[v].product == t.variants[v].product {
      Orders.DeliverCredits(order.items, t.variants, qs, ns, v);
    }
    assert u.orders[o].items == its;
    forall p | p in u.orders ensures OrderItemsIn(u.orders[p], u.variants) {
      if p != o {
        assert OrderItemsIn(t.orders[p], t.variants);
      }
    }
    forall s | s in u.sales ensures SaleItemsIn(u.sales[s], u.variants) {
      assert SaleItemsIn(t.sales[s], t.variants);
    }
  }

  lemma CreateOrderKeeps(t: Tables, supplier: SupplierId, expected: Option<int>, notes: string,
                         actor: EmployeeId, forms: seq<Orders.OrderItemForm>)
    requires Consistent(t) && CreateOrderOn(t, supplier, expected, notes, actor, forms).Ok?
    ensures Consistent(CreateOrderOn(t, supplier, expected, notes, actor, forms).value)
  {
    var order := Orders.NewOrder(supplier, expected, notes, actor, forms, t.variants).value;
    assert OrderItemsIn(order, t.variants);
  }

  lemma DeleteOrderKeeps(t: Tables, o: OrderId)
    requires Consistent(t) && DeleteOrderOn(t, o).Ok?
    ensures Consistent(DeleteOrderOn(t, o).value)
  {
  }

  lemma CreateSaleKeeps(t: Tables, form: Sales.SaleForm, actor: EmployeeId, forms: seq<Sales.SaleItemForm>)
    requires Consistent(t) && CreateSaleOn(t, form, actor, forms).Ok?
    ensures Consistent(CreateSaleOn(t, form, actor, forms).value)
  {
    var s := Sales.CreateSale(t.variants, t.customers, form, actor, forms).value;
    assert s.customer in t.customers && SaleItemsIn(s, t.variants) by {
      Sales.CreateSaleFacts(t.variants, t.customers, form, actor, forms);
    }
    var u := CreateSaleOn(t, form, actor, forms).value;
    assert u == t.(sales := t.sales[t.nextId := s], nextId := t.nextId + 1);
  }

  /** A sale's stock moves written back: the variants keep their keys and
      products, the new movements name known variants, and the sale keeps its
      customer and items. */
  lemma SaleMovesKeep(t: Tables, id: SaleId, ws: Variants, ms: seq<StockMovement>, s1: Sales.Sale)
    requires Consistent(t) && id in t.sales
    requires ws.Keys == t.variants.Keys && forall v :: v in ws ==> ws[v].product == t.variants[v].product
    requires forall i :: 0 <= i < |ms| ==> ms[i].variant in t.variants
    requires s1.customer == t.sales[id].customer && s1.items == t.sales[id].items
    ensures Consistent(t.(variants := ws, movements := t.movements + ms, sales := t.sales[id := s1]))
  {
    var u := t.(variants := ws, movements := t.movements + ms, sales := t.sales[id := s1]);
    forall p | p in u.orders ensures OrderItemsIn(u.orders[p], u.variants) {
      assert OrderItemsIn(t.orders[p], t.variants);
    }
    forall x | x in u.sales ensures SaleItemsIn(u.sales[x], u.variants) {
      assert SaleItemsIn(t.sales[x], t.variants);
    }
  }

  lemma CompleteSaleKeeps(t: Tables, id: SaleId)
    requires Consistent(t) && CompleteSaleOn(t, id).Ok?
    ensures Consistent(CompleteSaleOn(t, id).value)
  {
    var s := t.sales[id];
    var name := Sales.CustomerName(t.customers[s.customer]);
    var res := Sales.CompleteSale(t.variants, s, id, name).value;
    Sales.CompleteSaleRefs(t.variants, s, id, name);
    SaleMovesKeep(t, id, res.0, res.1, res.2);
  }

  lemma CancelSaleKeeps(t: Tables, id: SaleId)
    requires Consistent(t) && CancelSaleOn(t, id).Ok?
    ensures Consistent(CancelSaleOn(t, id).value)
  {
    var s := t.sales[id];
    var name := Sales.CustomerName(t.customers[s.customer]);
    var res := Sales.CancelSale(t.variants, s, id, name).value;
    Sales.CancelSaleRefs(t.variants, s, id, name);
    SaleMovesKeep(t, id, res.0, res.1, res.2);
  }

  lemma DeleteSaleKeeps(t: Tables, id: SaleId)
    requires Consistent(t) && DeleteSaleOn(t, id).Ok?
    ensures Consistent(DeleteSaleOn(t, id).value)
  {
  }

  lemma DeleteCustomerKeeps(t: Tables, c: CustomerId)
    requires Consistent(t) && DeleteCustomerOn(t, c).Ok?
    ensures Consistent(DeleteCustomerOn(t, c).value)
  {
  }

  /** One new variant of an existing product keeps the tables consistent: its key
      is the counter, which no row holds yet. */
  lemma AddVariantKeeps(t: Tables, pid: ProductId, productName: string, input: VariantInput,
                        actor: EmployeeId, heading: string)
    requires Consistent(t) && pid in t.products
    ensures Consistent(AddVariant(t, pid, productName, input, actor, heading).value)
  {
    var u := AddVariant(t, pid, productName, input, actor, heading).value;
    forall o | o in u.orders ensures OrderItemsIn(u.orders[o], u.variants) {
      assert OrderItemsIn(t.orders[o], t.variants);
    }
    forall s | s in u.sales ensures SaleItemsIn(u.sales[s], u.variants) {
      assert SaleItemsIn(t.sales[s], t.variants);
    }
  }

  lemma {:induction false} AddVariantsKeeps(t: Tables, pid: ProductId, productName: string, ins: seq<VariantInput>,
                                            actor: EmployeeId, heading: string)
    requires Consistent(t) && pid in t.products
    ensures Consistent(AddVariants(t, pid, productName, ins, actor, heading).value)
    decreases |ins|
  {
    if ins != [] {
      var n := |ins| - 1;
      AddVariantsKeeps(t, pid, productName, ins[..n], actor, heading);
      var t1 := AddVariants(t, pid, productName, ins[..n], actor, heading).value;
      AddVariantKeeps(t1, pid, productName, ins[n], actor, heading);
    }
  }

  lemma CreateProductKeeps(t: Tables, f: ProductForm, ins: seq<VariantInput>, actor: EmployeeId)
    requires Consistent(t) && CreateProductOn(t, f, ins, actor).Ok?
    ensures Consistent(CreateProductOn(t, f, ins, actor).value)
  {
    var pid := t.nextId;
    var t1 := t.(products := t.products[pid := Product(f.name, f.category, f.unit, f.supplier, f.description, true)],
                 nextId := pid + 1);
    assert Consistent(t1);
    AddVariantsKeeps(t1, pid, f.name, ins, actor, InitialStockLabel);
  }

  /** Saving a kept variant rewrites a row of the same product. */
  lemma KeepVariantKeeps(t: Tables, before: Variants, productName: string, k: KeptVariant, actor: EmployeeId)
    requires Consistent(t) && KeepVariant(t, before, productName, k, actor).Ok?
    ensures Consistent(KeepVariant(t, before, productName, k, actor).value)
  {
    StockOnlyChange(t, KeepVariant(t, before, productName, k, actor).value);
  }

  lemma {:induction false} KeepVariantsKeeps(t: Tables, before: Variants, productName: string, kept: seq<KeptVariant>,
                                             actor: EmployeeId)
    requires Consistent(t) && KeepVariants(t, before, productName, kept, actor).Ok?
    ensures Consistent(KeepVariants(t, before, productName, kept, actor).value)
    decreases |kept|
  {
    if kept != [] {
      var n := |kept| - 1;
      KeepVariantsKeeps(t, before, productName, kept[..n], actor);
      var t1 := KeepVariants(t, before, productName, kept[..n], actor).value;
      KeepVariantKeeps(t1, before, productName, kept[n], actor);
    }
  }

  /** Deleting a variant no sale item or order item refers to: its entries and
      movements go with it, so nothing is left pointing at it. */
  lemma DeleteVariantKeeps(t: Tables, id: VariantId)
    requires Consistent(t) && DeleteVariantOn(t, id).Ok?
    ensures Consistent(DeleteVariantOn(t, id).value)
  {
    var u := DeleteVariantOn(t, id).value;
    forall o | o in u.orders ensures OrderItemsIn(u.orders[o], u.variants) {
      assert OrderItemsIn(t.orders[o], t.variants);
      assert !OrderUses(t.orders[o], id);
    }
    forall s | s in u.sales ensures SaleItemsIn(u.sales[s], u.variants) {
      assert SaleItemsIn(t.sales[s], t.variants);
      assert !SaleUses(t.sales[s], id);
    }
    forall i | 0 <= i < |u.entries| ensures u.entries[i].variant in u.variants {
      assert u.entries[i] in t.entries;
    }
    forall i | 0 <= i < |u.movements| ensures u.movements[i].variant in u.variants {
      assert u.movements[i] in t.movements;
    }
  }

  lemma {:induction false} DeleteVariantsKeeps(t: Tables, removed: seq<VariantId>)
    requires Consistent(t) && DeleteVariants(t, removed).Ok?
    ensures Consistent(DeleteVariants(t, removed).value)
    decreases |removed|
  {
    if removed != [] {
      var n := |removed| - 1;
      DeleteVariantsKeeps(t, removed[..n]);
      var t1 := DeleteVariants(t, removed[..n]).value;
      DeleteVariantKeeps(t1, removed[n]);
    }
  }

  lemma UpdateProductKeeps(t: Tables, pid: ProductId, f: ProductForm, kept: seq<KeptVariant>,
                           added: seq<VariantInput>, removed: seq<VariantId>, actor: EmployeeId)
    requires Consistent(t) && UpdateProductOn(t, pid, f, kept, added, removed, actor).Ok?
    ensures Consistent(UpdateProductOn(t, pid, f, kept, added, removed, actor).value)
  {
    var p := t.products[pid].(name := f.name, category := f.category, unit := f.unit,
                               supplier := f.supplier, description := f.description);
    var t1 := t.(products := t.products[pid := p]);
    assert Consistent(t1);
    KeepVariantsKeeps(t1, t.variants, f.name, kept, actor);
    var t2 := KeepVariants(t1, t.variants, f.name, kept, actor).value;
    AddVariantsKeeps(t2, pid, f.name, added, actor, NewVariantLabel);
    var t3 := AddVariants(t2, pid, f.name, added, actor, NewVariantLabel).value;
    DeleteVariantsKeeps(t3, removed);
  }

  /** Deleting a product none of whose variants is used: the cascade removes its
      variants with their entries and movements, and no other row referred to them. */
  lemma DeleteProductKeeps(t: Tables, pid: ProductId)
    requires Consistent(t) && DeleteProductOn(t, pid).Ok?
    ensures Consistent(DeleteProductOn(t, pid).value)
  {
    var u := DeleteProductOn(t, pid).value;
    var gone := VariantsOf(t, pid);
    forall o | o in u.orders ensures OrderItemsIn(u.orders[o], u.variants) {
      assert OrderItemsIn(t.orders[o], t.variants);
      forall i | 0 <= i < |u.orders[o].items| ensures u.orders[o].items[i].variant in u.variants {
        var v := u.orders[o].items[i].variant;
        if v in gone {
          assert OrderUses(t.orders[o], v);
          assert false;
        }
      }
    }
    forall s | s in u.sales ensures SaleItemsIn(u.sales[s], u.variants) {
      assert SaleItemsIn(t.sales[s], t.variants);
      forall i | 0 <= i < |u.sales[s].items| ensures u.sales[s].items[i].variant in u.variants {
        var v := u.sales[s].items[i].variant;
        if v in gone {
          assert SaleUses(t.sales[s], v);
          assert false;
        }
      }
    }
    forall i | 0 <= i < |u.entries| ensures u.entries[i].variant in u.variants {
      assert u.entries[i] in t.entries;
    }
    forall i | 0 <= i < |u.movements| ensures u.movements[i].variant in u.variants {
      assert u.movements[i] in t.movements;
    }
  }

  lemma DeleteCategoryKeeps(t: Tables, c: CategoryId)
    requires Consistent(t) && DeleteCategoryOn(t, c).Ok?
    ensures Consistent(DeleteCategoryOn(t, c).value)
  {
  }

  lemma DeleteUnitKeeps(t: Tables, c: UnitId)
    requires Consistent(t) && DeleteUnitOn(t, c).Ok?
    ensures Consistent(DeleteUnitOn(t, c).value)
  {
  }
}
