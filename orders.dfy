/** orders/models.py, orders/forms.py and the delivery rules of orders/views.py:
    purchase orders, their line items, the delivery form's checks and the status
    rule applied after a delivery is confirmed. */
module Orders {
  import opened Common
  import opened Products

  datatype OrderStatus = Pending | Delivered | Partial | Cancelled

  datatype OrderItem = OrderItem(
    variant: VariantId,
    quantity: nat,
    deliveredQuantity: nat,
    unitPrice: int,
    isDelivered: bool,
    notes: string)

  datatype Order = Order(
    supplier: SupplierId,
    createdBy: Option<EmployeeId>,
    receivedBy: Option<EmployeeId>,
    receivedDate: Option<Timestamp>,
    status: OrderStatus,
    expectedDelivery: Option<int>,
    notes: string,
    items: seq<OrderItem>)

  function Subtotal(item: OrderItem): int {
    item.quantity * item.unitPrice
  }

  /** `Order.total_amount`: the sum of the items' subtotals. It is never negative
      while no unit price is. */
  function TotalAmount(items: seq<OrderItem>): (r: int)
    ensures (forall i :: 0 <= i < |items| ==> items[i].unitPrice >= 0) ==> r >= 0
  {
    if items == [] then 0 else TotalAmount(items[..|items| - 1]) + Subtotal(items[|items| - 1])
  }

  /** Replacing an item by one with the same subtotal (as every delivery does: it
      touches neither the ordered quantity nor the price) keeps the order total. */
  lemma {:induction false} TotalAmountReplace(items: seq<OrderItem>, i: nat, item: OrderItem)
    requires i < |items| && Subtotal(item) == Subtotal(items[i])
    ensures TotalAmount(items[i := item]) == TotalAmount(items)
  {
    var n := |items| - 1;
    if i == n {
      assert items[i := item][..n] == items[..n];
    } else {
      assert items[i := item][..n] == items[..n][i := item];
      TotalAmountReplace(items[..n], i, item);
    }
  }

  /** The total of two batches of items is the sum of their totals. */
  lemma {:induction false} TotalAmountAppend(a: seq<OrderItem>, b: seq<OrderItem>)
    ensures TotalAmount(a + b) == TotalAmount(a) + TotalAmount(b)
    decreases |b|
  {
    if b != [] {
      var n := |b| - 1;
      assert (a + b)[..|a + b| - 1] == a + b[..n];
      TotalAmountAppend(a, b[..n]);
    } else {
      assert a + b == a;
    }
  }

  /** `remaining_quantity`, which orders/models.py does not define: what is still
      to be delivered. Negative once an item has been over-delivered. */
  function RemainingQuantity(item: OrderItem): int {
    item.quantity - item.deliveredQuantity
  }

  /** `is_fully_delivered`, not defined in orders/models.py: every item delivered. */
  predicate IsFullyDelivered(items: seq<OrderItem>) {
    forall i :: 0 <= i < |items| ==> items[i].isDelivered
  }

  /** `is_partially_delivered`, not defined in orders/models.py: something has been
      delivered, but not everything. */
  predicate IsPartiallyDelivered(items: seq<OrderItem>) {
    (exists i :: 0 <= i < |items| && items[i].deliveredQuantity > 0) && !IsFullyDelivered(items)
  }

  /** The flag `is_delivered` as `mark_as_delivered` maintains it. */
  predicate FlagConsistent(item: OrderItem) {
    item.isDelivered <==> item.deliveredQuantity >= item.quantity
  }

  /** The quantity `mark_as_delivered` credits: the given one, or by default the
      remaining quantity. */
  function DeliveryAmount(item: OrderItem, quantity: Option<int>): int {
    if quantity.None? then RemainingQuantity(item) else quantity.value
  }

  /** The item as `mark_as_delivered` saves it, before it calls `add_stock`: the
      delivered quantity moved by the amount and `is_delivered` recomputed. The
      column is a PositiveIntegerField, so the database refuses a negative total. */
  function SavedItem(item: OrderItem, quantity: Option<int>): (r: Result<OrderItem>)
    ensures r.Ok? <==> item.deliveredQuantity + DeliveryAmount(item, quantity) >= 0
    ensures r.Err? ==> r.error == OutOfRange
    ensures r.Ok? ==> r.value.deliveredQuantity == item.deliveredQuantity + DeliveryAmount(item, quantity)
    ensures r.Ok? ==> FlagConsistent(r.value)
    ensures r.Ok? ==> r.value == item.(deliveredQuantity := r.value.deliveredQuantity, isDelivered := r.value.isDelivered)
  {
    var delivered := item.deliveredQuantity + DeliveryAmount(item, quantity);
    if delivered < 0 then Err(OutOfRange)
    else Ok(item.(deliveredQuantity := delivered, isDelivered := delivered >= item.quantity))
  }

  /** `OrderItem.mark_as_delivered` on the item and its variant's row: the item is
      saved with the delivered quantity grown by the amount and `is_delivered`
      recomputed, then the variant is credited through `add_stock`, which refuses an
      amount that is not positive. There is no over-delivery check here; that lives
      in the delivery form. What a refusal leaves saved is `SavedItem`. */
  function MarkAsDelivered(item: OrderItem, variant: ProductVariant, quantity: Option<int>): (r: Result<(OrderItem, ProductVariant)>)
    ensures r.Err? <==> DeliveryAmount(item, quantity) <= 0
    ensures r.Err? ==> r.error == (if item.deliveredQuantity + DeliveryAmount(item, quantity) < 0 then OutOfRange else InvalidQuantity)
    ensures r.Ok? ==> SavedItem(item, quantity) == Ok(r.value.0)
    ensures r.Ok? ==> r.value.0.deliveredQuantity == item.deliveredQuantity + DeliveryAmount(item, quantity)
    ensures r.Ok? ==> FlagConsistent(r.value.0)
    ensures r.Ok? ==> r.value.0 == item.(deliveredQuantity := r.value.0.deliveredQuantity, isDelivered := r.value.0.isDelivered)
    ensures r.Ok? ==> r.value.1 == AddStock(variant, DeliveryAmount(item, quantity)).value
    ensures r.Ok? && quantity.None? ==> r.value.0.deliveredQuantity == item.quantity && r.value.0.isDelivered
  {
    match SavedItem(item, quantity)
    case Err(e) => Err(e)
    case Ok(saved) =>
      match AddStock(variant, DeliveryAmount(item, quantity))
      case Err(e) => Err(e)
      case Ok(v) => Ok((saved, v))
  }

  /** On an over-delivered item (8 of 5) the default amount is -3: `add_stock`
      refuses it, but only after the item was saved back down to 5 delivered. */
  lemma OverDeliveredDefaultSavesItem(variant: ProductVariant)
    ensures var item := OrderItem(0, 5, 8, 100, true, "");
      MarkAsDelivered(item, variant, None) == Err(InvalidQuantity)
      && SavedItem(item, None) == Ok(item.(deliveredQuantity := 5))
  {
  }

  /** What confirm_delivery does as written: the delivery form has already bound the
      submitted quantity onto the item's `delivered_quantity`, and the submitted notes
      onto its `notes`, when `mark_as_delivered(q)` adds q again. */
  function MarkAsDeliveredAfterFormBind(item: OrderItem, variant: ProductVariant, q: nat, note: string): (r: Result<(OrderItem, ProductVariant)>)
    ensures r.Ok? ==> r.value.0.deliveredQuantity == 2 * q && r.value.0.notes == note
  {
    MarkAsDelivered(item.(deliveredQuantity := q, notes := note), variant, Some(q))
  }

  /** A first delivery of 4 out of 10 records 8 delivered, after which the form
      refuses the 6 that are really still outstanding. */
  lemma DeliveredQuantityDoubled(variant: ProductVariant)
    ensures var item := OrderItem(0, 10, 0, 100, false, "");
      var r := MarkAsDeliveredAfterFormBind(item, variant, 4, "");
      r.Ok? && r.value.0.deliveredQuantity == 8 && RemainingQuantity(r.value.0) == 2
      && CleanDeliveredQuantity(6, r.value.0, true) == Err(OverDelivery)
  {
  }

  /** The upper bound the delivery form puts on its input: what is left to deliver. */
  function DeliveryInputMax(item: OrderItem): (r: int)
    ensures item.deliveredQuantity + r == item.quantity
  {
    RemainingQuantity(item)
  }

  /** `DeliveryForm.clean_delivered_quantity` for an item that is `saved` (has a
      primary key): a negative quantity is refused, then, for a saved item, one above
      the remaining quantity; an accepted quantity is returned unchanged. */
  function CleanDeliveredQuantity(q: int, item: OrderItem, saved: bool): (r: Result<int>)
    ensures q < 0 ==> r == Err(NegativeDelivery)
    ensures r.Err? && q >= 0 ==> r.error == OverDelivery
    ensures r.Ok? <==> q >= 0 && (saved ==> q <= RemainingQuantity(item))
    ensures r.Ok? ==> r.value == q
    ensures r.Ok? && saved ==> item.deliveredQuantity + q <= item.quantity
  {
    if q != 0 && q < 0 then Err(NegativeDelivery)
    else if saved && q > RemainingQuantity(item) then Err(OverDelivery)
    else Ok(q)
  }

  /** The delivery formset's validation of one submitted quantity per item, reporting
      the first refusal. */
  function ValidateDeliveries(items: seq<OrderItem>, qs: seq<int>): (r: Outcome)
    requires |qs| == |items|
    ensures r.Pass? <==> forall i :: 0 <= i < |items| ==> CleanDeliveredQuantity(qs[i], items[i], true).Ok?
  {
    if items == [] then Pass
    else match CleanDeliveredQuantity(qs[0], items[0], true)
      case Err(e) => Fail(e)
      case Ok(_) =>
        var rest := ValidateDeliveries(items[1..], qs[1..]);
        assert forall i :: 1 <= i < |items| ==> items[1..][i - 1] == items[i] && qs[1..][i - 1] == qs[i];
        rest
  }

  /** The loop of confirm_delivery over the submitted forms, one quantity `qs[i]` and
      one notes text `ns[i]` per item: every item with a positive quantity takes the
      form's notes (`form.save(commit=False)` binds them), is marked delivered with
      that quantity and its variant credited; the others are left alone. */
  function Deliver(items: seq<OrderItem>, vs: Variants, qs: seq<int>, ns: seq<string>): Result<(seq<OrderItem>, Variants)>
    requires |qs| == |items| && |ns| == |items|
    decreases |items|
  {
    if items == [] then Ok(([], vs))
    else
      var n := |items| - 1;
      match Deliver(items[..n], vs, qs[..n], ns[..n])
      case Err(e) => Err(e)
      case Ok((done, vs1)) =>
        if qs[n] > 0 then
          if items[n].variant !in vs1 then Err(NotFound)
          else match MarkAsDelivered(items[n].(notes := ns[n]), vs1[items[n].variant], Some(qs[n]))
            case Err(e) => Err(e)
            case Ok((item, v)) => Ok((done + [item], vs1[items[n].variant := v]))
        else Ok((done + [items[n]], vs1))
  }

  /** A refusal part-way through the delivery loop is the loop's refusal. */
  lemma {:induction false} DeliverPrefixErr(items: seq<OrderItem>, vs: Variants, qs: seq<int>, ns: seq<string>, k: nat)
    requires |qs| == |items| && |ns| == |items| && k <= |items|
    requires Deliver(items[..k], vs, qs[..k], ns[..k]).Err?
    ensures Deliver(items, vs, qs, ns) == Deliver(items[..k], vs, qs[..k], ns[..k])
    decreases |items|
  {
    if k < |items| {
      var n := |items| - 1;
      assert items[..n][..k] == items[..k] && qs[..n][..k] == qs[..k] && ns[..n][..k] == ns[..k];
      DeliverPrefixErr(items[..n], vs, qs[..n], ns[..n], k);
    } else {
      assert items[..k] == items && qs[..k] == qs && ns[..k] == ns;
    }
  }

  /** What one submitted form, quantity `q` and notes `note`, does to one item. */
  function AfterDelivery(item: OrderItem, q: int, note: string): OrderItem {
    if q > 0 then
      var d := item.deliveredQuantity + q;
      item.(deliveredQuantity := d, isDelivered := d >= item.quantity, notes := note)
    else item
  }

  /** The stock a delivery credits to variant `v`: the positive quantities
      submitted for the items on `v`. */
  function Credit(items: seq<OrderItem>, qs: seq<int>, v: VariantId): nat
    requires |qs| == |items|
  {
    if items == [] then 0
    else
      var n := |items| - 1;
      Credit(items[..n], qs[..n], v) + (if items[n].variant == v && qs[n] > 0 then qs[n] else 0)
  }

  /** The delivery loop succeeds whenever every item's variant exists; it changes
      each item as `AfterDelivery` says and keeps the variant table's keys. */
  lemma {:induction false} DeliverFacts(items: seq<OrderItem>, vs: Variants, qs: seq<int>, ns: seq<string>)
    requires |qs| == |items| && |ns| == |items|
    requires forall i :: 0 <= i < |items| ==> items[i].variant in vs
    ensures Deliver(items, vs, qs, ns).Ok?
    ensures var (its, ws) := Deliver(items, vs, qs, ns).value;
      && |its| == |items|
      && (forall i :: 0 <= i < |items| ==> its[i] == AfterDelivery(items[i], qs[i], ns[i]))
      && ws.Keys == vs.Keys
    decreases |items|
  {
    if items != [] {
      var n := |items| - 1;
      assert forall i :: 0 <= i < n ==> items[..n][i] == items[i] && qs[..n][i] == qs[i] && ns[..n][i] == ns[i];
      DeliverFacts(items[..n], vs, qs[..n], ns[..n]);
      var (done, vs1) := Deliver(items[..n], vs, qs[..n], ns[..n]).value;
      DeliverUnfold(items, vs, qs, ns);
      DeliveredItemsStep(items, qs, ns, done);
    }
  }

  /** The delivery loop credits each variant with exactly its `Credit` and keeps
      every other column of the variant. */
  lemma {:induction false} DeliverCredits(items: seq<OrderItem>, vs: Variants, qs: seq<int>, ns: seq<string>, v: VariantId)
    requires |qs| == |items| && |ns| == |items| && v in vs
    requires forall i :: 0 <= i < |items| ==> items[i].variant in vs
    ensures Deliver(items, vs, qs, ns).Ok? && v in Deliver(items, vs, qs, ns).value.1
    ensures Deliver(items, vs, qs, ns).value.1[v] == vs[v].(stockQuantity := vs[v].stockQuantity + Credit(items, qs, v))
    decreases |items|
  {
    DeliverFacts(items, vs, qs, ns);
    if items != [] {
      var n := |items| - 1;
      var u := items[n].variant;
      assert forall i :: 0 <= i < n ==> items[..n][i].variant in vs by {
        assert forall i :: 0 <= i < n ==> items[..n][i] == items[i];
      }
      DeliverFacts(items[..n], vs, qs[..n], ns[..n]);
      DeliverCredits(items[..n], vs, qs[..n], ns[..n], v);
      var vs1 := Deliver(items[..n], vs, qs[..n], ns[..n]).value.1;
      assert Deliver(items, vs, qs, ns).value.1 ==
          (if qs[n] > 0 then vs1[u := AddStock(vs1[u], qs[n]).value] else vs1) by {
        DeliverUnfold(items, vs, qs, ns);
      }
      if qs[n] > 0 {
        CreditAt(vs[v], vs1, v, u, qs[n], Credit(items[..n], qs[..n], v));
      }
    }
  }

  lemma DeliveredItemsStep(items: seq<OrderItem>, qs: seq<int>, ns: seq<string>, done: seq<OrderItem>)
    requires |qs| == |items| && |ns| == |items| && items != [] && |done| == |items| - 1
    requires forall i :: 0 <= i < |done| ==> done[i] == AfterDelivery(items[..|done|][i], qs[..|done|][i], ns[..|done|][i])
    ensures var its := done + [AfterDelivery(items[|done|], qs[|done|], ns[|done|])];
      forall i :: 0 <= i < |items| ==> its[i] == AfterDelivery(items[i], qs[i], ns[i])
  {
    var n := |done|;
    assert forall i :: 0 <= i < n ==> items[..n][i] == items[i] && qs[..n][i] == qs[i] && ns[..n][i] == ns[i];
  }

  /** Crediting `q` to variant `u` changes only `u`'s stock. */
  lemma CreditAt(w: ProductVariant, vs1: Variants, v: VariantId, u: VariantId, q: int, c: nat)
    requires v in vs1 && u in vs1 && q > 0
    requires vs1[v] == w.(stockQuantity := w.stockQuantity + c)
    ensures vs1[u := AddStock(vs1[u], q).value][v] ==
      w.(stockQuantity := w.stockQuantity + c + (if u == v then q else 0))
  {
  }

  /** One turn of the delivery loop, spelled out. */
  lemma DeliverUnfold(items: seq<OrderItem>, vs: Variants, qs: seq<int>, ns: seq<string>)
    requires |qs| == |items| && |ns| == |items| && items != []
    requires var n := |items| - 1;
      Deliver(items[..n], vs, qs[..n], ns[..n]).Ok? && items[n].variant in Deliver(items[..n], vs, qs[..n], ns[..n]).value.1
    ensures var n := |items| - 1;
      var (done, vs1) := Deliver(items[..n], vs, qs[..n], ns[..n]).value;
      var it := items[n];
      Deliver(items, vs, qs, ns) ==
        Ok((done + [AfterDelivery(it, qs[n], ns[n])],
            if qs[n] > 0 then vs1[it.variant := AddStock(vs1[it.variant], qs[n]).value] else vs1))
  {
    var n := |items| - 1;
    var (done, vs1) := Deliver(items[..n], vs, qs[..n], ns[..n]).value;
    var it := items[n];
    if qs[n] > 0 {
      var r := MarkAsDelivered(it.(notes := ns[n]), vs1[it.variant], Some(qs[n]));
      assert r.Ok?;
      assert r.value.1 == AddStock(vs1[it.variant], qs[n]).value;
      assert r.value.0.deliveredQuantity == it.deliveredQuantity + qs[n];
      assert r.value.0 == AfterDelivery(it, qs[n], ns[n]);
    }
  }

  /** The status rule after a confirmed delivery: DELIVERED when every item is
      delivered, otherwise PARTIAL when something is, otherwise unchanged. */
  function DeliveryStatus(items: seq<OrderItem>, current: OrderStatus): (r: OrderStatus)
    ensures IsFullyDelivered(items) ==> r == Delivered
    ensures !IsFullyDelivered(items) && IsPartiallyDelivered(items) ==> r == Partial
    ensures !IsFullyDelivered(items) && !IsPartiallyDelivered(items) ==> r == current
    ensures r == Delivered || r == Partial || r == current
    ensures r == Delivered && current != Delivered ==> IsFullyDelivered(items)
    ensures r == Partial && current != Partial ==> IsPartiallyDelivered(items)
  {
    if IsFullyDelivered(items) then Delivered
    else if IsPartiallyDelivered(items) then Partial
    else current
  }

  /** confirm_delivery on an order and the variant table, given one submitted
      delivery form per item (its quantity in `qs`, its notes in `ns`), the acting
      employee and the time. A DELIVERED order is refused; so is a formset with an
      invalid quantity (the notes are a blank-allowed text and always pass).
      Otherwise the items are delivered, the status rule applied, and
      `received_by` / `received_date` overwritten. A failure anywhere leaves
      everything as it was (the whole view runs in one transaction). */
  function ConfirmDelivery(order: Order, vs: Variants, qs: seq<int>, ns: seq<string>, actor: EmployeeId, now: Timestamp): Result<(Order, Variants)>
  {
    if order.status == Delivered then Err(AlreadyDelivered)
    else if |qs| != |order.items| || |ns| != |order.items| then Err(FormMismatch)
    else match ValidateDeliveries(order.items, qs)
      case Fail(e) => Err(e)
      case Pass =>
        match Deliver(order.items, vs, qs, ns)
        case Err(e) => Err(e)
        case Ok((items, ws)) =>
          Ok((order.(items := items, status := DeliveryStatus(items, order.status),
                     receivedBy := Some(actor), receivedDate := Some(now)), ws))
  }

  /** A confirmed delivery never takes an item past its ordered quantity, credits
      each variant with exactly what was submitted for it, keeps the order total and
      the items' `is_delivered` flags consistent, stores the submitted notes on every
      item it delivers (keeping that item's other columns), and leaves untouched
      every item whose submitted quantity is not positive. */
  lemma ConfirmDeliveryFacts(order: Order, vs: Variants, qs: seq<int>, ns: seq<string>, actor: EmployeeId, now: Timestamp)
    requires forall i :: 0 <= i < |order.items| ==> order.items[i].deliveredQuantity <= order.items[i].quantity
    requires forall i :: 0 <= i < |order.items| ==> order.items[i].variant in vs
    requires ConfirmDelivery(order, vs, qs, ns, actor, now).Ok?
    ensures var (o, ws) := ConfirmDelivery(order, vs, qs, ns, actor, now).value;
      && |o.items| == |order.items| && |qs| == |order.items| && |ns| == |order.items|
      && (forall i :: 0 <= i < |o.items| ==> o.items[i].deliveredQuantity <= o.items[i].quantity)
      && (forall i :: 0 <= i < |o.items| ==> o.items[i].deliveredQuantity == order.items[i].deliveredQuantity + qs[i])
      && (forall i :: 0 <= i < |o.items| && qs[i] <= 0 ==> o.items[i] == order.items[i])
      && (forall i :: 0 <= i < |o.items| && qs[i] > 0 ==> FlagConsistent(o.items[i]))
      && (forall i :: 0 <= i < |o.items| && qs[i] > 0 ==>
            o.items[i] == order.items[i].(deliveredQuantity := o.items[i].deliveredQuantity,
                                          isDelivered := o.items[i].isDelivered, notes := ns[i]))
      && TotalAmount(o.items) == TotalAmount(order.items)
      && ws.Keys == vs.Keys
      && (forall v :: v in vs ==> ws[v].stockQuantity == vs[v].stockQuantity + Credit(order.items, qs, v))
      && o.status == DeliveryStatus(o.items, order.status)
      && o.receivedBy == Some(actor) && o.receivedDate == Some(now)
      && o == order.(items := o.items, status := o.status, receivedBy := o.receivedBy, receivedDate := o.receivedDate)
  {
    assert |qs| == |order.items| && |ns| == |order.items| && ValidateDeliveries(order.items, qs).Pass?;
    DeliverFacts(order.items, vs, qs, ns);
    var (its, ws) := Deliver(order.items, vs, qs, ns).value;
    assert ConfirmDelivery(order, vs, qs, ns, actor, now).value ==
      (order.(items := its, status := DeliveryStatus(its, order.status),
              receivedBy := Some(actor), receivedDate := Some(now)), ws);
    DeliveredItems(order.items, qs, ns, its);
    DeliveredStock(order.items, vs, qs, ns);
  }

  /** The items after a validated delivery, one by one, and the order total. */
  lemma DeliveredItems(items: seq<OrderItem>, qs: seq<int>, ns: seq<string>, its: seq<OrderItem>)
    requires |qs| == |items| && |ns| == |items| && |its| == |items|
    requires forall i :: 0 <= i < |items| ==> items[i].deliveredQuantity <= items[i].quantity
    requires ValidateDeliveries(items, qs).Pass?
    requires forall i :: 0 <= i < |items| ==> its[i] == AfterDelivery(items[i], qs[i], ns[i])
    ensures forall i :: 0 <= i < |its| ==> its[i].deliveredQuantity <= its[i].quantity
    ensures forall i :: 0 <= i < |its| ==> its[i].deliveredQuantity == items[i].deliveredQuantity + qs[i]
    ensures forall i :: 0 <= i < |its| && qs[i] <= 0 ==> its[i] == items[i]
    ensures forall i :: 0 <= i < |its| && qs[i] > 0 ==> FlagConsistent(its[i])
    ensures forall i :: 0 <= i < |its| && qs[i] > 0 ==>
      its[i] == items[i].(deliveredQuantity := its[i].deliveredQuantity, isDelivered := its[i].isDelivered, notes := ns[i])
    ensures TotalAmount(its) == TotalAmount(items)
  {
    forall i | 0 <= i < |its|
      ensures its[i].deliveredQuantity <= its[i].quantity
      ensures its[i].deliveredQuantity == items[i].deliveredQuantity + qs[i]
      ensures qs[i] <= 0 ==> its[i] == items[i]
      ensures qs[i] > 0 ==> FlagConsistent(its[i])
      ensures qs[i] > 0 ==>
        its[i] == items[i].(deliveredQuantity := its[i].deliveredQuantity, isDelivered := its[i].isDelivered, notes := ns[i])
      ensures Subtotal(its[i]) == Subtotal(items[i])
    {
      assert CleanDeliveredQuantity(qs[i], items[i], true).Ok?;
      AfterDeliveryFacts(items[i], qs[i], ns[i]);
    }
    TotalAmountPointwise(items, its);
  }

  /** The variant table after a delivery, variant by variant. */
  lemma DeliveredStock(items: seq<OrderItem>, vs: Variants, qs: seq<int>, ns: seq<string>)
    requires |qs| == |items| && |ns| == |items|
    requires forall i :: 0 <= i < |items| ==> items[i].variant in vs
    ensures Deliver(items, vs, qs, ns).Ok?
    ensures var ws := Deliver(items, vs, qs, ns).value.1;
      ws.Keys == vs.Keys &&
      forall v :: v in vs ==> ws[v].stockQuantity == vs[v].stockQuantity + Credit(items, qs, v)
  {
    DeliverFacts(items, vs, qs, ns);
    forall v | v in vs
      ensures Deliver(items, vs, qs, ns).value.1[v].stockQuantity == vs[v].stockQuantity + Credit(items, qs, v)
    {
      DeliverCredits(items, vs, qs, ns, v);
    }
  }

  /** One item after an accepted submitted form. */
  lemma AfterDeliveryFacts(item: OrderItem, q: int, note: string)
    requires item.deliveredQuantity <= item.quantity
    requires CleanDeliveredQuantity(q, item, true).Ok?
    ensures var it := AfterDelivery(item, q, note);
      && it.deliveredQuantity <= it.quantity
      && it.deliveredQuantity == item.deliveredQuantity + q
      && (q <= 0 ==> it == item)
      && (q > 0 ==> FlagConsistent(it))
      && (q > 0 ==> it == item.(deliveredQuantity := it.deliveredQuantity, isDelivered := it.isDelivered, notes := note))
      && Subtotal(it) == Subtotal(item)
  {
  }

  lemma {:induction false} TotalAmountPointwise(a: seq<OrderItem>, b: seq<OrderItem>)
    requires |a| == |b| && forall i :: 0 <= i < |a| ==> Subtotal(a[i]) == Subtotal(b[i])
    ensures TotalAmount(a) == TotalAmount(b)
  {
    if a != [] {
      var n := |a| - 1;
      assert forall i :: 0 <= i < n ==> a[..n][i] == a[i] && b[..n][i] == b[i];
      TotalAmountPointwise(a[..n], b[..n]);
    }
  }

  /** The order of the three-delivery scenario: one item of 10 on variant 7. */
  function ScenarioOrder(status: OrderStatus, delivered: nat, received: Option<Timestamp>): Order {
    Order(0, None, if received.None? then None else Some(1), received, status, None, "",
          [OrderItem(7, 10, delivered, 100, delivered >= 10, "")])
  }

  lemma ScenarioStep(status: OrderStatus, delivered: nat, received: Option<Timestamp>,
                     v: ProductVariant, q: nat, now: Timestamp)
    requires status != Delivered && 0 < q && delivered + q <= 10
    ensures ConfirmDelivery(ScenarioOrder(status, delivered, received), map[7 := v], [q], [""], 1, now)
         == Ok((ScenarioOrder(if delivered + q >= 10 then Delivered else Partial, delivered + q, Some(now)),
                map[7 := v.(stockQuantity := v.stockQuantity + q)]))
  {
    var order := ScenarioOrder(status, delivered, received);
    var vs := map[7 := v];
    var it := order.items[0];
    var d := delivered + q;
    var it1 := OrderItem(7, 10, d, 100, d >= 10, "");
    var vs1 := vs[7 := v.(stockQuantity := v.stockQuantity + q)];
    assert vs1 == map[7 := v.(stockQuantity := v.stockQuantity + q)];
    assert ValidateDeliveries(order.items, [q]) == Pass;
    assert it.(notes := "") == it;
    assert MarkAsDelivered(it, v, Some(q)) == Ok((it1, vs1[7]));
    assert Deliver(order.items[..0], vs, [q][..0], [""][..0]) == Ok(([], vs));
    assert [] + [it1] == [it1];
    assert Deliver(order.items, vs, [q], [""]) == Ok(([it1], vs1));
    if d < 10 {
      assert !IsFullyDelivered([it1]) by { assert ![it1][0].isDelivered; }
      assert IsPartiallyDelivered([it1]) by { assert [it1][0].deliveredQuantity > 0; }
      assert DeliveryStatus([it1], status) == Partial;
    } else {
      assert DeliveryStatus([it1], status) == Delivered;
    }
  }

  /** The three-delivery scenario: an item of 10 delivered as 4 then 6 moves the
      order PENDING -> PARTIAL -> DELIVERED and credits 4 then 6; any further
      confirmation is refused. */
  lemma DeliveryScenario(v: ProductVariant, extra: int)
    ensures ConfirmDelivery(ScenarioOrder(Pending, 0, None), map[7 := v], [4], [""], 1, 100)
         == Ok((ScenarioOrder(Partial, 4, Some(100)), map[7 := v.(stockQuantity := v.stockQuantity + 4)]))
    ensures ConfirmDelivery(ScenarioOrder(Partial, 4, Some(100)), map[7 := v.(stockQuantity := v.stockQuantity + 4)], [6], [""], 1, 200)
         == Ok((ScenarioOrder(Delivered, 10, Some(200)), map[7 := v.(stockQuantity := v.stockQuantity + 10)]))
    ensures ConfirmDelivery(ScenarioOrder(Delivered, 10, Some(200)), map[7 := v.(stockQuantity := v.stockQuantity + 10)], [extra], [""], 1, 300)
         == Err(AlreadyDelivered)
  {
    var v4 := v.(stockQuantity := v.stockQuantity + 4);
    assert ConfirmDelivery(ScenarioOrder(Pending, 0, None), map[7 := v], [4], [""], 1, 100)
         == Ok((ScenarioOrder(Partial, 4, Some(100)), map[7 := v4])) by {
      ScenarioStep(Pending, 0, None, v, 4, 100);
    }
    assert ConfirmDelivery(ScenarioOrder(Partial, 4, Some(100)), map[7 := v4], [6], [""], 1, 200)
         == Ok((ScenarioOrder(Delivered, 10, Some(200)), map[7 := v.(stockQuantity := v.stockQuantity + 10)])) by {
      assert v4.(stockQuantity := v4.stockQuantity + 6) == v.(stockQuantity := v.stockQuantity + 10);
      ScenarioStep(Partial, 4, Some(100), v4, 6, 200);
    }
  }

  /** The delivery form's notes replace an item's notes exactly when the item is
      delivered: submitting 3 with "late" and 0 with "ignored" against two items
      noted "ordered" leaves "late" on the first and "ordered" on the second. */
  lemma DeliveryNotesStored(v: ProductVariant)
    ensures var order := Order(0, None, None, None, Pending, None, "",
                               [OrderItem(7, 10, 0, 100, false, "ordered"), OrderItem(7, 5, 0, 100, false, "ordered")]);
      var r := ConfirmDelivery(order, map[7 := v], [3, 0], ["late", "ignored"], 1, 100);
      r.Ok? && |r.value.0.items| == 2
      && r.value.0.items[0].notes == "late" && r.value.0.items[1].notes == "ordered"
  {
    var order := Order(0, None, None, None, Pending, None, "",
                       [OrderItem(7, 10, 0, 100, false, "ordered"), OrderItem(7, 5, 0, 100, false, "ordered")]);
    var vs := map[7 := v];
    assert ValidateDeliveries(order.items, [3, 0]) == Pass by {
      assert CleanDeliveredQuantity(3, order.items[0], true).Ok?;
      assert CleanDeliveredQuantity(0, order.items[1], true).Ok?;
    }
    DeliverFacts(order.items, vs, [3, 0], ["late", "ignored"]);
    ConfirmDeliveryFacts(order, vs, [3, 0], ["late", "ignored"], 1, 100);
  }

  /** What an order item form submits when an order is created. */
  datatype OrderItemForm = OrderItemForm(variant: VariantId, quantity: int, unitPrice: int, notes: string)

  /** The checks an order item form applies: the variant must be one of the active
      ones offered, and the quantity at least 1 (the model's MinValueValidator). */
  function CleanOrderItem(form: OrderItemForm, vs: Variants): (r: Result<OrderItem>)
    ensures r.Ok? <==> form.variant in vs && vs[form.variant].isActive && form.quantity >= 1
    ensures r.Ok? ==> r.value == OrderItem(form.variant, form.quantity, 0, form.unitPrice, false, form.notes)
  {
    if form.variant !in vs || !vs[form.variant].isActive then Err(NotFound)
    else if form.quantity < 1 then Err(InvalidQuantity)
    else Ok(OrderItem(form.variant, form.quantity, 0, form.unitPrice, false, form.notes))
  }

  /** The item formset's validation, reporting the first refusal. */
  function CleanOrderItems(forms: seq<OrderItemForm>, vs: Variants): (r: Result<seq<OrderItem>>)
    ensures r.Ok? <==> forall i :: 0 <= i < |forms| ==> CleanOrderItem(forms[i], vs).Ok?
    ensures r.Ok? ==> |r.value| == |forms| && forall i :: 0 <= i < |forms| ==> CleanOrderItem(forms[i], vs) == Ok(r.value[i])
  {
    if forms == [] then Ok([])
    else match CleanOrderItem(forms[0], vs)
      case Err(e) => Err(e)
      case Ok(item) =>
        assert forall i :: 1 <= i < |forms| ==> forms[1..][i - 1] == forms[i];
        match CleanOrderItems(forms[1..], vs)
        case Err(e) => Err(e)
        case Ok(rest) => Ok([item] + rest)
  }

  /** The order `create_order` saves from valid forms: status PENDING, nothing
      received and nothing delivered. The item formset needs at least one form. */
  function NewOrder(supplier: SupplierId, expected: Option<int>, notes: string, actor: EmployeeId,
                    forms: seq<OrderItemForm>, vs: Variants): (r: Result<Order>)
    ensures |forms| < 1 ==> r == Err(TooFewForms)
    ensures r.Ok? <==> |forms| >= 1 && forall i :: 0 <= i < |forms| ==> CleanOrderItem(forms[i], vs).Ok?
    ensures r.Ok? ==> (r.value.status == Pending && r.value.receivedBy.None? && r.value.receivedDate.None?
      && r.value.createdBy == Some(actor) && |r.value.items| == |forms|
      && (forall i :: 0 <= i < |forms| ==> CleanOrderItem(forms[i], vs) == Ok(r.value.items[i])))
  {
    match CheckFormsetMinimum(|forms|, 1)
    case Fail(e) => Err(e)
    case Pass =>
      match CleanOrderItems(forms, vs)
      case Err(e) => Err(e)
      case Ok(items) => Ok(Order(supplier, Some(actor), None, None, Pending, expected, notes, items))
  }

  /** create_order as written. Every `OrderItemForm` of the formset is built on a new
      `OrderItem`, and its `__init__` reads `self.instance.variant` before any data is
      bound; that foreign key is not nullable and not yet set, so the read raises
      RelatedObjectDoesNotExist, on GET and on POST alike. No order is ever created. */
  function NewOrderAsWritten(supplier: SupplierId, expected: Option<int>, notes: string, actor: EmployeeId,
                             forms: seq<OrderItemForm>, vs: Variants): Result<Order>
  {
    Err(ProgramError)
  }

  /** As written, every order creation fails, whatever is submitted; once the form
      tests `variant_id` instead, every submission of at least one valid item form
      creates its order. */
  lemma OrderItemFormInitFails(supplier: SupplierId, expected: Option<int>, notes: string, actor: EmployeeId,
                               forms: seq<OrderItemForm>, vs: Variants)
    ensures NewOrderAsWritten(supplier, expected, notes, actor, forms, vs) == Err(ProgramError)
    ensures |forms| >= 1 && (forall i :: 0 <= i < |forms| ==> CleanOrderItem(forms[i], vs).Ok?) ==>
      NewOrder(supplier, expected, notes, actor, forms, vs).Ok?
  {
  }

  /** delete_order's guard: a DELIVERED order cannot be deleted. */
  function CheckOrderDeletable(order: Order): (r: Outcome)
    ensures r.Fail? <==> order.status == Delivered
    ensures r.Fail? ==> r.error == DeliveredOrder
  {
    if order.status == Delivered then Fail(DeliveredOrder) else Pass
  }
}
