/** sales/models.py and the rules of sales/views.py: customers, sales and their
    items, the integer-currency arithmetic of a sale, and the two transitions that
    move stock, `complete_sale` and `cancel_sale`. */
module Sales {
  import opened Common
  import opened Products
  import opened Inventory

  /** A customer; an empty string stands for an email or phone left blank (or None). */
  datatype Customer = Customer(
    firstName: string,
    lastName: string,
    email: string,
    phone: string,
    isActive: bool)

  /** `Customer.full_name` (and `__str__`): "first last". */
  function CustomerName(c: Customer): string {
    c.firstName + " " + c.lastName
  }

  /** `Customer.clean`: a customer needs an email or a phone number. */
  function CleanCustomer(c: Customer): (r: Outcome)
    ensures r.Pass? <==> c.email != [] || c.phone != []
    ensures r.Fail? ==> r.error == MissingContact
  {
    if c.email == [] && c.phone == [] then Fail(MissingContact) else Pass
  }

  datatype SaleStatus = Pending | Completed | Cancelled

  datatype PaymentMethod = Cash | MobileMoney | BankTransfer | Card

  /** A sale line. `discount` is `discount_percentage` in hundredths of a percent:
      the field holds two decimal places, so 12.5% is 1250. */
  datatype SaleItem = SaleItem(
    variant: VariantId,
    quantity: nat,
    unitPrice: nat,
    discount: nat)

  /** A sale row with its items. `deliveryFee` is the stored column, refreshed from
      the items only where the code refreshes it. */
  datatype Sale = Sale(
    customer: CustomerId,
    createdBy: Option<EmployeeId>,
    status: SaleStatus,
    paymentMethod: PaymentMethod,
    deliveryRequired: bool,
    deliveryFee: int,
    notes: string,
    items: seq<SaleItem>)

  // ---------------------------------------------------------------------------
  // Arithmetic

  /** Python's `round` applied to the exact quotient n / d: the nearest integer,
      and on a tie the even one. */
  function RoundHalfEven(n: int, d: int): (r: int)
    requires d > 0
    ensures -d <= 2 * (n - r * d) <= d
    ensures 2 * (n - r * d) == d || 2 * (n - r * d) == -d ==> r % 2 == 0
  {
    var q := n / d;
    var rem := n % d;
    assert n == q * d + rem;
    assert (q + 1) * d == q * d + d;
    if 2 * rem < d then q
    else if 2 * rem > d then q + 1
    else if q % 2 == 0 then q
    else q + 1
  }

  /** The two properties of `RoundHalfEven` pin its value down: no other integer is
      as near to n / d with the same tie rule. */
  lemma RoundHalfEvenUnique(n: int, d: int, r: int)
    requires d > 0
    requires -d <= 2 * (n - r * d) <= d
    requires 2 * (n - r * d) == d || 2 * (n - r * d) == -d ==> r % 2 == 0
    ensures r == RoundHalfEven(n, d)
  {
    NearestUnique(n, d, r, RoundHalfEven(n, d));
  }

  /** Two integers both within half of d of n, each even on a tie, are equal: they
      would otherwise differ by one and both be ties. */
  lemma NearestUnique(n: int, d: int, r: int, s: int)
    requires d > 0
    requires -d <= 2 * (n - r * d) <= d
    requires 2 * (n - r * d) == d || 2 * (n - r * d) == -d ==> r % 2 == 0
    requires -d <= 2 * (n - s * d) <= d
    requires 2 * (n - s * d) == d || 2 * (n - s * d) == -d ==> s % 2 == 0
    ensures r == s
  {
    var k := s - r;
    assert k * d == s * d - r * d by { Distribute(s, r, d); }
    if k >= 2 {
      MultiplyAtLeast(k, 2, d);
    } else if k <= -2 {
      MultiplyAtLeast(-k, 2, d);
    }
  }

  lemma Distribute(a: int, b: int, d: int)
    ensures (a - b) * d == a * d - b * d
  {
  }

  lemma MultiplyAtLeast(a: int, b: int, d: int)
    requires a >= b && d > 0
    ensures a * d >= b * d
  {
    assert a * d - b * d == (a - b) * d;
  }

  /** Rounding a quotient n / d with 0 <= n <= m * d lands in 0 .. m. */
  lemma RoundHalfEvenWithin(n: int, d: int, m: int)
    requires d > 0 && 0 <= n <= m * d
    ensures 0 <= RoundHalfEven(n, d) <= m
  {
    NearestWithin(n, d, m, RoundHalfEven(n, d));
  }

  lemma NearestWithin(n: int, d: int, m: int, r: int)
    requires d > 0 && 0 <= n <= m * d
    requires -d <= 2 * (n - r * d) <= d
    ensures 0 <= r <= m
  {
    if r < 0 {
      MultiplyAtLeast(-r, 1, d);
    }
    if r > m {
      MultiplyAtLeast(r - m, 1, d);
      Distribute(r, m, d);
    }
  }

  /** Rounding a non-negative n / d, d >= 1, stays within 0 .. n. */
  lemma RoundHalfEvenOfNonNegative(n: int, d: int)
    requires d > 0
    ensures n >= 0 ==> 0 <= RoundHalfEven(n, d) <= n
  {
    if n > 0 {
      MultiplyAtLeast(d, 1, n);
    }
    if n >= 0 {
      RoundHalfEvenWithin(n, d, n);
    }
  }

  /** Rounding `sub * h / 10000` lands in 0 .. sub for a rate h below 10000, and is
      0 for a rate of 0. */
  lemma DiscountWithin(sub: nat, h: nat)
    ensures h < 10000 ==> 0 <= RoundHalfEven(sub * h, 10000) <= sub
    ensures h == 0 ==> RoundHalfEven(sub * h, 10000) == 0
  {
    if h < 10000 {
      if sub > 0 {
        MultiplyAtLeast(10000, h, sub);
      }
      RoundHalfEvenWithin(sub * h, 10000, sub);
    }
    if h == 0 {
      RoundHalfEvenUnique(0, 10000, 0);
    }
  }

  /** `SaleItem.subtotal`: quantity times unit price. */
  function ItemSubtotal(it: SaleItem): nat {
    it.quantity * it.unitPrice
  }

  /** `SaleItem.discount_amount`: the subtotal times the percentage over 100,
      rounded to the nearest shilling, ties to even. Below 100% it is never more than
      the subtotal. */
  function DiscountAmount(it: SaleItem): (r: int)
    ensures -10000 <= 2 * (ItemSubtotal(it) * it.discount - r * 10000) <= 10000
    ensures it.discount < 10000 ==> 0 <= r <= ItemSubtotal(it)
    ensures it.discount == 0 ==> r == 0
  {
    DiscountWithin(ItemSubtotal(it), it.discount);
    RoundHalfEven(ItemSubtotal(it) * it.discount, 10000)
  }

  /** `SaleItem.total_price`: subtotal less discount; between 0 and the subtotal for
      a discount below 100%, and the subtotal itself without a discount. */
  function TotalPrice(it: SaleItem): (r: int)
    ensures it.discount < 10000 ==> 0 <= r <= ItemSubtotal(it)
    ensures it.discount == 0 ==> r == ItemSubtotal(it)
  {
    ItemSubtotal(it) - DiscountAmount(it)
  }

  /** The item rules the model validators and `SaleItem.clean` enforce: at least one
      unit, a unit price of at least 1 and a discount below 100%. */
  predicate ValidSaleItem(it: SaleItem) {
    it.quantity >= 1 && it.unitPrice >= 1 && it.discount < 10000
  }

  predicate ValidSaleItems(items: seq<SaleItem>) {
    forall i :: 0 <= i < |items| ==> ValidSaleItem(items[i])
  }

  /** The sum of the items' subtotals before discount. */
  function GrossSubtotal(items: seq<SaleItem>): nat {
    if items == [] then 0 else GrossSubtotal(items[..|items| - 1]) + ItemSubtotal(items[|items| - 1])
  }

  /** `Sale.calculate_subtotal`: the sum of the items' discounted totals. With valid
      items it lies between 0 and the undiscounted sum, and equals it when no item
      carries a discount. */
  function CalculateSubtotal(items: seq<SaleItem>): (r: int)
    ensures ValidSaleItems(items) ==> 0 <= r <= GrossSubtotal(items)
    ensures (forall i :: 0 <= i < |items| ==> items[i].discount == 0) ==> r == GrossSubtotal(items)
  {
    if items == [] then 0
    else
      var init := items[..|items| - 1];
      assert forall i :: 0 <= i < |init| ==> init[i] == items[i];
      CalculateSubtotal(init) + TotalPrice(items[|items| - 1])
  }

  /** `Sale.calculate_delivery_fee`: 5% of the subtotal, rounded to the nearest
      shilling (ties to even), when delivery is required, and 0 otherwise. With
      valid items it is never negative and never more than the subtotal. */
  function CalculateDeliveryFee(s: Sale): (r: int)
    ensures !s.deliveryRequired ==> r == 0
    ensures s.deliveryRequired ==> -20 <= 2 * (CalculateSubtotal(s.items) - r * 20) <= 20
    ensures ValidSaleItems(s.items) ==> 0 <= r <= CalculateSubtotal(s.items)
  {
    if s.deliveryRequired then
      var sub := CalculateSubtotal(s.items);
      RoundHalfEvenOfNonNegative(sub, 20);
      RoundHalfEven(sub, 20)
    else 0
  }

  /** `Sale.total`: the items' subtotal plus the stored delivery fee. */
  function Total(s: Sale): (r: int)
    ensures r - s.deliveryFee == CalculateSubtotal(s.items)
    ensures ValidSaleItems(s.items) && s.deliveryFee >= 0 ==> r >= CalculateSubtotal(s.items) >= 0
  {
    CalculateSubtotal(s.items) + s.deliveryFee
  }

  /** Two of a variant at 1,000 with 10% off, one of another at 500, with delivery:
      subtotal 2,300, delivery fee 115, total 2,415. */
  lemma PricingExample()
    ensures var s := Sale(0, None, Pending, Cash, true, 0, "",
                          [SaleItem(1, 2, 1000, 1000), SaleItem(2, 1, 500, 0)]);
            CalculateSubtotal(s.items) == 2300 && CalculateDeliveryFee(s) == 115 &&
            Total(s.(deliveryFee := CalculateDeliveryFee(s))) == 2415
  {
    var a := SaleItem(1, 2, 1000, 1000);
    var b := SaleItem(2, 1, 500, 0);
    RoundHalfEvenUnique(2000 * 1000, 10000, 200);
    assert DiscountAmount(a) == 200;
    assert [a, b][..1] == [a];
    assert [a][..0] == [];
    assert CalculateSubtotal([a]) == 1800;
    assert CalculateSubtotal([a, b]) == 2300;
    RoundHalfEvenUnique(2300, 20, 115);
  }

  /** As written, the item arithmetic sits inside a module-level `save` function
      and is not an attribute of `SaleItem`, so `calculate_subtotal` raises for
      every sale that has an item. */
  function CalculateSubtotalAsWritten(items: seq<SaleItem>): (r: Result<int>)
    ensures r.Ok? <==> items == []
    ensures r.Ok? ==> r.value == 0
    ensures r.Err? ==> r.error == ProgramError
  {
    if items == [] then Ok(0) else Err(ProgramError)
  }

  /** The discrepancy: one valid item makes the code as written fail where the
      intended subtotal is the item's price. */
  lemma SubtotalAsWrittenFails()
    ensures CalculateSubtotalAsWritten([SaleItem(1, 1, 500, 0)]) == Err(ProgramError)
    ensures CalculateSubtotal([SaleItem(1, 1, 500, 0)]) == 500
  {
    assert [SaleItem(1, 1, 500, 0)][..0] == [];
  }

  // ---------------------------------------------------------------------------
  // Stock bookkeeping of complete_sale and cancel_sale

  /** `f'SALE-{id}'`, the reference of the movements a completion writes. */
  function SaleReference(id: SaleId): (s: string)
    ensures |s| > 5 && s[..5] == "SALE-" && IsDigits(s[5..]) && DigitsValue(s[5..]) == id
  {
    NatToStringRoundTrip(id);
    var s := "SALE-" + NatToString(id);
    assert s[5..] == NatToString(id);
    s
  }

  /** `f'SALE-{id}-CANCEL'`, the reference of the movements a cancellation writes;
      it never equals a completion reference. */
  function CancelReference(id: SaleId): (s: string)
    ensures |s| > 12 && s[..5] == "SALE-" && s[|s| - 7..] == "-CANCEL"
    ensures forall other: SaleId :: s != SaleReference(other)
  {
    var s := "SALE-" + NatToString(id) + "-CANCEL";
    forall other: SaleId ensures s != SaleReference(other) {
      var t := SaleReference(other);
      if s == t {
        assert false;
      }
    }
    s
  }

  function SaleNotes(customerName: string): string {
    "Sale to " + customerName
  }

  function CancelNotes(customerName: string): string {
    "Sale cancellation for " + customerName
  }

  /** One turn of the deduction loop: reduce the variant's stock by the item's
      quantity and log a SALE movement whose snapshot is the stock before and after
      the change. */
  function SaleLine(v: ProductVariant, id: VariantId, q: nat, actor: Option<EmployeeId>,
                    ref: string, notes: string): (r: Result<(ProductVariant, StockMovement)>)
    ensures r.Err? <==> ReduceStock(v, q).Err?
    ensures r.Ok? ==> r.value.0 == ReduceStock(v, q).value
    ensures r.Ok? ==> r.value.1.previousStock == v.stockQuantity
    ensures r.Ok? ==> r.value.1.newStock == r.value.0.stockQuantity
    ensures r.Ok? ==> r.value.1 == CreateMovement(id, v.stockQuantity, SaleMovement, -(q as int), actor, ref, notes)
  {
    match ReduceStock(v, q)
    case Err(e) => Err(e)
    case Ok(w) => Ok((w, CreateMovement(id, v.stockQuantity, SaleMovement, -(q as int), actor, ref, notes)))
  }

  /** The deduction step as written: `reduce_stock` runs first, so `create_movement`
      reads the reduced stock and records it as the previous stock. */
  function SaleLineAsWritten(v: ProductVariant, id: VariantId, q: nat, actor: Option<EmployeeId>,
                             ref: string, notes: string): (r: Result<(ProductVariant, StockMovement)>)
    ensures r.Err? <==> ReduceStock(v, q).Err?
    ensures r.Ok? ==> r.value.1.previousStock == v.stockQuantity - q
    ensures r.Ok? ==> r.value.1.newStock == v.stockQuantity - 2 * q
  {
    match ReduceStock(v, q)
    case Err(e) => Err(e)
    case Ok(w) => Ok((w, CreateMovement(id, w.stockQuantity, SaleMovement, -(q as int), actor, ref, notes)))
  }

  /** Selling 3 of a stock of 5: the row as written says the stock went from 2 to
      -1, a value the non-negative `new_stock` column cannot hold; the step as
      intended records 5 to 2. */
  lemma SnapshotAfterChange(v: ProductVariant)
    requires v.stockQuantity == 5
    ensures SaleLineAsWritten(v, 0, 3, None, "", "").Ok?
    ensures SaleLineAsWritten(v, 0, 3, None, "", "").value.1.previousStock == 2
    ensures SaleLineAsWritten(v, 0, 3, None, "", "").value.1.newStock == -1
    ensures SaleLine(v, 0, 3, None, "", "").value.1.previousStock == 5
    ensures SaleLine(v, 0, 3, None, "", "").value.1.newStock == 2
  {
  }

  /** One turn of the restoring loop of a cancellation: add the quantity back and
      log a RETURN movement whose snapshot is the stock before and after. */
  function ReturnLine(v: ProductVariant, id: VariantId, q: nat, actor: Option<EmployeeId>,
                      ref: string, notes: string): (r: Result<(ProductVariant, StockMovement)>)
    ensures r.Err? <==> q == 0
    ensures r.Ok? ==> r.value.0 == AddStock(v, q).value
    ensures r.Ok? ==> r.value.1.previousStock == v.stockQuantity
    ensures r.Ok? ==> r.value.1.newStock == r.value.0.stockQuantity
    ensures r.Ok? ==> r.value.1 == CreateMovement(id, v.stockQuantity, ReturnMovement, q, actor, ref, notes)
  {
    match AddStock(v, q)
    case Err(e) => Err(e)
    case Ok(w) => Ok((w, CreateMovement(id, v.stockQuantity, ReturnMovement, q, actor, ref, notes)))
  }

  /** The restoring step as written: the snapshot is read after `add_stock`. */
  function ReturnLineAsWritten(v: ProductVariant, id: VariantId, q: nat, actor: Option<EmployeeId>,
                               ref: string, notes: string): (r: Result<(ProductVariant, StockMovement)>)
    ensures r.Err? <==> q == 0
    ensures r.Ok? ==> r.value.1.previousStock == v.stockQuantity + q
    ensures r.Ok? ==> r.value.1.newStock == v.stockQuantity + 2 * q
  {
    match AddStock(v, q)
    case Err(e) => Err(e)
    case Ok(w) => Ok((w, CreateMovement(id, w.stockQuantity, ReturnMovement, q, actor, ref, notes)))
  }

  /** How many units of variant `v` a list of items asks for. */
  function Demand(items: seq<SaleItem>, v: VariantId): nat {
    if items == [] then 0
    else Demand(items[..|items| - 1], v) + (if items[|items| - 1].variant == v then items[|items| - 1].quantity else 0)
  }

  /** Every item names a known variant with a positive quantity. */
  predicate Restorable(vs: Variants, items: seq<SaleItem>) {
    forall i :: 0 <= i < |items| ==> items[i].variant in vs && items[i].quantity > 0
  }

  /** The items can be deducted one after the other: besides being restorable, the
      summed demand on each variant is within its stock. */
  predicate DemandFits(vs: Variants, items: seq<SaleItem>) {
    Restorable(vs, items) && forall v :: v in vs ==> Demand(items, v) <= vs[v].stockQuantity
  }

  /** `stock` moved by `q` units, up or down. */
  function Move(stock: int, q: int, up: bool): int {
    if up then stock + q else stock - q
  }

  /** `ws` is `vs` with each variant's stock moved by its demand, up or down, and
      every other column untouched. */
  predicate Shifted(vs: Variants, items: seq<SaleItem>, up: bool, ws: Variants) {
    ws.Keys == vs.Keys &&
    forall v :: v in vs ==>
      ws[v].stockQuantity == Move(vs[v].stockQuantity, Demand(items, v), up) &&
      ws[v] == vs[v].(stockQuantity := ws[v].stockQuantity)
  }

  /** `ms` holds one movement per item, in item order, of the given type, signed
      quantity and reference, each starting from the running stock of its variant. */
  predicate Logged(vs: Variants, items: seq<SaleItem>, up: bool, t: MovementType,
                   ref: string, actor: Option<EmployeeId>, notes: string, ms: seq<StockMovement>) {
    |ms| == |items| &&
    forall i :: 0 <= i < |items| ==>
      items[i].variant in vs &&
      ms[i].variant == items[i].variant && ms[i].movementType == t &&
      ms[i].quantity == Move(0, items[i].quantity, up) &&
      ms[i].previousStock == Move(vs[items[i].variant].stockQuantity, Demand(items[..i], items[i].variant), up) &&
      ms[i].newStock == ms[i].previousStock + ms[i].quantity &&
      ms[i].referenceId == ref && ms[i].performedBy == actor && ms[i].notes == notes
  }

  /** One turn of the deduction loop on the running variant table and movement
      log: the item's variant must exist and `reduce_stock` must accept the
      quantity; the movement records the stock before and after. An earlier refusal
      is passed on. */
  function SaleTurn(acc: Result<(Variants, seq<StockMovement>)>, it: SaleItem, ref: string,
                    actor: Option<EmployeeId>, notes: string): (r: Result<(Variants, seq<StockMovement>)>)
    ensures acc.Err? ==> r == acc
    ensures acc.Ok? ==> (r.Ok? <==>
      it.variant in acc.value.0 && 0 < it.quantity <= acc.value.0[it.variant].stockQuantity)
    ensures acc.Ok? && r.Err? ==> r.error == (if it.variant !in acc.value.0 then NotFound
      else if it.quantity == 0 then InvalidQuantity else InsufficientStock)
    ensures acc.Ok? && r.Ok? ==>
      var (ws, ms) := acc.value;
      var w := ws[it.variant];
      r.value == (ws[it.variant := w.(stockQuantity := w.stockQuantity - it.quantity)],
                  ms + [CreateMovement(it.variant, w.stockQuantity, SaleMovement, -(it.quantity as int), actor, ref, notes)])
  {
    match acc
    case Err(e) => Err(e)
    case Ok((ws, ms)) =>
      if it.variant !in ws then Err(NotFound)
      else
        match SaleLine(ws[it.variant], it.variant, it.quantity, actor, ref, notes)
        case Err(e) => Err(e)
        case Ok(line) => Ok((ws[it.variant := line.0], ms + [line.1]))
  }

  /** One turn of the restoring loop: the item's variant must exist and `add_stock`
      must accept the quantity. */
  function ReturnTurn(acc: Result<(Variants, seq<StockMovement>)>, it: SaleItem, ref: string,
                      actor: Option<EmployeeId>, notes: string): (r: Result<(Variants, seq<StockMovement>)>)
    ensures acc.Err? ==> r == acc
    ensures acc.Ok? ==> (r.Ok? <==> it.variant in acc.value.0 && 0 < it.quantity)
    ensures acc.Ok? && r.Err? ==> r.error == (if it.variant !in acc.value.0 then NotFound else InvalidQuantity)
    ensures acc.Ok? && r.Ok? ==>
      var (ws, ms) := acc.value;
      var w := ws[it.variant];
      r.value == (ws[it.variant := w.(stockQuantity := w.stockQuantity + it.quantity)],
                  ms + [CreateMovement(it.variant, w.stockQuantity, ReturnMovement, it.quantity, actor, ref, notes)])
  {
    match acc
    case Err(e) => Err(e)
    case Ok((ws, ms)) =>
      if it.variant !in ws then Err(NotFound)
      else
        match ReturnLine(ws[it.variant], it.variant, it.quantity, actor, ref, notes)
        case Err(e) => Err(e)
        case Ok(line) => Ok((ws[it.variant := line.0], ms + [line.1]))
  }

  /** The deduction loop of `complete_sale`, item by item; the first item whose
      `reduce_stock` raises aborts the whole loop. */
  function Deduct(vs: Variants, items: seq<SaleItem>, ref: string, actor: Option<EmployeeId>,
                  notes: string): Result<(Variants, seq<StockMovement>)>
  {
    if items == [] then Ok((vs, []))
    else SaleTurn(Deduct(vs, items[..|items| - 1], ref, actor, notes), items[|items| - 1], ref, actor, notes)
  }

  /** The restoring loop of `cancel_sale`, item by item. */
  function Restore(vs: Variants, items: seq<SaleItem>, ref: string, actor: Option<EmployeeId>,
                   notes: string): Result<(Variants, seq<StockMovement>)>
  {
    if items == [] then Ok((vs, []))
    else ReturnTurn(Restore(vs, items[..|items| - 1], ref, actor, notes), items[|items| - 1], ref, actor, notes)
  }

  /** Appending an item raises the demand on its own variant by its quantity and
      leaves every other variant's demand alone. */
  lemma DemandAppend(init: seq<SaleItem>, it: SaleItem, v: VariantId)
    ensures Demand(init + [it], v) == Demand(init, v) + (if it.variant == v then it.quantity else 0)
  {
    var items := init + [it];
    assert items[..|items| - 1] == init;
  }

  lemma RestorableAppend(vs: Variants, init: seq<SaleItem>, it: SaleItem)
    ensures Restorable(vs, init + [it]) <==> Restorable(vs, init) && it.variant in vs && it.quantity > 0
  {
    assert forall i :: 0 <= i < |init| ==> (init + [it])[i] == init[i];
    assert (init + [it])[|init|] == it;
  }

  /** The demand of a longer list fits exactly when the shorter one fits and the
      last item fits in what the shorter one leaves of its variant. */
  lemma FitsAppend(vs: Variants, init: seq<SaleItem>, it: SaleItem)
    ensures DemandFits(vs, init + [it]) <==>
      DemandFits(vs, init) && it.variant in vs && it.quantity > 0 &&
      Demand(init, it.variant) + it.quantity <= vs[it.variant].stockQuantity
  {
    RestorableAppend(vs, init, it);
    forall v ensures Demand(init + [it], v) == Demand(init, v) + (if it.variant == v then it.quantity else 0) {
      DemandAppend(init, it, v);
    }
  }

  lemma ShiftedAppend(vs: Variants, init: seq<SaleItem>, it: SaleItem, up: bool, ws: Variants)
    requires Shifted(vs, init, up, ws) && it.variant in vs
    requires Move(ws[it.variant].stockQuantity, it.quantity, up) >= 0
    ensures Shifted(vs, init + [it], up,
      ws[it.variant := ws[it.variant].(stockQuantity := Move(ws[it.variant].stockQuantity, it.quantity, up))])
  {
    forall v ensures Demand(init + [it], v) == Demand(init, v) + (if it.variant == v then it.quantity else 0) {
      DemandAppend(init, it, v);
    }
  }

  lemma LoggedAppend(vs: Variants, init: seq<SaleItem>, it: SaleItem, up: bool, t: MovementType,
                     ref: string, actor: Option<EmployeeId>, notes: string,
                     ms: seq<StockMovement>, m: StockMovement)
    requires Logged(vs, init, up, t, ref, actor, notes, ms) && it.variant in vs
    requires m.variant == it.variant && m.movementType == t && m.quantity == Move(0, it.quantity, up)
    requires m.previousStock == Move(vs[it.variant].stockQuantity, Demand(init, it.variant), up)
    requires m.newStock == m.previousStock + m.quantity
    requires m.referenceId == ref && m.performedBy == actor && m.notes == notes
    ensures Logged(vs, init + [it], up, t, ref, actor, notes, ms + [m])
  {
    var items := init + [it];
    assert items[..|init|] == init;
    assert forall i :: 0 <= i < |init| ==> items[i] == init[i] && items[..i] == init[..i];
  }

  /** The deduction loop succeeds exactly when the summed demand fits; it then
      lowers each variant by its demand and logs one SALE movement per item. */
  lemma {:induction false} DeductFacts(vs: Variants, items: seq<SaleItem>, ref: string,
                                       actor: Option<EmployeeId>, notes: string)
    ensures Deduct(vs, items, ref, actor, notes).Ok? <==> DemandFits(vs, items)
    ensures Deduct(vs, items, ref, actor, notes).Ok? ==>
      Shifted(vs, items, false, Deduct(vs, items, ref, actor, notes).value.0) &&
      Logged(vs, items, false, SaleMovement, ref, actor, notes, Deduct(vs, items, ref, actor, notes).value.1)
  {
    if items != [] {
      var init := items[..|items| - 1];
      var it := items[|items| - 1];
      assert items == init + [it];
      DeductFacts(vs, init, ref, actor, notes);
      var prev := Deduct(vs, init, ref, actor, notes);
      if prev.Ok? {
        DeductStep(vs, init, it, prev.value.0, prev.value.1, ref, actor, notes);
      } else {
        FitsAppend(vs, init, it);
      }
    }
  }

  /** One turn of the deduction loop keeps `Shifted` and `Logged`, and succeeds
      exactly when the longer list of items still fits. */
  lemma DeductStep(vs: Variants, init: seq<SaleItem>, it: SaleItem, ws: Variants, ms: seq<StockMovement>,
                   ref: string, actor: Option<EmployeeId>, notes: string)
    requires DemandFits(vs, init)
    requires Shifted(vs, init, false, ws) && Logged(vs, init, false, SaleMovement, ref, actor, notes, ms)
    ensures var r := SaleTurn(Ok((ws, ms)), it, ref, actor, notes);
      (r.Ok? <==> DemandFits(vs, init + [it])) &&
      (r.Ok? ==> Shifted(vs, init + [it], false, r.value.0) &&
                 Logged(vs, init + [it], false, SaleMovement, ref, actor, notes, r.value.1))
  {
    var u := it.variant;
    var r := SaleTurn(Ok((ws, ms)), it, ref, actor, notes);
    assert r.Ok? <==> DemandFits(vs, init + [it]) by {
      FitsAppend(vs, init, it);
      if u in vs {
        assert ws[u].stockQuantity == vs[u].stockQuantity - Demand(init, u);
      }
    }
    if r.Ok? {
      var m := CreateMovement(u, ws[u].stockQuantity, SaleMovement, -(it.quantity as int), actor, ref, notes);
      ShiftedAppend(vs, init, it, false, ws);
      LoggedAppend(vs, init, it, false, SaleMovement, ref, actor, notes, ms, m);
    }
  }

  /** The restoring loop succeeds exactly when every item is restorable; it then
      raises each variant by its demand and logs one RETURN movement per item. */
  lemma {:induction false} RestoreFacts(vs: Variants, items: seq<SaleItem>, ref: string,
                                        actor: Option<EmployeeId>, notes: string)
    ensures Restore(vs, items, ref, actor, notes).Ok? <==> Restorable(vs, items)
    ensures Restore(vs, items, ref, actor, notes).Ok? ==>
      Shifted(vs, items, true, Restore(vs, items, ref, actor, notes).value.0) &&
      Logged(vs, items, true, ReturnMovement, ref, actor, notes, Restore(vs, items, ref, actor, notes).value.1)
  {
    if items != [] {
      var init := items[..|items| - 1];
      var it := items[|items| - 1];
      assert items == init + [it];
      RestoreFacts(vs, init, ref, actor, notes);
      var prev := Restore(vs, init, ref, actor, notes);
      if prev.Ok? {
        RestoreStep(vs, init, it, prev.value.0, prev.value.1, ref, actor, notes);
      } else {
        RestorableAppend(vs, init, it);
      }
    }
  }

  /** One turn of the restoring loop keeps `Shifted` and `Logged`, and succeeds
      exactly when the longer list of items is still restorable. */
  lemma RestoreStep(vs: Variants, init: seq<SaleItem>, it: SaleItem, ws: Variants, ms: seq<StockMovement>,
                    ref: string, actor: Option<EmployeeId>, notes: string)
    requires Restorable(vs, init)
    requires Shifted(vs, init, true, ws) && Logged(vs, init, true, ReturnMovement, ref, actor, notes, ms)
    ensures var r := ReturnTurn(Ok((ws, ms)), it, ref, actor, notes);
      (r.Ok? <==> Restorable(vs, init + [it])) &&
      (r.Ok? ==> Shifted(vs, init + [it], true, r.value.0) &&
                 Logged(vs, init + [it], true, ReturnMovement, ref, actor, notes, r.value.1))
  {
    var u := it.variant;
    var r := ReturnTurn(Ok((ws, ms)), it, ref, actor, notes);
    assert r.Ok? <==> Restorable(vs, init + [it]) by {
      RestorableAppend(vs, init, it);
    }
    if r.Ok? {
      var m := CreateMovement(u, ws[u].stockQuantity, ReturnMovement, it.quantity, actor, ref, notes);
      ShiftedAppend(vs, init, it, true, ws);
      LoggedAppend(vs, init, it, true, ReturnMovement, ref, actor, notes, ms, m);
    }
  }

  /** An item asks for no more than the demand on its own variant. */
  lemma {:induction false} DemandCoversItem(items: seq<SaleItem>, i: nat)
    requires i < |items|
    ensures items[i].quantity <= Demand(items, items[i].variant)
  {
    var init := items[..|items| - 1];
    assert items == init + [items[|items| - 1]];
    DemandAppend(init, items[|items| - 1], items[i].variant);
    if i < |items| - 1 {
      DemandCoversItem(init, i);
    }
  }

  // ---------------------------------------------------------------------------
  /** A refusal part-way through the deduction loop is the loop's refusal: once a
      prefix of the items fails, the whole loop fails with the same error. */
  lemma {:induction false} DeductPrefixErr(vs: Variants, items: seq<SaleItem>, k: nat, ref: string,
                                           actor: Option<EmployeeId>, notes: string)
    requires k <= |items| && Deduct(vs, items[..k], ref, actor, notes).Err?
    ensures Deduct(vs, items, ref, actor, notes) == Deduct(vs, items[..k], ref, actor, notes)
    decreases |items|
  {
    if k < |items| {
      var n := |items| - 1;
      assert items[..n][..k] == items[..k];
      DeductPrefixErr(vs, items[..n], k, ref, actor, notes);
    } else {
      assert items[..k] == items;
    }
  }

  /** The same for the restoring loop. */
  lemma {:induction false} RestorePrefixErr(vs: Variants, items: seq<SaleItem>, k: nat, ref: string,
                                            actor: Option<EmployeeId>, notes: string)
    requires k <= |items| && Restore(vs, items[..k], ref, actor, notes).Err?
    ensures Restore(vs, items, ref, actor, notes) == Restore(vs, items[..k], ref, actor, notes)
    decreases |items|
  {
    if k < |items| {
      var n := |items| - 1;
      assert items[..n][..k] == items[..k];
      RestorePrefixErr(vs, items[..n], k, ref, actor, notes);
    } else {
      assert items[..k] == items;
    }
  }

  // The transitions

  /** The item-by-item check of `complete_sale` (and of `create_sale`): the first
      item whose variant holds less than its quantity is reported. */
  predicate ItemCovered(vs: Variants, it: SaleItem) {
    it.variant in vs && it.quantity <= vs[it.variant].stockQuantity
  }

  function CheckStock(vs: Variants, items: seq<SaleItem>): (r: Outcome)
    ensures r.Pass? <==> forall i :: 0 <= i < |items| ==> ItemCovered(vs, items[i])
    ensures r.Fail? ==> r.error == NotFound || r.error == InsufficientStock
  {
    if items == [] then Pass
    else if items[0].variant !in vs then Fail(NotFound)
    else if vs[items[0].variant].stockQuantity < items[0].quantity then Fail(InsufficientStock)
    else
      var r := CheckStock(vs, items[1..]);
      assert forall i :: 1 <= i < |items| ==> items[1..][i - 1] == items[i];
      r
  }

  /** Items already found covered can be skipped: the check's verdict is that of
      the remaining items. */
  lemma {:induction false} CheckStockSkip(vs: Variants, items: seq<SaleItem>, k: nat)
    requires k <= |items|
    requires forall j :: 0 <= j < k ==> ItemCovered(vs, items[j])
    ensures CheckStock(vs, items) == CheckStock(vs, items[k..])
    decreases k
  {
    if k > 0 {
      assert items[1..][k - 1..] == items[k..];
      CheckStockSkip(vs, items[1..], k - 1);
    }
  }

  /** `Sale.complete_sale`: refuses a COMPLETED sale, then a sale without items,
      then a sale one of whose items exceeds its variant's stock; otherwise refreshes
      the delivery fee, deducts every item and marks the sale COMPLETED. The result
      is the new variant table, the movements logged, and the new sale row. */
  function CompleteSale(vs: Variants, s: Sale, id: SaleId, customerName: string): Result<(Variants, seq<StockMovement>, Sale)>
  {
    if s.status == Completed then Err(AlreadyCompleted)
    else if s.items == [] then Err(EmptySale)
    else
      match CheckStock(vs, s.items)
      case Fail(e) => Err(e)
      case Pass =>
        match Deduct(vs, s.items, SaleReference(id), s.createdBy, SaleNotes(customerName))
        case Err(e) => Err(e)
        case Ok(acc) => Ok((acc.0, acc.1, s.(status := Completed, deliveryFee := CalculateDeliveryFee(s))))
  }

  /** `Sale.cancel_sale`: refuses a CANCELLED sale; a COMPLETED one gets every item
      added back with a RETURN movement; any other sale changes no stock. Either way
      the sale becomes CANCELLED. */
  function CancelSale(vs: Variants, s: Sale, id: SaleId, customerName: string): Result<(Variants, seq<StockMovement>, Sale)>
  {
    if s.status == Cancelled then Err(AlreadyCancelled)
    else if s.status == Completed then
      match Restore(vs, s.items, CancelReference(id), s.createdBy, CancelNotes(customerName))
      case Err(e) => Err(e)
      case Ok(acc) => Ok((acc.0, acc.1, s.(status := Cancelled)))
    else Ok((vs, [], s.(status := Cancelled)))
  }

  /** When `complete_sale` succeeds, and what it does. It succeeds exactly when the
      sale is not COMPLETED (a CANCELLED sale can be completed), has items, and the
      summed demand of its items fits each variant's stock. Then every variant loses
      exactly its demand, one SALE movement per item is logged against the sale's
      reference, and the sale is COMPLETED with its delivery fee refreshed. */
  lemma CompleteSaleFacts(vs: Variants, s: Sale, id: SaleId, customerName: string)
    ensures s.status == Completed ==> CompleteSale(vs, s, id, customerName) == Err(AlreadyCompleted)
    ensures s.status != Completed && s.items == [] ==> CompleteSale(vs, s, id, customerName) == Err(EmptySale)
    ensures CompleteSale(vs, s, id, customerName).Ok? <==>
      s.status != Completed && s.items != [] && DemandFits(vs, s.items)
    ensures CompleteSale(vs, s, id, customerName).Ok? ==>
      var (ws, ms, s') := CompleteSale(vs, s, id, customerName).value;
      Shifted(vs, s.items, false, ws) &&
      Logged(vs, s.items, false, SaleMovement, SaleReference(id), s.createdBy, SaleNotes(customerName), ms) &&
      s' == s.(status := Completed, deliveryFee := CalculateDeliveryFee(s))
  {
    DeductFacts(vs, s.items, SaleReference(id), s.createdBy, SaleNotes(customerName));
    if DemandFits(vs, s.items) {
      forall i | 0 <= i < |s.items| ensures ItemCovered(vs, s.items[i]) {
        DemandCoversItem(s.items, i);
      }
    }
  }

  /** A completed sale refers to the rows it referred to before: the variant
      table keeps its keys and each row its product, every movement names a
      variant of the table, and the sale keeps its customer and items. */
  lemma CompleteSaleRefs(vs: Variants, s: Sale, id: SaleId, customerName: string)
    requires CompleteSale(vs, s, id, customerName).Ok?
    ensures var res := CompleteSale(vs, s, id, customerName).value;
      && res.0.Keys == vs.Keys && (forall v :: v in res.0 ==> res.0[v].product == vs[v].product)
      && (forall i :: 0 <= i < |res.1| ==> res.1[i].variant in vs)
      && res.2.customer == s.customer && res.2.items == s.items
  {
    CompleteSaleFacts(vs, s, id, customerName);
  }

  /** Two items on one variant of stock 5, three units each: each passes the
      per-item check, the deduction then fails on the second, and the sale is not
      completed. */
  lemma DuplicateVariantRefused(v: ProductVariant)
    requires v.stockQuantity == 5
    ensures var s := Sale(0, None, Pending, Cash, false, 0, "", [SaleItem(1, 3, 100, 0), SaleItem(1, 3, 100, 0)]);
      CheckStock(map[1 := v], s.items) == Pass &&
      CompleteSale(map[1 := v], s, 9, "") == Err(InsufficientStock)
  {
    var it := SaleItem(1, 3, 100, 0);
    var vs := map[1 := v];
    assert [it, it][..1] == [it];
    assert [it][..0] == [];
    assert [it, it][1..] == [it];
    assert [it][1..] == [];
    DemandAppend([], it, 1);
    assert [] + [it] == [it];
    assert Restorable(vs, [it]);
    DeductFacts(vs, [it], SaleReference(9), None, SaleNotes(""));
    var first := Deduct(vs, [it], SaleReference(9), None, SaleNotes(""));
    assert first.Ok? && first.value.0[1].stockQuantity == 2;
  }

  /** When `cancel_sale` succeeds, and what it does. It refuses a CANCELLED sale;
      from COMPLETED it succeeds when the items are restorable and adds each
      variant's demand back with one RETURN movement per item; from PENDING it
      changes no stock and logs nothing. Either way the sale becomes CANCELLED. */
  lemma CancelSaleFacts(vs: Variants, s: Sale, id: SaleId, customerName: string)
    ensures s.status == Cancelled ==> CancelSale(vs, s, id, customerName) == Err(AlreadyCancelled)
    ensures s.status == Pending ==> CancelSale(vs, s, id, customerName) == Ok((vs, [], s.(status := Cancelled)))
    ensures s.status == Completed ==>
      (CancelSale(vs, s, id, customerName).Ok? <==> Restorable(vs, s.items))
    ensures s.status == Completed && CancelSale(vs, s, id, customerName).Ok? ==>
      var (ws, ms, s') := CancelSale(vs, s, id, customerName).value;
      Shifted(vs, s.items, true, ws) &&
      Logged(vs, s.items, true, ReturnMovement, CancelReference(id), s.createdBy, CancelNotes(customerName), ms) &&
      s' == s.(status := Cancelled)
  {
    RestoreFacts(vs, s.items, CancelReference(id), s.createdBy, CancelNotes(customerName));
  }

  /** The same for a cancelled sale. */
  lemma CancelSaleRefs(vs: Variants, s: Sale, id: SaleId, customerName: string)
    requires CancelSale(vs, s, id, customerName).Ok?
    ensures var res := CancelSale(vs, s, id, customerName).value;
      && res.0.Keys == vs.Keys && (forall v :: v in res.0 ==> res.0[v].product == vs[v].product)
      && (forall i :: 0 <= i < |res.1| ==> res.1[i].variant in vs)
      && res.2.customer == s.customer && res.2.items == s.items
  {
    CancelSaleFacts(vs, s, id, customerName);
  }

  /** Completing a sale and then cancelling it gives back the variant table exactly
      as it was before the completion, and leaves the sale CANCELLED. */
  lemma CompleteThenCancel(vs: Variants, s: Sale, id: SaleId, customerName: string)
    requires CompleteSale(vs, s, id, customerName).Ok?
    ensures var (ws, _, s1) := CompleteSale(vs, s, id, customerName).value;
      CancelSale(ws, s1, id, customerName).Ok? &&
      CancelSale(ws, s1, id, customerName).value.0 == vs &&
      CancelSale(ws, s1, id, customerName).value.2.status == Cancelled &&
      CancelSale(ws, s1, id, customerName).value.2.items == s.items
  {
    CompleteSaleFacts(vs, s, id, customerName);
    var (ws, _, s1) := CompleteSale(vs, s, id, customerName).value;
    assert Restorable(ws, s1.items);
    CancelSaleFacts(ws, s1, id, customerName);
    ShiftBack(vs, s.items, ws, CancelSale(ws, s1, id, customerName).value.0);
  }

  /** Moving every variant down by its demand and then up by the same demand
      gives back the table. */
  lemma ShiftBack(vs: Variants, items: seq<SaleItem>, ws: Variants, us: Variants)
    requires Shifted(vs, items, false, ws) && Shifted(ws, items, true, us)
    ensures us == vs
  {
    forall v | v in vs ensures us[v] == vs[v] {
      assert v in ws;
    }
  }

  /** A completed sale cannot be completed a second time. */
  lemma CompleteOnce(vs: Variants, s: Sale, id: SaleId, customerName: string)
    requires CompleteSale(vs, s, id, customerName).Ok?
    ensures var (ws, _, s1) := CompleteSale(vs, s, id, customerName).value;
      s1.status == Completed && CompleteSale(ws, s1, id, customerName) == Err(AlreadyCompleted)
  {
  }

  // ---------------------------------------------------------------------------
  // Creating a sale

  /** What the sale form submits. */
  datatype SaleForm = SaleForm(
    customer: CustomerId,
    paymentMethod: PaymentMethod,
    deliveryRequired: bool,
    notes: string)

  /** One form of the item formset; `variant` is None for a blank extra form. The
      discount is given in hundredths of a percent. */
  datatype SaleItemForm = SaleItemForm(
    variant: Option<VariantId>,
    quantity: int,
    unitPrice: int,
    discount: int)

  /** Validation of a filled item form: the variant must be a known one, and the
      quantity, unit price and discount must meet the item rules. The discount field
      holds at most five digits, two of them decimals (999.99%), a bound the item
      rule's "below 100%" already implies. */
  function CleanSaleItem(f: SaleItemForm, vs: Variants): (r: Result<SaleItem>)
    requires f.variant.Some?
    ensures r.Ok? <==> f.variant.value in vs && f.quantity >= 1 && f.unitPrice >= 1 && 0 <= f.discount < 10000
    ensures r.Ok? ==> (ValidSaleItem(r.value) && r.value.variant == f.variant.value &&
      r.value.quantity == f.quantity && r.value.unitPrice == f.unitPrice && r.value.discount == f.discount)
  {
    if f.variant.value !in vs then Err(NotFound)
    else if f.quantity < 1 then Err(InvalidQuantity)
    else if f.unitPrice < 1 then Err(NonPositivePrice)
    else if f.discount < 0 || f.discount >= 10000 then Err(InvalidDiscount)
    else Ok(SaleItem(f.variant.value, f.quantity, f.unitPrice, f.discount))
  }

  /** The item formset: blank forms are dropped, every filled form must be valid,
      and the items keep the order of their forms. A form whose `variant` is `None`
      stands for an untouched extra form, which the formset skips; a form filled in
      without a variant is not represented. */
  function CleanSaleItems(forms: seq<SaleItemForm>, vs: Variants): (r: Result<seq<SaleItem>>)
    ensures r.Ok? <==> forall i :: 0 <= i < |forms| && forms[i].variant.Some? ==> CleanSaleItem(forms[i], vs).Ok?
    ensures r.Ok? ==> ValidSaleItems(r.value) && |r.value| <= |forms|
    ensures r.Ok? ==> (r.value == [] <==> forall i :: 0 <= i < |forms| ==> forms[i].variant.None?)
    ensures r.Ok? ==> forall j :: 0 <= j < |r.value| ==> r.value[j].variant in vs
  {
    if forms == [] then Ok([])
    else
      var rest := CleanSaleItems(forms[1..], vs);
      assert forall i :: 1 <= i < |forms| ==> forms[1..][i - 1] == forms[i];
      if forms[0].variant.None? then rest
      else
        match CleanSaleItem(forms[0], vs)
        case Err(e) => Err(e)
        case Ok(it) =>
          match rest
          case Err(e) => Err(e)
          case Ok(items) => Ok([it] + items)
  }

  /** `create_sale`: the customer must exist and the forms be valid; at least one
      item must name a variant; each item's quantity must be within its variant's
      stock. The new sale is PENDING, created by the current user, with a delivery
      fee computed from its items when delivery is required and 0 otherwise. */
  function CreateSale(vs: Variants, customers: map<CustomerId, Customer>, form: SaleForm,
                      actor: EmployeeId, forms: seq<SaleItemForm>): Result<Sale>
  {
    if form.customer !in customers then Err(NotFound)
    else
      match CleanSaleItems(forms, vs)
      case Err(e) => Err(e)
      case Ok(items) =>
        if items == [] then Err(EmptySale)
        else
          match CheckStock(vs, items)
          case Fail(e) => Err(e)
          case Pass =>
            var s := Sale(form.customer, Some(actor), Pending, form.paymentMethod,
                          form.deliveryRequired, 0, form.notes, items);
            Ok(s.(deliveryFee := CalculateDeliveryFee(s)))
  }

  /** What a successful `create_sale` yields: a PENDING sale of the chosen customer,
      made by the current user, whose items are valid, non-empty and each within
      stock, with a non-negative delivery fee that is 0 without delivery; and a sale
      with no filled item form is refused. */
  lemma CreateSaleFacts(vs: Variants, customers: map<CustomerId, Customer>, form: SaleForm,
                        actor: EmployeeId, forms: seq<SaleItemForm>)
    ensures (forall i :: 0 <= i < |forms| ==> forms[i].variant.None?) ==>
      CreateSale(vs, customers, form, actor, forms).Err?
    ensures CreateSale(vs, customers, form, actor, forms).Ok? ==>
      var s := CreateSale(vs, customers, form, actor, forms).value;
      s.status == Pending && s.customer == form.customer && s.customer in customers &&
      s.createdBy == Some(actor) && s.deliveryRequired == form.deliveryRequired &&
      s.items != [] && ValidSaleItems(s.items) &&
      (forall i :: 0 <= i < |s.items| ==> ItemCovered(vs, s.items[i])) &&
      s.deliveryFee == CalculateDeliveryFee(s) && s.deliveryFee >= 0 &&
      (!s.deliveryRequired ==> s.deliveryFee == 0)
  {
  }

  // ---------------------------------------------------------------------------
  // Guards of the delete views

  /** `delete_sale` refuses a COMPLETED sale. */
  function CheckSaleDeletable(s: Sale): (r: Outcome)
    ensures r.Fail? <==> s.status == Completed
    ensures r.Fail? ==> r.error == CompletedSale
  {
    if s.status == Completed then Fail(CompletedSale) else Pass
  }

  /** `delete_customer` refuses a customer who has any sale, whatever its status. */
  function CheckCustomerDeletable(sales: map<SaleId, Sale>, c: CustomerId): (r: Outcome)
    ensures r.Fail? <==> exists id :: id in sales && sales[id].customer == c
    ensures r.Fail? ==> r.error == InUse
  {
    if exists id :: id in sales && sales[id].customer == c then Fail(InUse) else Pass
  }
}
