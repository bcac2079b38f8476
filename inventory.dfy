/** inventory/models.py, inventory/forms.py and the arithmetic of inventory/views.py:
    manual stock entries, the movement audit rows, the entry form's quantity check and
    the stock-value total. */
module Inventory {
  import opened Common
  import opened Products

  datatype EntryType = Addition | Adjustment | Damage | Return | Correction

  /** A manual stock entry as stored: its quantity is the normalised, signed one. */
  datatype StockEntry = StockEntry(
    variant: VariantId,
    quantity: int,
    entryType: EntryType,
    enteredBy: Option<EmployeeId>,
    notes: string)

  datatype MovementType = SaleMovement | OrderMovement | AdjustmentMovement | ReturnMovement

  /** An audit row: the signed change and the stock before and after it. */
  datatype StockMovement = StockMovement(
    variant: VariantId,
    movementType: MovementType,
    quantity: int,
    referenceId: string,
    previousStock: int,
    newStock: int,
    performedBy: Option<EmployeeId>,
    notes: string)

  function Abs(x: int): (r: nat)
    ensures r == x || r == -x
  {
    if x < 0 then -x else x
  }

  /** The sign policy of the stock entry view: a DAMAGE entry always reduces stock,
      an ADDITION or RETURN always adds, an ADJUSTMENT or CORRECTION keeps the sign
      the user typed. The magnitude is never changed. */
  function NormaliseQuantity(t: EntryType, q: int): (r: int)
    ensures Abs(r) == Abs(q)
    ensures t == Damage ==> r <= 0
    ensures t == Addition || t == Return ==> r >= 0
    ensures t == Adjustment || t == Correction ==> r == q
  {
    match t
    case Damage => -(Abs(q) as int)
    case Addition => Abs(q)
    case Return => Abs(q)
    case _ => q
  }

  /** Normalising twice is normalising once: a stored entry's quantity is already in
      the form its type prescribes. */
  lemma NormaliseIdempotent(t: EntryType, q: int)
    ensures NormaliseQuantity(t, NormaliseQuantity(t, q)) == NormaliseQuantity(t, q)
  {
  }

  /** Normalisation leaves a quantity alone exactly when its sign already agrees with
      the entry type. */
  lemma NormaliseFixedPoints(t: EntryType, q: int)
    ensures NormaliseQuantity(t, q) == q <==>
      match t
      case Damage => q <= 0
      case Addition => q >= 0
      case Return => q >= 0
      case _ => true
  {
  }

  /** The `{sign}{quantity}` part of both `__str__` methods: a '+' is written
      only in front of a positive quantity, a '-' only in front of a negative one. */
  function SignedQuantity(q: int): (s: string)
    ensures |s| >= 1
    ensures s[0] == '+' <==> q > 0
    ensures s[0] == '-' <==> q < 0
    ensures IsDigit(s[0]) <==> q == 0
  {
    (if q > 0 then "+" else "") + IntToString(q)
  }

  /** `ProductVariant.__str__`: "product - variant". */
  function VariantLabel(productName: string, variantName: string): string {
    productName + " - " + variantName
  }

  /** `StockEntry.__str__`: "variant - {sign}{quantity} units". */
  function EntryLabel(variantLabel: string, e: StockEntry): (s: string)
    ensures |s| > |variantLabel| + 3 && s[..|variantLabel|] == variantLabel
    ensures s[|variantLabel| + 3] == '+' <==> e.quantity > 0
  {
    variantLabel + " - " + SignedQuantity(e.quantity) + " units"
  }

  /** `StockMovement.__str__`: "variant - {sign}{quantity}". */
  function MovementLabel(variantLabel: string, m: StockMovement): (s: string)
    ensures |s| > |variantLabel| + 3 && s[..|variantLabel|] == variantLabel
    ensures s[|variantLabel| + 3] == '+' <==> m.quantity > 0
  {
    variantLabel + " - " + SignedQuantity(m.quantity)
  }

  /** The row `create_movement` inserts, given the variant's current stock: the stock
      at call time is `previousStock`, the change is `quantity` and `newStock` is
      their sum; every other field is stored exactly as passed. */
  function CreateMovement(variant: VariantId, currentStock: nat, movementType: MovementType,
                          quantity: int, performedBy: Option<EmployeeId>, referenceId: string,
                          notes: string): (m: StockMovement)
    ensures m.previousStock == currentStock
    ensures m.newStock - m.previousStock == quantity
    ensures m.variant == variant && m.movementType == movementType && m.quantity == quantity
    ensures m.referenceId == referenceId && m.notes == notes && m.performedBy == performedBy
  {
    StockMovement(variant, movementType, quantity, referenceId, currentStock,
                  currentStock + quantity, performedBy, notes)
  }

  /** `StockEntryForm.clean_quantity`, given the variant already cleaned by the form
      (None when the variant field failed): zero is refused; a negative quantity is
      refused when it would take that variant's stock below zero; anything else is
      returned unchanged. The check is on the raw quantity, before normalisation. */
  function CleanQuantity(quantity: int, variant: Option<ProductVariant>): (r: Result<int>)
    ensures r.Ok? <==> quantity != 0 && (quantity < 0 && variant.Some? ==> variant.value.stockQuantity + quantity >= 0)
    ensures quantity == 0 ==> r == Err(ZeroQuantity)
    ensures r.Err? && quantity != 0 ==> r.error == NegativeStock
    ensures r.Ok? ==> r.value == quantity
  {
    if quantity == 0 then Err(ZeroQuantity)
    else if quantity < 0 && variant.Some? && variant.value.stockQuantity + quantity < 0 then Err(NegativeStock)
    else Ok(quantity)
  }

  /** A positive quantity passes whatever the stock, and without a cleaned variant so
      does any non-zero quantity. */
  lemma CleanQuantityPermissive(quantity: int, variant: Option<ProductVariant>)
    ensures quantity > 0 ==> CleanQuantity(quantity, variant) == Ok(quantity)
    ensures quantity != 0 && variant.None? ==> CleanQuantity(quantity, variant) == Ok(quantity)
  {
  }

  /** The inventory value on the dashboard and the report: the sum of
      `stock_quantity * price` over the active variants. It is never negative while
      no price is. */
  function StockValue(vs: seq<ProductVariant>): (r: int)
    ensures (forall i :: 0 <= i < |vs| ==> vs[i].price >= 0) ==> r >= 0
  {
    if vs == [] then 0
    else StockValue(vs[..|vs| - 1]) + (if vs[|vs| - 1].isActive then vs[|vs| - 1].stockQuantity * vs[|vs| - 1].price else 0)
  }

  /** Changing one variant's stock moves the total value by that change times the
      variant's price if it is active, and not at all otherwise. */
  lemma {:induction false} StockValueUpdate(vs: seq<ProductVariant>, i: nat, s: nat)
    requires i < |vs|
    ensures StockValue(vs[i := vs[i].(stockQuantity := s)]) ==
      StockValue(vs) + (if vs[i].isActive then (s - vs[i].stockQuantity) * vs[i].price else 0)
  {
    var ws := vs[i := vs[i].(stockQuantity := s)];
    if i == |vs| - 1 {
      assert ws[..|ws| - 1] == vs[..|vs| - 1];
      var p := vs[i].price;
      assert s * p == vs[i].stockQuantity * p + (s - vs[i].stockQuantity) * p by {
        assert (s - vs[i].stockQuantity) * p == s * p - vs[i].stockQuantity * p;
      }
    } else {
      assert ws[..|ws| - 1] == vs[..|vs| - 1][i := vs[i].(stockQuantity := s)];
      StockValueUpdate(vs[..|vs| - 1], i, s);
    }
  }

  /** With non-negative prices the inventory value is never negative. */
  lemma {:induction false} StockValueNonNegative(vs: seq<ProductVariant>)
    requires forall i :: 0 <= i < |vs| ==> vs[i].price >= 0
    ensures StockValue(vs) >= 0
  {
    if vs != [] {
      var init := vs[..|vs| - 1];
      assert forall i :: 0 <= i < |init| ==> init[i] == vs[i];
      StockValueNonNegative(init);
      var last := vs[|vs| - 1];
      assert last.stockQuantity * last.price >= 0;
    }
  }

  // ---------------------------------------------------------------------------
  // Saving an entry and the stock entry view

  /** `StockEntry.save` for a new entry, with its parent call written as the model
      intends (`super().save()`): the entry's quantity is added to its variant's stock
      exactly once. The stock column is non-negative, so the database refuses a save
      that would take it below zero. */
  function ApplyNewEntry(v: ProductVariant, quantity: int): (r: Result<ProductVariant>)
    ensures r.Ok? <==> v.stockQuantity + quantity >= 0
    ensures r.Err? ==> r.error == NegativeStock
    ensures r.Ok? ==> r.value.stockQuantity == v.stockQuantity + quantity
    ensures r.Ok? ==> r.value == v.(stockQuantity := r.value.stockQuantity)
  {
    if v.stockQuantity + quantity < 0 then Err(NegativeStock)
    else Ok(v.(stockQuantity := v.stockQuantity + quantity))
  }

  /** Two entries saved one after the other move the stock by their sum, and an
      entry followed by its opposite gives back the row. */
  lemma ApplyEntriesCompose(v: ProductVariant, a: int, b: int)
    requires ApplyNewEntry(v, a).Ok?
    ensures ApplyNewEntry(ApplyNewEntry(v, a).value, b) == ApplyNewEntry(v, a + b)
    ensures ApplyNewEntry(ApplyNewEntry(v, a).value, -a) == Ok(v)
  {
  }

  /** `StockEntry.save` for a new entry as written: the parent call is spelled
      `super.save(...)`, which raises AttributeError (the builtin `super` type has
      no `save`) before anything is stored. */
  function ApplyNewEntryAsWritten(v: ProductVariant, quantity: int): Result<ProductVariant> {
    Err(ProgramError)
  }

  /** As written, no new stock entry can be saved, whatever its quantity, while the
      intended save succeeds for every entry that keeps the stock non-negative. */
  lemma NewEntrySaveFails(v: ProductVariant, quantity: int)
    requires v.stockQuantity + quantity >= 0
    ensures ApplyNewEntryAsWritten(v, quantity).Err? && ApplyNewEntryAsWritten(v, quantity).error == ProgramError
    ensures ApplyNewEntry(v, quantity).Ok?
  {
  }

  /** What the stock entry form submits. */
  datatype EntryForm = EntryForm(variant: VariantId, quantity: int, entryType: EntryType, notes: string)

  /** The stock_entry view, with the variant's stock applied once, by the entry's own
      save. The variant must be one of the active variants the form offers; the raw
      quantity must pass `clean_quantity`; it is then normalised by the entry type,
      and refused when it would take the stock below zero. On success the result is
      the variant row with its new stock and the entry as stored, which carries the
      normalised quantity and the current user. */
  function RecordEntry(vs: Variants, f: EntryForm, actor: EmployeeId): (r: Result<(ProductVariant, StockEntry)>)
    ensures f.variant !in vs || !vs[f.variant].isActive ==> r == Err(NotFound)
    ensures r.Ok? <==>
      f.variant in vs && vs[f.variant].isActive && CleanQuantity(f.quantity, Some(vs[f.variant])).Ok? &&
      vs[f.variant].stockQuantity + NormaliseQuantity(f.entryType, f.quantity) >= 0
    ensures r.Ok? ==> r.value.1 == StockEntry(f.variant, NormaliseQuantity(f.entryType, f.quantity), f.entryType, Some(actor), f.notes)
    ensures r.Ok? ==> r.value.0 == vs[f.variant].(stockQuantity := vs[f.variant].stockQuantity + r.value.1.quantity)
  {
    if f.variant !in vs || !vs[f.variant].isActive then Err(NotFound)
    else
      match CleanQuantity(f.quantity, Some(vs[f.variant]))
      case Err(e) => Err(e)
      case Ok(q) =>
        var qty := NormaliseQuantity(f.entryType, q);
        match ApplyNewEntry(vs[f.variant], qty)
        case Err(e) => Err(e)
        case Ok(v) => Ok((v, StockEntry(f.variant, qty, f.entryType, Some(actor), f.notes)))
  }

  /** Which entries the view accepts on an active variant with stock `s`: a DAMAGE
      entry exactly when its size is non-zero and at most `s`; a positive ADDITION or
      RETURN always; a negative ADDITION or RETURN only when the form's own check on
      the raw quantity passes, although it would add stock; an ADJUSTMENT or
      CORRECTION exactly when it is non-zero and does not take the stock below zero. */
  lemma RecordEntryAcceptance(vs: Variants, f: EntryForm, actor: EmployeeId)
    requires f.variant in vs && vs[f.variant].isActive
    ensures var s := vs[f.variant].stockQuantity;
      var q := f.quantity;
      var ok := RecordEntry(vs, f, actor).Ok?;
      && (f.entryType == Damage ==> (ok <==> q != 0 && Abs(q) <= s))
      && ((f.entryType == Addition || f.entryType == Return) && q > 0 ==> ok)
      && ((f.entryType == Addition || f.entryType == Return) && q < 0 ==> (ok <==> s + q >= 0))
      && ((f.entryType == Adjustment || f.entryType == Correction) ==> (ok <==> q != 0 && s + q >= 0))
  {
  }

  /** The stock_entry view once the parent call in `StockEntry.save` is repaired:
      the view itself writes `stock + qty` to the variant and then saves the entry,
      whose save adds `qty` a second time. (With that call as written the view's own
      write is committed and `entry.save()` then fails, so the stock moves once and
      no entry row is stored.) */
  function RecordEntryStockAsWritten(v: ProductVariant, f: EntryForm): (r: Result<ProductVariant>)
    ensures r.Ok? ==> r.value.stockQuantity == v.stockQuantity + 2 * NormaliseQuantity(f.entryType, f.quantity)
  {
    var qty := NormaliseQuantity(f.entryType, f.quantity);
    if v.stockQuantity + qty < 0 then Err(NegativeStock)
    else ApplyNewEntry(v.(stockQuantity := v.stockQuantity + qty), qty)
  }

  /** An ADDITION of 5 on a stock of 10 leaves 20 units once the entry's save is
      repaired while the view still writes the stock itself; the entry records 5
      and the intended view leaves 15. */
  lemma EntryAppliedTwice(v: ProductVariant)
    requires v.stockQuantity == 10 && v.isActive
    ensures var f := EntryForm(0, 5, Addition, "");
      RecordEntryStockAsWritten(v, f) == Ok(v.(stockQuantity := 20)) &&
      RecordEntry(map[0 := v], f, 1).Ok? &&
      RecordEntry(map[0 := v], f, 1).value.0 == v.(stockQuantity := 15) &&
      RecordEntry(map[0 := v], f, 1).value.1.quantity == 5
  {
  }
}
