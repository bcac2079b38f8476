/** products/views.py: creating, updating and deleting products together with their
    variants, and deleting categories and units. A variant's stock reaches the
    table only through the stock entries these views create: every variant row is
    first written with the stock it had (0 for a new one), and the entry's save
    then moves the counter. */
module Catalog {
  import opened Common
  import opened Products
  import opened Inventory
  import opened Database

  /** What the product form submits. */
  datatype ProductForm = ProductForm(
    name: string,
    category: CategoryId,
    unit: UnitId,
    supplier: Option<SupplierId>,
    description: string)

  /** A filled variant form as the view sees it: its cleaned fields, and the
      `stock_quantity` held by the instance the formset built. The form has no
      stock field, so that is the model default 0 for a new variant and the stored
      stock for an existing one; the model lets it be any count. */
  datatype VariantInput = VariantInput(form: VariantForm, stock: nat)

  /** An existing variant's form that is kept (not marked for deletion). */
  datatype KeptVariant = KeptVariant(id: VariantId, input: VariantInput)

  const InitialStockLabel := "Initial stock for "
  const NewVariantLabel := "Initial stock for new variant "
  const AdjustmentLabel := "Stock adjustment for "

  /** The notes of an entry the product views create: a heading, then
      "product - variant". */
  function StockNote(heading: string, productName: string, variantName: string): string {
    heading + productName + " - " + variantName
  }

  // ---------------------------------------------------------------------------
  // Validation

  /** The product form: a name is required, and the category and the unit must be
      among the active ones it offers. `f.name` is the form's cleaned value: the
      CharField has already stripped surrounding whitespace, so a name of spaces
      arrives here empty. */
  function CleanProductForm(t: Tables, f: ProductForm): (r: Outcome)
    ensures r.Pass? <==> f.name != [] && f.category in t.categories && t.categories[f.category]
                         && f.unit in t.units && t.units[f.unit]
    ensures r.Fail? ==> r.error == MissingField || r.error == NotFound
  {
    if f.name == [] then Fail(MissingField)
    else if f.category !in t.categories || !t.categories[f.category] then Fail(NotFound)
    else if f.unit !in t.units || !t.units[f.unit] then Fail(NotFound)
    else Pass
  }

  predicate ValidVariantForm(f: VariantForm) {
    f.variantName != [] && f.price.Some? && 0 <= f.price.value
  }

  /** One variant form: the name and the price are required, and `clean_price`
      refuses a negative price (a price of 0 passes). `f.variantName` is the cleaned,
      whitespace-stripped value of the CharField. */
  function CleanVariantForm(f: VariantForm): (r: Outcome)
    ensures r.Pass? <==> ValidVariantForm(f)
    ensures r.Fail? ==> r.error == MissingField || r.error == NonPositivePrice
  {
    if f.variantName == [] || f.price.None? then Fail(MissingField)
    else
      match CleanPrice(f.price)
      case Err(e) => Fail(e)
      case Ok(_) => Pass
  }

  /** The formset's forms, each validated in turn. */
  function CleanVariantInputs(ins: seq<VariantInput>): (r: Outcome)
    ensures r.Pass? <==> forall i :: 0 <= i < |ins| ==> ValidVariantForm(ins[i].form)
    ensures r.Fail? ==> r.error == MissingField || r.error == NonPositivePrice
  {
    if ins == [] then Pass
    else
      match CleanVariantForm(ins[0].form)
      case Fail(e) => Fail(e)
      case Pass =>
        assert forall i :: 1 <= i < |ins| ==> ins[1..][i - 1] == ins[i];
        CleanVariantInputs(ins[1..])
  }

  function KeptInputs(kept: seq<KeptVariant>): (r: seq<VariantInput>)
    ensures |r| == |kept| && forall i :: 0 <= i < |kept| ==> r[i] == kept[i].input
  {
    seq(|kept|, i requires 0 <= i < |kept| => kept[i].input)
  }

  function KeptIds(kept: seq<KeptVariant>): (r: seq<VariantId>)
    ensures |r| == |kept| && forall i :: 0 <= i < |kept| ==> r[i] == kept[i].id
  {
    seq(|kept|, i requires 0 <= i < |kept| => kept[i].id)
  }

  /** The bound formset of an existing product: every form that names a row names
      a distinct variant of that product. */
  predicate FormsMatch(t: Tables, pid: ProductId, kept: seq<KeptVariant>, removed: seq<VariantId>) {
    var ids := KeptIds(kept) + removed;
    && (forall i :: 0 <= i < |ids| ==> ids[i] in t.variants && t.variants[ids[i]].product == pid)
    && (forall i, j :: 0 <= i < j < |ids| ==> ids[i] != ids[j])
  }

  // ---------------------------------------------------------------------------
  // New variants

  function PriceOf(f: VariantForm): int {
    if f.price.Some? then f.price.value else 0
  }

  /** The row the view first saves for a new variant form: attached to the
      product, active, and with stock 0. */
  function NewVariant(pid: ProductId, f: VariantForm): ProductVariant {
    ProductVariant(pid, f.variantName, PriceOf(f), 0, f.reorderLevel, true)
  }

  /** The ADDITION entry created for a new variant with an initial stock, if any. */
  function InitialEntry(id: VariantId, input: VariantInput, actor: EmployeeId, note: string): (r: seq<StockEntry>)
    ensures r == [] <==> input.stock == 0
  {
    if input.stock > 0 then [StockEntry(id, input.stock, Addition, Some(actor), note)] else []
  }

  /** Saving one new variant: the row goes in under the next key with stock 0, and
      an initial stock then goes in through an ADDITION entry, so the variant ends
      with exactly the initial stock and an entry exists exactly when it is positive. */
  function AddVariant(t: Tables, pid: ProductId, productName: string, input: VariantInput,
                      actor: EmployeeId, heading: string): (r: Result<Tables>)
    ensures r.Ok?
    ensures r.value.variants == t.variants[t.nextId := NewVariant(pid, input.form).(stockQuantity := input.stock)]
    ensures r.value.entries ==
      t.entries + InitialEntry(t.nextId, input, actor, StockNote(heading, productName, input.form.variantName))
    ensures r.value == t.(variants := r.value.variants, entries := r.value.entries, nextId := t.nextId + 1)
  {
    var id := t.nextId;
    var t1 := t.(variants := t.variants[id := NewVariant(pid, input.form)], nextId := id + 1);
    if input.stock > 0 then
      SaveEntryOn(t1, StockEntry(id, input.stock, Addition, Some(actor), StockNote(heading, productName, input.form.variantName)))
    else Ok(t1)
  }

  /** The loop over the formset's new variants, in order. */
  function AddVariants(t: Tables, pid: ProductId, productName: string, ins: seq<VariantInput>,
                       actor: EmployeeId, heading: string): (r: Result<Tables>)
    ensures r.Ok?
    ensures r.value.nextId == t.nextId + |ins|
    ensures r.value == t.(variants := r.value.variants, entries := r.value.entries, nextId := r.value.nextId)
    ensures t.entries <= r.value.entries
    ensures (forall i :: 0 <= i < |ins| ==> ins[i].stock == 0) ==> r.value.entries == t.entries
    decreases |ins|
  {
    if ins == [] then Ok(t)
    else
      var n := |ins| - 1;
      assert forall i :: 0 <= i < n ==> ins[..n][i] == ins[i];
      var t1 := AddVariants(t, pid, productName, ins[..n], actor, heading).value;
      AddVariant(t1, pid, productName, ins[n], actor, heading)
  }

  /** Where each key ends up after the new variants are saved: the key of the
      `i`-th form is the counter plus `i`, and its row carries that form's fields
      and initial stock; rows below the counter are untouched. */
  lemma {:induction false} AddVariantsRow(t: Tables, pid: ProductId, productName: string, ins: seq<VariantInput>,
                                          actor: EmployeeId, heading: string, v: VariantId)
    ensures var u := AddVariants(t, pid, productName, ins, actor, heading).value;
      && (v in u.variants <==> v in t.variants || t.nextId <= v < t.nextId + |ins|)
      && (v in t.variants && v < t.nextId ==> u.variants[v] == t.variants[v])
      && (t.nextId <= v < t.nextId + |ins| ==>
            u.variants[v] == NewVariant(pid, ins[v - t.nextId].form).(stockQuantity := ins[v - t.nextId].stock))
    decreases |ins|
  {
    if ins != [] {
      var n := |ins| - 1;
      AddVariantsRow(t, pid, productName, ins[..n], actor, heading, v);
      assert ins[..n] + [ins[n]] == ins;
      var t1 := AddVariants(t, pid, productName, ins[..n], actor, heading).value;
      assert AddVariants(t, pid, productName, ins, actor, heading) == AddVariant(t1, pid, productName, ins[n], actor, heading);
      if t.nextId <= v < t.nextId + n {
        assert ins[..n][v - t.nextId] == ins[v - t.nextId];
      }
    }
  }

  /** The create_product view: both forms valid, then the product under the next
      key and its variants under the keys after it, all in one transaction. */
  function CreateProductOn(t: Tables, f: ProductForm, ins: seq<VariantInput>, actor: EmployeeId): (r: Result<Tables>)
    ensures r.Ok? <==> CleanProductForm(t, f).Pass? && |ins| >= 1 &&
                       forall i :: 0 <= i < |ins| ==> ValidVariantForm(ins[i].form)
    ensures r.Ok? ==>
      var u := r.value;
      && t.nextId in u.products && u.products[t.nextId] == Product(f.name, f.category, f.unit, f.supplier, f.description, true)
      && u.products == t.products[t.nextId := u.products[t.nextId]]
      && u.nextId == t.nextId + 1 + |ins|
      && u == t.(products := u.products, variants := u.variants, entries := u.entries, nextId := u.nextId)
      && t.entries <= u.entries
  {
    match CleanProductForm(t, f)
    case Fail(e) => Err(e)
    case Pass =>
      match CleanVariantInputs(ins)
      case Fail(e) => Err(e)
      case Pass =>
        match CheckFormsetMinimum(|ins|, 1)
        case Fail(e) => Err(e)
        case Pass =>
          var pid := t.nextId;
          var t1 := t.(products := t.products[pid := Product(f.name, f.category, f.unit, f.supplier, f.description, true)],
                       nextId := pid + 1);
          AddVariants(t1, pid, f.name, ins, actor, InitialStockLabel)
  }

  /** The variants a created product gets: the `i`-th form becomes the row under
      the counter plus 1 plus `i`, belonging to the new product and holding that
      form's initial stock; rows that existed are unchanged. */
  lemma CreateProductVariant(t: Tables, f: ProductForm, ins: seq<VariantInput>, actor: EmployeeId, v: VariantId)
    requires CreateProductOn(t, f, ins, actor).Ok?
    ensures var u := CreateProductOn(t, f, ins, actor).value;
      && (v in u.variants <==> v in t.variants || t.nextId < v <= t.nextId + |ins|)
      && (v in t.variants && v < t.nextId ==> u.variants[v] == t.variants[v])
      && (t.nextId < v <= t.nextId + |ins| ==>
            u.variants[v].product == t.nextId && u.variants[v].stockQuantity == ins[v - t.nextId - 1].stock
            && u.variants[v].variantName == ins[v - t.nextId - 1].form.variantName && u.variants[v].isActive)
  {
    var pid := t.nextId;
    var t1 := t.(products := t.products[pid := Product(f.name, f.category, f.unit, f.supplier, f.description, true)],
                 nextId := pid + 1);
    AddVariantsRow(t1, pid, f.name, ins, actor, InitialStockLabel, v);
  }

  /** As written the variant form has no stock field, so every new variant's
      instance holds the default 0: creating a product then records no entry. */
  lemma CreateProductAsWritten(t: Tables, f: ProductForm, ins: seq<VariantInput>, actor: EmployeeId)
    requires forall i :: 0 <= i < |ins| ==> ins[i].stock == 0
    ensures CreateProductOn(t, f, ins, actor).Ok? ==> CreateProductOn(t, f, ins, actor).value.entries == t.entries
  {
  }

  // ---------------------------------------------------------------------------
  // Existing variants

  /** The ADJUSTMENT entry for an existing variant whose form stock differs from
      the stock it had before the update, if any. */
  function AdjustmentEntry(id: VariantId, oldStock: nat, input: VariantInput, actor: EmployeeId, note: string): (r: seq<StockEntry>)
    ensures r == [] <==> input.stock == oldStock
  {
    if input.stock != oldStock then [StockEntry(id, input.stock - oldStock, Adjustment, Some(actor), note)] else []
  }

  /** A stored row once a kept form has been saved over it: the form's fields and
      the form's stock; the product and the active flag are the row's own. */
  function Rewritten(row: ProductVariant, input: VariantInput): ProductVariant {
    row.(variantName := input.form.variantName, price := PriceOf(input.form),
         reorderLevel := input.form.reorderLevel, stockQuantity := input.stock)
  }

  /** Saving one kept variant: the row takes the form's fields and is written with
      the stock it had when the update began (`before`); a difference from the
      form's stock then goes in as an ADJUSTMENT entry, so the variant ends with
      exactly the form's stock. */
  function KeepVariant(t: Tables, before: Variants, productName: string, k: KeptVariant, actor: EmployeeId): (r: Result<Tables>)
    ensures r.Ok? <==> k.id in t.variants && k.id in before
    ensures r.Ok? ==>
      && r.value.variants == t.variants[k.id := Rewritten(t.variants[k.id], k.input)]
      && r.value.entries == t.entries +
           AdjustmentEntry(k.id, before[k.id].stockQuantity, k.input, actor, StockNote(AdjustmentLabel, productName, k.input.form.variantName))
      && r.value == t.(variants := r.value.variants, entries := r.value.entries)
  {
    if k.id !in t.variants || k.id !in before then Err(NotFound)
    else
      var oldStock := before[k.id].stockQuantity;
      var difference := k.input.stock - oldStock;
      var row := t.variants[k.id].(variantName := k.input.form.variantName, price := PriceOf(k.input.form),
                                   reorderLevel := k.input.form.reorderLevel, stockQuantity := oldStock);
      var t1 := t.(variants := t.variants[k.id := row]);
      if difference != 0 then
        SaveEntryOn(t1, StockEntry(k.id, difference, Adjustment, Some(actor), StockNote(AdjustmentLabel, productName, k.input.form.variantName)))
      else Ok(t1)
  }

  /** The loop over the kept variants, in order. */
  function KeepVariants(t: Tables, before: Variants, productName: string, kept: seq<KeptVariant>, actor: EmployeeId): (r: Result<Tables>)
    ensures r.Ok? <==> forall i :: 0 <= i < |kept| ==> kept[i].id in t.variants && kept[i].id in before
    ensures r.Ok? ==> r.value == t.(variants := r.value.variants, entries := r.value.entries)
    ensures r.Ok? ==> r.value.variants.Keys == t.variants.Keys && t.entries <= r.value.entries
    ensures r.Ok? && (forall i :: 0 <= i < |kept| ==> kept[i].input.stock == before[kept[i].id].stockQuantity) ==>
      r.value.entries == t.entries
    decreases |kept|
  {
    if kept == [] then Ok(t)
    else
      var n := |kept| - 1;
      assert forall i :: 0 <= i < n ==> kept[..n][i] == kept[i];
      match KeepVariants(t, before, productName, kept[..n], actor)
      case Err(e) => Err(e)
      case Ok(t1) => KeepVariant(t1, before, productName, kept[n], actor)
  }

  /** A variant no kept form names is not written by the loop. */
  lemma {:induction false} KeepVariantsUntouched(t: Tables, before: Variants, productName: string, kept: seq<KeptVariant>,
                                                 actor: EmployeeId, v: VariantId)
    requires KeepVariants(t, before, productName, kept, actor).Ok?
    requires forall i :: 0 <= i < |kept| ==> kept[i].id != v
    requires v in t.variants
    ensures KeepVariants(t, before, productName, kept, actor).value.variants[v] == t.variants[v]
    decreases |kept|
  {
    if kept != [] {
      var n := |kept| - 1;
      assert forall i :: 0 <= i < n ==> kept[..n][i] == kept[i];
      KeepVariantsUntouched(t, before, productName, kept[..n], actor, v);
      var t1 := KeepVariants(t, before, productName, kept[..n], actor).value;
      assert KeepVariants(t, before, productName, kept, actor) == KeepVariant(t1, before, productName, kept[n], actor);
    }
  }

  /** When every kept form names a different variant, the row of the `j`-th one
      ends with that form's fields and that form's stock. */
  lemma {:induction false} KeepVariantsAt(t: Tables, before: Variants, productName: string, kept: seq<KeptVariant>,
                                          actor: EmployeeId, j: nat)
    requires KeepVariants(t, before, productName, kept, actor).Ok?
    requires forall i, i' :: 0 <= i < i' < |kept| ==> kept[i].id != kept[i'].id
    requires j < |kept|
    ensures KeepVariants(t, before, productName, kept, actor).value.variants[kept[j].id] ==
            Rewritten(t.variants[kept[j].id], kept[j].input)
    decreases |kept|
  {
    var n := |kept| - 1;
    assert forall i :: 0 <= i < n ==> kept[..n][i] == kept[i];
    if j == n {
      KeepVariantsUntouched(t, before, productName, kept[..n], actor, kept[j].id);
    } else {
      KeepVariantsAt(t, before, productName, kept[..n], actor, j);
    }
  }

  // ---------------------------------------------------------------------------
  // Deleting variants

  /** The entries that remain once the variants in `gone` are deleted (the entry's
      foreign key cascades). */
  function EntriesWithout(es: seq<StockEntry>, gone: set<VariantId>): (r: seq<StockEntry>)
    ensures forall e :: e in r <==> e in es && e.variant !in gone
    ensures |r| <= |es|
    ensures (forall i :: 0 <= i < |es| ==> es[i].variant !in gone) ==> r == es
  {
    if es == [] then []
    else (if es[0].variant in gone then [] else [es[0]]) + EntriesWithout(es[1..], gone)
  }

  /** The same for the movements, whose foreign key cascades too. */
  function MovementsWithout(ms: seq<StockMovement>, gone: set<VariantId>): (r: seq<StockMovement>)
    ensures forall m :: m in r <==> m in ms && m.variant !in gone
    ensures |r| <= |ms|
    ensures (forall i :: 0 <= i < |ms| ==> ms[i].variant !in gone) ==> r == ms
  {
    if ms == [] then []
    else (if ms[0].variant in gone then [] else [ms[0]]) + MovementsWithout(ms[1..], gone)
  }

  /** `variant.delete()` for a variant marked for deletion in the formset: refused
      while a sale item or an order item refers to it; otherwise its entries and
      movements go with it. */
  function DeleteVariantOn(t: Tables, id: VariantId): (r: Result<Tables>)
    ensures r.Ok? <==> id in t.variants && !VariantInUse(t, id)
    ensures r.Err? ==> r.error == (if id in t.variants then InUse else NotFound)
    ensures r.Ok? ==> r.value == t.(variants := t.variants - {id}, entries := EntriesWithout(t.entries, {id}),
                                    movements := MovementsWithout(t.movements, {id}))
  {
    if id !in t.variants then Err(NotFound)
    else if VariantInUse(t, id) then Err(InUse)
    else Ok(t.(variants := t.variants - {id}, entries := EntriesWithout(t.entries, {id}),
               movements := MovementsWithout(t.movements, {id})))
  }

  /** Dropping the entries of `a` and then those of `b` drops those of `a + b`. */
  lemma {:induction false} EntriesWithoutTwice(es: seq<StockEntry>, a: set<VariantId>, b: set<VariantId>)
    ensures EntriesWithout(EntriesWithout(es, a), b) == EntriesWithout(es, a + b)
  {
    if es != [] {
      EntriesWithoutTwice(es[1..], a, b);
      var rest := EntriesWithout(es[1..], a);
      var head := if es[0].variant in a + b then [] else [es[0]];
      assert EntriesWithout(es, a + b) == head + EntriesWithout(es[1..], a + b);
      if es[0].variant in a {
        assert EntriesWithout(es, a) == rest;
      } else {
        var s := [es[0]] + rest;
        assert EntriesWithout(es, a) == s;
        assert s[0] == es[0] && s[1..] == rest;
        assert EntriesWithout(s, b) == head + EntriesWithout(rest, b);
      }
    }
  }

  /** The same for the movements. */
  lemma {:induction false} MovementsWithoutTwice(ms: seq<StockMovement>, a: set<VariantId>, b: set<VariantId>)
    ensures MovementsWithout(MovementsWithout(ms, a), b) == MovementsWithout(ms, a + b)
  {
    if ms != [] {
      MovementsWithoutTwice(ms[1..], a, b);
      var rest := MovementsWithout(ms[1..], a);
      var head := if ms[0].variant in a + b then [] else [ms[0]];
      assert MovementsWithout(ms, a + b) == head + MovementsWithout(ms[1..], a + b);
      if ms[0].variant in a {
        assert MovementsWithout(ms, a) == rest;
      } else {
        var s := [ms[0]] + rest;
        assert MovementsWithout(ms, a) == s;
        assert s[0] == ms[0] && s[1..] == rest;
        assert MovementsWithout(s, b) == head + MovementsWithout(rest, b);
      }
    }
  }

  /** The variants a deletion formset names. */
  function Named(removed: seq<VariantId>): (r: set<VariantId>)
    ensures forall v :: v in r <==> v in removed
  {
    set v | v in removed
  }

  /** The loop over `formset.deleted_objects`, in order: the named variants go,
      and their entries and movements go with them. */
  function DeleteVariants(t: Tables, removed: seq<VariantId>): (r: Result<Tables>)
    ensures r.Err? ==> r.error == NotFound || r.error == InUse
    ensures r.Ok? ==> r.value == t.(variants := r.value.variants, entries := r.value.entries, movements := r.value.movements)
    ensures r.Ok? ==> forall v :: v in r.value.variants <==> v in t.variants && v !in removed
    ensures r.Ok? ==> forall v :: v in r.value.variants ==> r.value.variants[v] == t.variants[v]
    ensures r.Ok? ==> r.value.entries == EntriesWithout(t.entries, Named(removed))
    ensures r.Ok? ==> r.value.movements == MovementsWithout(t.movements, Named(removed))
    decreases |removed|
  {
    if removed == [] then
      assert Named(removed) == {};
      Ok(t)
    else
      var n := |removed| - 1;
      assert removed == removed[..n] + [removed[n]];
      assert Named(removed) == Named(removed[..n]) + {removed[n]};
      match DeleteVariants(t, removed[..n])
      case Err(e) => Err(e)
      case Ok(t1) =>
        EntriesWithoutTwice(t.entries, Named(removed[..n]), {removed[n]});
        MovementsWithoutTwice(t.movements, Named(removed[..n]), {removed[n]});
        DeleteVariantOn(t1, removed[n])
  }

  /** What the deletion loop needs to succeed: every named variant exists, none
      is in use and none is named twice (a second deletion finds the row gone). */
  predicate Deletable(t: Tables, removed: seq<VariantId>) {
    && (forall i :: 0 <= i < |removed| ==> removed[i] in t.variants && !VariantInUse(t, removed[i]))
    && (forall i, j :: 0 <= i < j < |removed| ==> removed[i] != removed[j])
  }

  lemma DeletableStep(t: Tables, pre: seq<VariantId>, x: VariantId)
    ensures Deletable(t, pre + [x]) <==>
      Deletable(t, pre) && x in t.variants && !VariantInUse(t, x) && x !in pre
  {
    var s := pre + [x];
    assert forall i :: 0 <= i < |pre| ==> s[i] == pre[i];
    assert s[|pre|] == x;
    if x in pre {
      var k :| 0 <= k < |pre| && pre[k] == x;
      assert s[k] == s[|pre|];
    }
  }

  /** The deletion loop succeeds exactly when its deletions are possible. */
  lemma {:induction false} DeleteVariantsSucceeds(t: Tables, removed: seq<VariantId>)
    ensures DeleteVariants(t, removed).Ok? <==> Deletable(t, removed)
    decreases |removed|
  {
    if removed != [] {
      var n := |removed| - 1;
      var pre := removed[..n];
      assert removed == pre + [removed[n]];
      DeleteVariantsSucceeds(t, pre);
      DeletableStep(t, pre, removed[n]);
      var r1 := DeleteVariants(t, pre);
      if r1.Ok? {
        var t1 := r1.value;
        assert t1.sales == t.sales && t1.orders == t.orders;
        assert VariantInUse(t1, removed[n]) == VariantInUse(t, removed[n]);
        assert removed[n] in t1.variants <==> removed[n] in t.variants && removed[n] !in pre;
        assert DeleteVariants(t, removed) == DeleteVariantOn(t1, removed[n]);
      } else {
        assert DeleteVariants(t, removed) == r1;
      }
    }
  }

  /** A refusal part-way through the deletion loop is the loop's refusal. */
  lemma {:induction false} DeleteVariantsPrefixErr(t: Tables, removed: seq<VariantId>, k: nat)
    requires k <= |removed| && DeleteVariants(t, removed[..k]).Err?
    ensures DeleteVariants(t, removed) == DeleteVariants(t, removed[..k])
    decreases |removed|
  {
    if k < |removed| {
      var n := |removed| - 1;
      assert removed[..n][..k] == removed[..k];
      DeleteVariantsPrefixErr(t, removed[..n], k);
    } else {
      assert removed[..k] == removed;
    }
  }

  // ---------------------------------------------------------------------------
  // Updating a product

  /** The product row as the product form rewrites it. */
  function UpdatedProduct(p: Product, f: ProductForm): Product {
    p.(name := f.name, category := f.category, unit := f.unit, supplier := f.supplier, description := f.description)
  }

  /** The update_product view: both forms valid and matching the product's rows,
      then, in one transaction, the product's fields, the kept variants, the new
      variants and the deletions, in that order. The stock a kept variant had is
      read once, before any variant is written. */
  function UpdateProductOn(t: Tables, pid: ProductId, f: ProductForm, kept: seq<KeptVariant>,
                           added: seq<VariantInput>, removed: seq<VariantId>, actor: EmployeeId): (r: Result<Tables>)
    ensures r.Ok? ==> pid in t.products && CleanProductForm(t, f).Pass? && FormsMatch(t, pid, kept, removed)
                      && |kept| + |added| >= 1
                      && (forall i :: 0 <= i < |kept| ==> ValidVariantForm(kept[i].input.form))
                      && (forall i :: 0 <= i < |added| ==> ValidVariantForm(added[i].form))
    ensures r.Ok? ==> r.value.nextId == t.nextId + |added|
    ensures r.Ok? ==> r.value.products == t.products[pid := UpdatedProduct(t.products[pid], f)]
    ensures r.Ok? ==> r.value == t.(products := r.value.products, variants := r.value.variants, entries := r.value.entries,
                                    movements := r.value.movements, nextId := r.value.nextId)
  {
    if pid !in t.products then Err(NotFound)
    else
      match CleanProductForm(t, f)
      case Fail(e) => Err(e)
      case Pass =>
        if !FormsMatch(t, pid, kept, removed) then Err(FormMismatch)
        else
          match CleanVariantInputs(KeptInputs(kept) + added)
          case Fail(e) => Err(e)
          case Pass =>
            match CheckFormsetMinimum(|kept| + |added|, 1)
            case Fail(e) => Err(e)
            case Pass =>
              assert forall i :: 0 <= i < |kept| ==> (KeptInputs(kept) + added)[i] == kept[i].input;
              assert forall i :: 0 <= i < |added| ==> (KeptInputs(kept) + added)[|kept| + i] == added[i];
              var t1 := t.(products := t.products[pid := UpdatedProduct(t.products[pid], f)]);
              match KeepVariants(t1, t.variants, f.name, kept, actor)
              case Err(e) => Err(e)
              case Ok(t2) =>
                var t3 := AddVariants(t2, pid, f.name, added, actor, NewVariantLabel).value;
                DeleteVariants(t3, removed)
  }

  /** Once every check passes, the update is the three loops in order. */
  lemma UpdateProductSteps(t: Tables, pid: ProductId, f: ProductForm, kept: seq<KeptVariant>,
                           added: seq<VariantInput>, removed: seq<VariantId>, actor: EmployeeId)
    requires pid in t.products && CleanProductForm(t, f).Pass? && FormsMatch(t, pid, kept, removed)
    requires CleanVariantInputs(KeptInputs(kept) + added).Pass? && |kept| + |added| >= 1
    ensures var t1 := t.(products := t.products[pid := UpdatedProduct(t.products[pid], f)]);
      && (forall i :: 0 <= i < |kept| ==> kept[i].id in t.variants)
      && KeepVariants(t1, t.variants, f.name, kept, actor).Ok?
      && UpdateProductOn(t, pid, f, kept, added, removed, actor) ==
         DeleteVariants(AddVariants(KeepVariants(t1, t.variants, f.name, kept, actor).value, pid, f.name, added, actor, NewVariantLabel).value, removed)
  {
    assert forall i :: 0 <= i < |kept| ==> (KeptIds(kept) + removed)[i] == kept[i].id;
  }

  /** The variant formset is valid exactly when each kept form and each new form is. */
  lemma UpdateInputsValid(kept: seq<KeptVariant>, added: seq<VariantInput>)
    ensures CleanVariantInputs(KeptInputs(kept) + added).Pass? <==>
      && (forall i :: 0 <= i < |kept| ==> ValidVariantForm(kept[i].input.form))
      && (forall i :: 0 <= i < |added| ==> ValidVariantForm(added[i].form))
  {
    var ins := KeptInputs(kept) + added;
    assert forall i :: 0 <= i < |kept| ==> ins[i] == kept[i].input;
    assert forall i :: |kept| <= i < |ins| ==> ins[i] == added[i - |kept|];
    assert forall i :: 0 <= i < |added| ==> ins[|kept| + i] == added[i];
  }

  /** The tables once the kept and the new variants are saved, before any deletion. */
  function Staged(t: Tables, pid: ProductId, f: ProductForm, kept: seq<KeptVariant>,
                  added: seq<VariantInput>, actor: EmployeeId): Tables
    requires pid in t.products
    requires forall i :: 0 <= i < |kept| ==> kept[i].id in t.variants
  {
    var t1 := t.(products := t.products[pid := UpdatedProduct(t.products[pid], f)]);
    AddVariants(KeepVariants(t1, t.variants, f.name, kept, actor).value, pid, f.name, added, actor, NewVariantLabel).value
  }

  /** The variant table before the deletions, key by key. */
  lemma StagedVariant(t: Tables, pid: ProductId, f: ProductForm, kept: seq<KeptVariant>,
                      added: seq<VariantInput>, actor: EmployeeId, v: VariantId)
    requires pid in t.products
    requires forall i :: 0 <= i < |kept| ==> kept[i].id in t.variants
    requires forall i, i' :: 0 <= i < i' < |kept| ==> kept[i].id != kept[i'].id
    ensures var s := Staged(t, pid, f, kept, added, actor);
      && s.sales == t.sales && s.orders == t.orders
      && (v in s.variants <==> v in t.variants || t.nextId <= v < t.nextId + |added|)
      && (v < t.nextId ==> forall i :: 0 <= i < |kept| && kept[i].id == v ==> s.variants[v] == Rewritten(t.variants[v], kept[i].input))
      && (t.nextId <= v < t.nextId + |added| ==>
            s.variants[v] == NewVariant(pid, added[v - t.nextId].form).(stockQuantity := added[v - t.nextId].stock))
      && (v in t.variants && v < t.nextId && (forall i :: 0 <= i < |kept| ==> kept[i].id != v) ==> s.variants[v] == t.variants[v])
  {
    var t1 := t.(products := t.products[pid := UpdatedProduct(t.products[pid], f)]);
    var t2 := KeepVariants(t1, t.variants, f.name, kept, actor).value;
    AddVariantsRow(t2, pid, f.name, added, actor, NewVariantLabel, v);
    forall i | 0 <= i < |kept| && kept[i].id == v
      ensures t2.variants[v] == Rewritten(t.variants[v], kept[i].input)
    {
      KeepVariantsAt(t1, t.variants, f.name, kept, actor, i);
    }
    if v in t.variants && forall i :: 0 <= i < |kept| ==> kept[i].id != v {
      KeepVariantsUntouched(t1, t.variants, f.name, kept, actor, v);
    }
  }

  /** The forms of a matching formset name distinct variants, and a kept one is
      never marked for deletion. */
  lemma FormsMatchDistinct(t: Tables, pid: ProductId, kept: seq<KeptVariant>, removed: seq<VariantId>)
    requires FormsMatch(t, pid, kept, removed)
    ensures forall i :: 0 <= i < |kept| ==> kept[i].id in t.variants
    ensures forall i :: 0 <= i < |removed| ==> removed[i] in t.variants
    ensures forall i, i' :: 0 <= i < i' < |kept| ==> kept[i].id != kept[i'].id
    ensures forall i, j :: 0 <= i < j < |removed| ==> removed[i] != removed[j]
    ensures forall i :: 0 <= i < |kept| ==> kept[i].id !in removed
  {
    var ids := KeptIds(kept) + removed;
    assert forall i :: 0 <= i < |kept| ==> ids[i] == kept[i].id;
    assert forall i :: 0 <= i < |removed| ==> ids[|kept| + i] == removed[i];
    forall i, i' | 0 <= i < i' < |kept| ensures kept[i].id != kept[i'].id {
      assert ids[i] != ids[i'];
    }
    forall i, j | 0 <= i < j < |removed| ensures removed[i] != removed[j] {
      assert ids[|kept| + i] != ids[|kept| + j];
    }
    forall i, j | 0 <= i < |kept| && 0 <= j < |removed| ensures kept[i].id != removed[j] {
      assert ids[i] != ids[|kept| + j];
    }
  }

  /** The update goes through exactly when the product exists, both forms are
      valid and match the product's rows, at least one variant form remains, and no
      variant marked for deletion is still in use. */
  lemma UpdateProductSucceeds(t: Tables, pid: ProductId, f: ProductForm, kept: seq<KeptVariant>,
                              added: seq<VariantInput>, removed: seq<VariantId>, actor: EmployeeId)
    ensures UpdateProductOn(t, pid, f, kept, added, removed, actor).Ok? <==>
      && pid in t.products && CleanProductForm(t, f).Pass? && FormsMatch(t, pid, kept, removed)
      && |kept| + |added| >= 1
      && (forall i :: 0 <= i < |kept| ==> ValidVariantForm(kept[i].input.form))
      && (forall i :: 0 <= i < |added| ==> ValidVariantForm(added[i].form))
      && (forall i :: 0 <= i < |removed| ==> !VariantInUse(t, removed[i]))
  {
    UpdateInputsValid(kept, added);
    if pid in t.products && CleanProductForm(t, f).Pass? && FormsMatch(t, pid, kept, removed)
       && CleanVariantInputs(KeptInputs(kept) + added).Pass? && |kept| + |added| >= 1 {
      UpdateProductSteps(t, pid, f, kept, added, removed, actor);
      FormsMatchDistinct(t, pid, kept, removed);
      var s := Staged(t, pid, f, kept, added, actor);
      assert UpdateProductOn(t, pid, f, kept, added, removed, actor) == DeleteVariants(s, removed);
      DeleteVariantsSucceeds(s, removed);
      forall i | 0 <= i < |removed|
        ensures removed[i] in s.variants && VariantInUse(s, removed[i]) == VariantInUse(t, removed[i])
      {
        StagedVariant(t, pid, f, kept, added, actor, removed[i]);
      }
    }
  }

  /** The variant table after a successful update, key by key: a kept variant
      takes its form's fields and stock, the `j`-th new variant is stored under the
      counter plus `j`, a deleted variant is gone, and every other row is as it was. */
  lemma UpdateProductVariants(t: Tables, pid: ProductId, f: ProductForm, kept: seq<KeptVariant>,
                              added: seq<VariantInput>, removed: seq<VariantId>, actor: EmployeeId, v: VariantId)
    requires forall w :: w in t.variants ==> w < t.nextId
    requires UpdateProductOn(t, pid, f, kept, added, removed, actor).Ok?
    ensures var u := UpdateProductOn(t, pid, f, kept, added, removed, actor).value;
      && (v in u.variants <==> (v in t.variants && v !in removed) || t.nextId <= v < t.nextId + |added|)
      && (forall i :: 0 <= i < |kept| && kept[i].id == v ==>
            v in t.variants && v in u.variants && u.variants[v] == Rewritten(t.variants[v], kept[i].input))
      && (t.nextId <= v < t.nextId + |added| ==>
            v in u.variants && u.variants[v] == NewVariant(pid, added[v - t.nextId].form).(stockQuantity := added[v - t.nextId].stock))
      && (v in t.variants && v !in removed && (forall i :: 0 <= i < |kept| ==> kept[i].id != v) ==>
            v in u.variants && u.variants[v] == t.variants[v])
  {
    UpdateInputsValid(kept, added);
    UpdateProductSteps(t, pid, f, kept, added, removed, actor);
    FormsMatchDistinct(t, pid, kept, removed);
    var s := Staged(t, pid, f, kept, added, actor);
    assert UpdateProductOn(t, pid, f, kept, added, removed, actor) == DeleteVariants(s, removed);
    StagedVariant(t, pid, f, kept, added, actor, v);
    assert t.nextId <= v < t.nextId + |added| ==> v !in removed;
  }

  /** As written the forms cannot set stock: a kept variant's instance holds the
      stock it has and a new one holds 0. Updating a product then creates no entry
      (a deletion may still remove some) and leaves every kept variant's stock as
      it was. */
  lemma UpdateProductAsWritten(t: Tables, pid: ProductId, f: ProductForm, kept: seq<KeptVariant>,
                               added: seq<VariantInput>, removed: seq<VariantId>, actor: EmployeeId)
    requires forall i :: 0 <= i < |kept| ==> kept[i].id in t.variants && kept[i].input.stock == t.variants[kept[i].id].stockQuantity
    requires forall i :: 0 <= i < |added| ==> added[i].stock == 0
    requires forall v :: v in t.variants ==> v < t.nextId
    requires UpdateProductOn(t, pid, f, kept, added, removed, actor).Ok?
    ensures var u := UpdateProductOn(t, pid, f, kept, added, removed, actor).value;
      && (forall e :: e in u.entries ==> e in t.entries)
      && (forall i :: 0 <= i < |kept| && kept[i].id in u.variants ==>
            u.variants[kept[i].id].stockQuantity == t.variants[kept[i].id].stockQuantity)
  {
    var p := t.products[pid].(name := f.name, category := f.category, unit := f.unit,
                               supplier := f.supplier, description := f.description);
    var t1 := t.(products := t.products[pid := p]);
    var t2 := KeepVariants(t1, t.variants, f.name, kept, actor).value;
    var t3 := AddVariants(t2, pid, f.name, added, actor, NewVariantLabel).value;
    var u := UpdateProductOn(t, pid, f, kept, added, removed, actor).value;
    assert u == DeleteVariants(t3, removed).value;
    assert FormsMatch(t, pid, kept, removed);
    assert forall i, j :: 0 <= i < j < |kept| ==> kept[i].id != kept[j].id by {
      assert forall i :: 0 <= i < |kept| ==> (KeptIds(kept) + removed)[i] == kept[i].id;
    }
    forall i | 0 <= i < |kept| && kept[i].id in u.variants
      ensures u.variants[kept[i].id].stockQuantity == t.variants[kept[i].id].stockQuantity
    {
      var v := kept[i].id;
      KeepVariantsAt(t1, t.variants, f.name, kept, actor, i);
      assert t2.variants[v].stockQuantity == kept[i].input.stock;
      AddVariantsRow(t2, pid, f.name, added, actor, NewVariantLabel, v);
      assert t3.variants[v] == t2.variants[v];
    }
  }

  // ---------------------------------------------------------------------------
  // Deleting products, categories and units

  /** The variant table without the rows in `gone`. */
  function VariantsWithout(vs: Variants, gone: set<VariantId>): (r: Variants)
    ensures r.Keys == vs.Keys - gone
    ensures forall v :: v in r ==> r[v] == vs[v]
  {
    map v | v in vs && v !in gone :: vs[v]
  }

  /** The variants of a product. */
  function VariantsOf(t: Tables, pid: ProductId): set<VariantId> {
    set v | v in t.variants && t.variants[v].product == pid
  }

  /** The delete_product view: refused while any variant of the product has a sale
      item or an order item; otherwise the product goes and, by cascade, its
      variants with their entries and movements. */
  function DeleteProductOn(t: Tables, pid: ProductId): (r: Result<Tables>)
    ensures r.Ok? <==> pid in t.products && forall v :: v in VariantsOf(t, pid) ==> !VariantInUse(t, v)
    ensures r.Err? ==> r.error == (if pid in t.products then InUse else NotFound)
    ensures r.Ok? ==>
      && r.value.products == t.products - {pid}
      && r.value.variants.Keys == t.variants.Keys - VariantsOf(t, pid)
      && (forall v :: v in r.value.variants ==> r.value.variants[v] == t.variants[v])
      && r.value.entries == EntriesWithout(t.entries, VariantsOf(t, pid))
      && r.value.movements == MovementsWithout(t.movements, VariantsOf(t, pid))
      && r.value == t.(products := r.value.products, variants := r.value.variants,
                       entries := r.value.entries, movements := r.value.movements)
  {
    if pid !in t.products then Err(NotFound)
    else
      var gone := VariantsOf(t, pid);
      if exists v :: v in gone && VariantInUse(t, v) then Err(InUse)
      else
        Ok(t.(products := t.products - {pid},
              variants := VariantsWithout(t.variants, gone),
              entries := EntriesWithout(t.entries, gone),
              movements := MovementsWithout(t.movements, gone)))
  }

  /** The delete_category view: refused while any product (active or not) is in
      the category. */
  function DeleteCategoryOn(t: Tables, c: CategoryId): (r: Result<Tables>)
    ensures r.Ok? <==> c in t.categories && forall p :: p in t.products ==> t.products[p].category != c
    ensures r.Err? ==> r.error == (if c in t.categories then InUse else NotFound)
    ensures r.Ok? ==> r.value == t.(categories := t.categories - {c})
  {
    if c !in t.categories then Err(NotFound)
    else if exists p :: p in t.products && t.products[p].category == c then Err(InUse)
    else Ok(t.(categories := t.categories - {c}))
  }

  /** The delete_unit view: refused while any product uses the unit. */
  function DeleteUnitOn(t: Tables, u: UnitId): (r: Result<Tables>)
    ensures r.Ok? <==> u in t.units && forall p :: p in t.products ==> t.products[p].unit != u
    ensures r.Err? ==> r.error == (if u in t.units then InUse else NotFound)
    ensures r.Ok? ==> r.value == t.(units := t.units - {u})
  {
    if u !in t.units then Err(NotFound)
    else if exists p :: p in t.products && t.products[p].unit == u then Err(InUse)
    else Ok(t.(units := t.units - {u}))
  }
}
