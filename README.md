# Mayondo stock ledger in Dafny

This project models the stock ledger of the Mayondo furniture and timber back office. That is the part of the Django application that keeps, for each product variant, a non-negative stock counter and moves it. It moves the counter through four paths:

- **Manual stock entries.** Each entry is an ADDITION, ADJUSTMENT, DAMAGE, RETURN or CORRECTION. Its quantity is normalised to a sign by its type.
- **Purchase-order deliveries.** A delivery credits the counter. The order then moves PENDING → PARTIAL → DELIVERED.
- **Sales.** `complete_sale` checks every item before deducting anything. `cancel_sale` gives the stock back only when the sale was completed. Both append SALE / RETURN rows to the movement audit log.
- **Product views.** Creating and updating a product routes every stock change through ADDITION and ADJUSTMENT entries.

Around these sit the guards of the delete views and the small validators.

## Modules

| module | what it covers |
|---|---|
| `Common` (common.dfy) | keys, the error kinds, `Result`/`Outcome`, the formset minimum, and `str()` of integers |
| `Products` (products.dfy) | the variant row, `add_stock`, `reduce_stock`, the two stock flags, `clean_price`, the product total |
| `Inventory` (inventory.dfy) | stock entries, a movement's snapshot, the entry form's check, the sign policy of the stock entry view, the stock value |
| `Orders` (orders.dfy) | order items, `mark_as_delivered`, the delivery form, the delivery loop and the status rule, order creation and deletion |
| `Sales` (sales.dfy) | the integer currency arithmetic of a sale, its deduction and restoring loops, `complete_sale`, `cancel_sale`, `create_sale`, the delete guards |
| `Users` (users.dfy) | the employee phone check and `full_name` |
| `Database` (database.dfy) | every table as one value `Tables`, its referential integrity `Consistent`, and each write as a function from tables to `Result<Tables>` |
| `Catalog` (catalog.dfy) | the product views: create, update, the variant loops, deletion with its cascades |
| `Integrity` (integrity.dfy) | one lemma per write: a successful write keeps `Consistent` |
| `Ledger` (store.dfy) | class `Store`, the database as the one mutable object |

### How the model is built

Django model instances are per-query copies of rows, so the thing the code changes step by step is the database. Class `Ledger.Store` holds the tables as fields. Each view or model method that writes becomes a method of `Store` that writes the fields in the order the source does.

Each such method is proved against the function of the same name in `Database` / `Catalog`, through the predicates `Committed` / `CommittedId`:
- On success the new tables are exactly the ones the function prescribes.
- On a refusal the same error is reported and every table is as it was. This is what the `transaction.atomic` blocks guarantee. The loops that can fail half-way put back the saved copy (`Rollback`).

Every public operation of `Store` (each method that requires `Valid()`) also keeps `Valid()`, which is referential integrity. The workers those operations call for one step of a loop (`DeductItem`, `ReturnItem`, `DeliverItem`, `SaveNewVariant`, `DeleteVariant` and the like), and `Rollback`, state only the tables they write. The per-row logic is pure functions in the per-file modules, and its properties are lemmas there.

Conventions:
- **Money** is in whole shillings (`int`).
- **Discounts**: `discount_percentage` is a two-decimal DecimalField, so a discount is held in hundredths of a percent (12.5% is 1250).
- **Rounding**: Python's `round` is round-half-to-even applied to the exact quotient (`Sales.RoundHalfEven`).
- **Stock and delivered quantities** are `nat`, as their PositiveIntegerField columns are.

### Notes on the code

- **Movement rows.** Only `complete_sale` and `cancel_sale` call `create_movement`. Deliveries (orders/models.py:73-79), stock entries (inventory/models.py:35-42) and the product views write no movement row, so the model writes none there either.
- **Reorder threshold.** `needs_reorder` flags a variant whose stock is at or below its reorder level (products/models.py:77-79).
- **`mark_as_delivered` is not atomic.** It saves the item (orders/models.py:78) before `add_stock` can raise (line 79). The model keeps that order: a refused amount leaves the item rewritten (`Database.MarkAsDeliveredLeft`). Its only caller, confirm_delivery, runs it inside `transaction.atomic` with a positive amount.
- **The sales views cannot be imported.** sales/views.py:16 imports `SaleItemFormSet`, but sales/forms.py:107 defines `SaleItemFormset`. As written, importing the module raises ImportError, so none of its views run: create_sale, complete_sale, cancel_sale, delete_sale and delete_customer among them. The model takes the evident name `SaleItemFormset`, and models those views as if the import succeeded (`Sales.CreateSale`, `Database.CreateSaleOn`, `Database.DeleteSaleOn`, `Database.DeleteCustomerOn` and the matching `Ledger.Store` methods). `Sale.complete_sale` and `Sale.cancel_sale` live in sales/models.py and are not affected.
- **Orders cannot be created as written.** `OrderItemForm.__init__` tests `self.instance.variant` (orders/forms.py:81). On the new `OrderItem` that every form of the create_order formset is built on (orders/views.py:76 and 99), that non-nullable foreign key (orders/models.py:57) is unset, so reading it raises RelatedObjectDoesNotExist before any data is bound. The evident intent is `self.instance.variant_id`. `Orders.NewOrder`, `Database.CreateOrderOn` and `Ledger.Store.CreateOrder` model the repaired form; `Orders.NewOrderAsWritten` is the code as written (see Findings).
- **Undefined delivery helpers.** `remaining_quantity`, `is_fully_delivered` and `is_partially_delivered` are used by orders/forms.py:112,123 and orders/views.py:126-128, but orders/models.py does not define them. The model gives them their natural definitions:
  - remaining: ordered minus delivered;
  - fully delivered: every item's `is_delivered` is set;
  - partially delivered: something delivered but not everything.

## Model

| member | source | states |
|---|---|---|
| Common.CheckFormsetMinimum | orders/forms.py:86-95 | a formset with `min_num=1, validate_min=True` passes exactly when it has at least the minimum number of forms, else TooFewForms |
| Common.NatToString | sales/models.py:184 | the decimal text of a key is non-empty and made only of digits |
| Common.IntToString | inventory/models.py:31-33 | the text of an integer starts with '-' exactly when it is negative, and is all digits otherwise |
| Common.NatToStringRoundTrip | sales/models.py:184 | reading back the decimal text of a number gives the number |
| Common.NatToStringInjective | sales/models.py:184 | two numbers with the same text are equal, so references built from keys identify the key |
| Products.NeedsReorder | products/models.py:76-79 | `needs_reorder`: the stock is at or below the reorder level (its relation to the other flag and to the stock operations is `Products.StockFlagsMonotone`) |
| Products.IsInStock | products/models.py:80-83 | `is_in_stock`: the stock is positive |
| Products.AddStock | products/models.py:85-89 | refuses a quantity ≤ 0 with InvalidQuantity; otherwise the stock grows by exactly the quantity and no other field changes |
| Products.ReduceStock | products/models.py:91-97 | refuses a quantity ≤ 0 (InvalidQuantity), then one above the stock (InsufficientStock); otherwise the stock shrinks by exactly the quantity, stays a nat, and nothing else changes |
| Products.AddThenReduce | products/models.py:85-97 | adding a positive quantity and removing it gives back the row |
| Products.ReduceThenAdd | products/models.py:85-97 | a successful reduction followed by adding the same quantity gives back the row |
| Products.StockFlagsMonotone | products/models.py:77-97 | more stock never sets `needs_reorder` nor clears `is_in_stock`: a successful addition leaves the variant in stock and does not set the reorder flag; a reduction keeps a set reorder flag, and leaves the variant in stock exactly when it takes less than the whole stock |
| Products.CleanPrice | products/forms.py:92-96 | exactly a negative price is refused (NonPositivePrice); an empty price and a price of 0 pass; an accepted price is returned unchanged |
| Products.ZeroPriceAccepted | products/forms.py:94 | a price of 0 is accepted |
| Products.TotalStock | products/views.py:107 | the product's total stock, the sum of its variants' counters (bounded in `Products.TotalStockBounds`) |
| Products.TotalStockBounds | products/views.py:107 | a product's total stock is at least each variant's stock, and 0 exactly when no variant is in stock |
| Inventory.Abs | inventory/views.py:41-44 | `abs` returns the number or its negation, never negative |
| Inventory.NormaliseQuantity | inventory/views.py:38-46 | DAMAGE gives a quantity ≤ 0; ADDITION and RETURN give ≥ 0; ADJUSTMENT and CORRECTION keep the typed quantity; the magnitude never changes |
| Inventory.NormaliseIdempotent | inventory/views.py:38-46 | normalising a normalised quantity changes nothing |
| Inventory.NormaliseFixedPoints | inventory/views.py:38-46 | a quantity is left alone exactly when its sign already agrees with the entry type |
| Inventory.SignedQuantity | inventory/models.py:31-33 | the quantity text starts with '+' exactly for a positive quantity, '-' exactly for a negative one, a digit exactly for 0 |
| Inventory.EntryLabel | inventory/models.py:31-33 | an entry's label starts with the variant's label, and the sign position holds '+' exactly for a positive quantity |
| Inventory.MovementLabel | inventory/models.py:66-68 | the same for a movement's label |
| Inventory.CreateMovement | inventory/models.py:70-83 | the row records the stock at call time as previous stock, previous plus quantity as new stock, and every other field as passed |
| Inventory.CleanQuantity | inventory/forms.py:44-61 | 0 is refused (ZeroQuantity); a negative quantity is refused (NegativeStock) exactly when a cleaned variant's stock would go below 0; anything accepted is returned unchanged |
| Inventory.CleanQuantityPermissive | inventory/forms.py:52 | a positive quantity always passes, and so does any non-zero quantity when no variant was cleaned |
| Inventory.StockValue | inventory/views.py:189 | the stock value, Σ stock × price over the active variants, is never negative while no price is (how it moves is `Inventory.StockValueUpdate`) |
| Inventory.StockValueUpdate | inventory/views.py:189 | changing one variant's stock moves the stock value by that change times its price if the variant is active, and not at all otherwise |
| Inventory.StockValueNonNegative | inventory/views.py:239 | with non-negative prices the stock value is never negative |
| Inventory.ApplyNewEntry | inventory/models.py:35-40 | saving a new entry adds its quantity to the stock exactly once; a save that would make the stock negative is refused and changes nothing |
| Inventory.ApplyNewEntryAsWritten | inventory/models.py:35-40 | `StockEntry.save` of a new entry as written: the parent call `super.save(...)` raises AttributeError, so the save always fails (`Inventory.NewEntrySaveFails`) |
| Inventory.ApplyEntriesCompose | inventory/models.py:35-40 | two saved entries move the stock by their sum; an entry followed by its opposite gives back the row |
| Inventory.NewEntrySaveFails | inventory/models.py:38 | as written every save of a new entry fails with ProgramError, while the intended save succeeds whenever the stock stays non-negative |
| Inventory.RecordEntry | inventory/views.py:27-66 | refuses a missing or inactive variant; succeeds exactly when the raw quantity passes the form and stock + normalised quantity ≥ 0; the saved entry carries the normalised quantity and the user; the stock moves once, by that quantity |
| Inventory.RecordEntryAcceptance | inventory/views.py:27-66 | on stock s: DAMAGE q passes iff q ≠ 0 and abs(q) ≤ s; positive ADDITION/RETURN always pass; negative ADDITION/RETURN pass iff s + q ≥ 0 (the form checks the raw quantity); ADJUSTMENT/CORRECTION pass iff q ≠ 0 and s + q ≥ 0 |
| Inventory.RecordEntryStockAsWritten | inventory/views.py:50-66 | the view as written combined with a repaired entry save: the stock ends at stock + 2 × the normalised quantity |
| Inventory.EntryAppliedTwice | inventory/views.py:60-66 | an ADDITION of 5 on a stock of 10 ends at 20 once the entry save is repaired and the view still writes the stock, and at 15 in the intended view, which records 5 |
| Orders.Subtotal | orders/models.py:69-71 | `OrderItem.subtotal`: quantity × unit price |
| Orders.TotalAmount | orders/models.py:49-51 | `Order.total_amount`, the sum of the items' subtotals, is never negative while no unit price is (its algebra is `Orders.TotalAmountAppend` / `Orders.TotalAmountReplace`) |
| Orders.RemainingQuantity | orders/forms.py:111-114 | the remaining quantity the form uses, which orders/models.py does not define: ordered − delivered (`Orders.DeliveryInputMax`) |
| Orders.IsFullyDelivered | orders/views.py:126-127 | `is_fully_delivered`, not defined in orders/models.py: every item's `is_delivered` is set |
| Orders.IsPartiallyDelivered | orders/views.py:128-129 | `is_partially_delivered`, not defined in orders/models.py: some item has something delivered, and the order is not fully delivered |
| Orders.TotalAmountReplace | orders/models.py:49-51 | replacing an item with one of the same subtotal keeps the order total |
| Orders.TotalAmountAppend | orders/models.py:49-51 | the total of two batches of items is the sum of their totals |
| Orders.MarkAsDelivered | orders/models.py:73-79 | refuses exactly an amount ≤ 0 (InvalidQuantity from `add_stock`, or OutOfRange when the saved total would be negative), the item row it saved first being `Orders.SavedItem`; otherwise delivered grows by the amount (by default the remaining quantity, which completes the item), `is_delivered` ⇔ delivered ≥ ordered, nothing else on the item changes, and the variant is credited by `add_stock` |
| Orders.SavedItem | orders/models.py:74-78 | the item as saved before `add_stock` runs: delivered moved by the amount (by default the remaining quantity), `is_delivered` ⇔ delivered ≥ ordered, nothing else changed; a negative total is refused by the column (OutOfRange) |
| Orders.OverDeliveredDefaultSavesItem | orders/models.py:74-79 | an item of 5 holding 8 delivered, called without an amount: `add_stock(-3)` raises, after the item was saved back to 5 |
| Orders.MarkAsDeliveredAfterFormBind | orders/views.py:117-123 | as written, with the form's quantity and notes already bound to the item, a delivery of q records 2q delivered and stores the submitted notes |
| Orders.DeliveredQuantityDoubled | orders/views.py:117-123 | delivering 4 of 10 records 8, after which the form refuses the 6 really outstanding |
| Orders.DeliveryInputMax | orders/forms.py:108-114 | the input's max is what is still to deliver: delivered + max = ordered |
| Orders.CleanDeliveredQuantity | orders/forms.py:116-129 | a negative quantity is refused (NegativeDelivery); for a saved item one above the remaining quantity is refused (OverDelivery); an accepted q is returned unchanged and keeps delivered + q ≤ ordered |
| Orders.ValidateDeliveries | orders/forms.py:116-129 | the formset passes exactly when every item's submitted quantity passes the form |
| Orders.Deliver | orders/views.py:117-123 | the loop of confirm_delivery over one submitted quantity and one notes text per item; a delivered item takes the submitted notes, which `form.save(commit=False)` binds and `mark_as_delivered` saves (its properties are `Orders.DeliverFacts`, `Orders.DeliverCredits`, `Orders.DeliveredItems`, `Orders.DeliveredStock`) |
| Orders.DeliverPrefixErr | orders/views.py:116-123 | a refusal part-way through the delivery loop is the loop's refusal |
| Orders.DeliverFacts | orders/views.py:117-123 | when every item's variant exists the loop succeeds, keeps the variant keys, and changes each item as one delivery of its submitted form: quantity added, flag recomputed, notes replaced by the submitted text when the quantity is positive, the item untouched otherwise |
| Orders.DeliverCredits | orders/views.py:117-123 | the loop credits each variant with exactly the positive quantities submitted for its items and changes nothing else on it |
| Orders.DeliveryStatus | orders/views.py:125-129 | DELIVERED when every item is delivered; otherwise PARTIAL when something is delivered; otherwise the status is left as it was — and it moves to DELIVERED or PARTIAL only under those conditions |
| Orders.ConfirmDelivery | orders/views.py:106-133 | confirm_delivery on an order and the variant table, given each item's submitted quantity and notes (its properties are `Orders.ConfirmDeliveryFacts`, `Orders.DeliveryScenario`) |
| Orders.ConfirmDeliveryFacts | orders/views.py:106-133 | a confirmed delivery keeps every item within its ordered quantity, adds to each item exactly its submitted quantity, leaves items with a quantity ≤ 0 untouched, stores the submitted notes on every delivered item and keeps its other columns, keeps flags consistent and the order total, credits each variant exactly its submissions, sets the status to `Orders.DeliveryStatus` of the new items and the old status, and overwrites `received_by` / `received_date` |
| Orders.DeliveredItems | orders/views.py:117-123 | the items after a validated delivery, item by item (delivered quantity, flag, the submitted notes on delivered items, nothing else changed), and the total kept |
| Orders.DeliveredStock | orders/views.py:117-123 | the variant table after a delivery, variant by variant |
| Orders.AfterDeliveryFacts | orders/forms.py:116-129 | one accepted delivery keeps the item within its ordered quantity and keeps its subtotal; a positive one changes only the delivered quantity, the flag and the notes |
| Orders.DeliveryNotesStored | orders/views.py:117-123 | submitting 3 with "late" and 0 with "ignored" against two items noted "ordered" leaves "late" on the first and "ordered" on the second |
| Orders.DeliveryScenario | orders/views.py:106-133 | an item of 10 delivered as 4 then 6 goes PENDING → PARTIAL → DELIVERED, crediting 4 then 6; a further confirmation is refused with AlreadyDelivered |
| Orders.ScenarioStep | orders/views.py:106-133 | one confirmation of q on the scenario's item: delivered + q, status DELIVERED at 10 and PARTIAL below, stock + q, received date now |
| Orders.TotalAmountPointwise | orders/models.py:49-51 | two item lists with equal subtotals position by position have the same total |
| Orders.CleanOrderItem | orders/forms.py:59-82 | an item form is accepted exactly when its variant is an active one and its quantity ≥ 1; the item then has nothing delivered |
| Orders.CleanOrderItems | orders/forms.py:85-95 | the formset is accepted exactly when every form is, and keeps the forms' order |
| Orders.NewOrder | orders/views.py:72-86 | with the item form repaired (orders/forms.py:81 testing `variant_id`): fewer than one form is refused; the new order is PENDING, created by the user, with nothing received, and its items are the cleaned forms |
| Orders.NewOrderAsWritten | orders/forms.py:80-82 | create_order as written: building an item form on a new `OrderItem` reads its unset `variant` and raises, so no order is created (`Orders.OrderItemFormInitFails`) |
| Orders.OrderItemFormInitFails | orders/forms.py:80-82 | as written every order creation fails with a program error, whatever is submitted; with the repaired form every submission of at least one valid item form succeeds |
| Orders.CheckOrderDeletable | orders/views.py:165-167 | exactly a DELIVERED order is refused (DeliveredOrder) |
| Sales.CleanCustomer | sales/models.py:28-32 | a customer is accepted exactly when an email or a phone is given |
| Sales.RoundHalfEven | sales/models.py:294-295 | the result is within half of d of n / d, and even on a tie |
| Sales.RoundHalfEvenUnique | sales/models.py:294-295 | any integer meeting those two properties is the rounded value |
| Sales.RoundHalfEvenWithin | sales/models.py:294-295 | rounding n / d with 0 ≤ n ≤ m·d lands in 0..m |
| Sales.RoundHalfEvenOfNonNegative | sales/models.py:121 | rounding a non-negative quotient stays within 0..n |
| Sales.DiscountWithin | sales/models.py:292-295 | below 100% the rounded discount is within 0..subtotal; at 0% it is 0 |
| Sales.DiscountAmount | sales/models.py:291-295 | the discount is the nearest shilling to subtotal × pct / 100; below 100% it lies in 0..subtotal; without a discount it is 0 |
| Sales.TotalPrice | sales/models.py:297-299 | below 100% discount the item total lies in 0..subtotal, and equals the subtotal without a discount |
| Sales.CalculateSubtotal | sales/models.py:112-114 | with valid items the sale subtotal lies between 0 and the undiscounted sum, and equals it when no item has a discount |
| Sales.CalculateDeliveryFee | sales/models.py:116-122 | 0 without delivery; otherwise the nearest shilling to 5% of the subtotal; with valid items it lies in 0..subtotal |
| Sales.Total | sales/models.py:134-137 | total minus the stored delivery fee is the subtotal; it is at least the subtotal when the fee is non-negative |
| Sales.PricingExample | sales/models.py:112-137 | two at 1,000 with 10% off plus one at 500, with delivery: subtotal 2,300, fee 115, total 2,415 |
| Sales.CalculateSubtotalAsWritten | sales/models.py:267-299 | as written, `calculate_subtotal` fails with ProgramError exactly for a sale that has items |
| Sales.SubtotalAsWrittenFails | sales/models.py:114 | one item of 500 fails as written where the intended subtotal is 500 |
| Sales.SaleReference | sales/models.py:184 | the reference is "SALE-" followed by the digits of the sale's key |
| Sales.CancelReference | sales/models.py:211 | the reference is "SALE-…-CANCEL" and never equals any sale's completion reference |
| Sales.Deduct | sales/models.py:173-186 | the deduction loop of `complete_sale`, item by item, aborted by the first refusal (its properties are `Sales.DeductFacts`) |
| Sales.Restore | sales/models.py:200-213 | the restoring loop of `cancel_sale` (its properties are `Sales.RestoreFacts`) |
| Sales.SaleLine | sales/models.py:174-186 | fails exactly when `reduce_stock` does; otherwise the variant is reduced and the SALE movement records the stock before and after, quantity −q |
| Sales.SaleLineAsWritten | sales/models.py:174-186 | as written the movement records the reduced stock as previous stock and stock − 2q as new stock |
| Sales.SnapshotAfterChange | sales/models.py:175-186 | selling 3 of 5 records 2 → −1 as written, which the non-negative column cannot hold, and 5 → 2 as intended |
| Sales.ReturnLine | sales/models.py:201-213 | fails exactly for a quantity of 0; otherwise the variant is credited and the RETURN movement records the stock before and after |
| Sales.ReturnLineAsWritten | sales/models.py:201-213 | as written the RETURN movement records stock + q as previous stock and stock + 2q as new stock |
| Sales.SaleTurn | sales/models.py:174-186 | one deduction turn succeeds exactly when the item's variant exists and 0 < q ≤ its stock; it reports NotFound / InvalidQuantity / InsufficientStock otherwise, and on success reduces that variant and appends its movement |
| Sales.ReturnTurn | sales/models.py:201-213 | one restoring turn succeeds exactly when the variant exists and q > 0, and then credits it and appends its movement |
| Sales.FitsAppend | sales/models.py:173-186 | a longer list of items fits exactly when the shorter one fits and the last item fits in what it leaves |
| Sales.DeductFacts | sales/models.py:173-186 | the deduction loop succeeds exactly when each variant's summed demand fits its stock; it then lowers each variant by exactly its demand and logs one SALE movement per item, in order, each starting from the running stock |
| Sales.DeductStep | sales/models.py:173-186 | one turn of the deduction loop keeps both of those facts |
| Sales.RestoreFacts | sales/models.py:200-213 | the restoring loop succeeds exactly when every item is restorable; it then raises each variant by exactly its demand with one RETURN movement per item |
| Sales.RestoreStep | sales/models.py:200-213 | one turn of the restoring loop keeps both of those facts |
| Sales.DemandCoversItem | sales/models.py:164-175 | an item never asks for more than its variant's summed demand |
| Sales.DeductPrefixErr | sales/models.py:149-186 | a refusal part-way through the deduction loop is the loop's refusal |
| Sales.RestorePrefixErr | sales/models.py:191-213 | the same for the restoring loop |
| Sales.CheckStock | sales/models.py:164-171 | the per-item check passes exactly when every item's variant holds at least its quantity |
| Sales.CheckStockSkip | sales/models.py:164-171 | items already found covered can be skipped |
| Sales.CompleteSale | sales/models.py:149-189 | `complete_sale` on the variant table (its properties are `Sales.CompleteSaleFacts`, `Sales.CompleteSaleRefs`, `Sales.CompleteOnce`) |
| Sales.CompleteSaleFacts | sales/models.py:149-189 | COMPLETED is refused, then a sale without items; it succeeds exactly when the summed demand fits (a CANCELLED sale can be completed) and then lowers each variant by its demand, logs one SALE movement per item, and marks the sale COMPLETED with its fee refreshed |
| Sales.CompleteSaleRefs | sales/models.py:149-189 | a completion keeps the variant keys and products, logs movements only for known variants, and keeps the sale's customer and items |
| Sales.DuplicateVariantRefused | sales/models.py:164-175 | two items of 3 on one variant of 5 both pass the per-item check, yet the completion is refused with InsufficientStock |
| Sales.CancelSale | sales/models.py:191-216 | `cancel_sale` on the variant table (its properties are `Sales.CancelSaleFacts`, `Sales.CancelSaleRefs`, `Sales.CompleteThenCancel`) |
| Sales.CancelSaleFacts | sales/models.py:191-216 | CANCELLED is refused; from PENDING no stock moves and nothing is logged; from COMPLETED it succeeds exactly when the items are restorable and gives back each variant's demand with one RETURN movement per item; the sale ends CANCELLED |
| Sales.CancelSaleRefs | sales/models.py:191-216 | a cancellation keeps the variant keys and products, logs movements only for known variants, and keeps the sale's customer and items |
| Sales.CompleteThenCancel | sales/models.py:149-216 | completing a sale and then cancelling it gives back the variant table exactly and leaves the sale CANCELLED |
| Sales.ShiftBack | sales/models.py:149-216 | lowering every variant by its demand and then raising it by the same demand gives back the table |
| Sales.CompleteOnce | sales/models.py:155-156 | a completed sale cannot be completed again |
| Sales.CleanSaleItem | sales/models.py:231-264 | a filled item form is accepted exactly when its variant is known, quantity ≥ 1, unit price ≥ 1 and 0 ≤ discount < 100%; the item carries those values |
| Sales.CleanSaleItems | sales/views.py:115-118 | blank forms are dropped; accepted exactly when every filled form is; the items are valid, name known variants, and are empty exactly when every form is blank |
| Sales.CreateSale | sales/views.py:99-141 | create_sale's checks and the new sale row (its properties are `Sales.CreateSaleFacts`) |
| Sales.CreateSaleFacts | sales/views.py:99-141 | with no filled form the sale is refused; a created sale is PENDING, of the chosen existing customer, made by the user, with valid items each within stock, and a fee that is 0 without delivery |
| Sales.CheckSaleDeletable | sales/views.py:240-242 | exactly a COMPLETED sale is refused (CompletedSale) |
| Sales.CheckCustomerDeletable | sales/views.py:343-349 | a customer is refused (InUse) exactly when some sale of any status is theirs |
| Users.RemoveChar | users/models.py:31 | the characters left are exactly those of the text other than the removed one |
| Users.CleanPhone | users/models.py:29-32 | a blank phone passes; a refusal is InvalidPhone |
| Users.CleanPhoneAccepts | users/models.py:31-32 | a phone passes exactly when it is blank, or holds only digits, '+' and ' ' and at least one digit |
| Users.PhoneWithPlusAndSpace | users/models.py:31 | "+25 6" is accepted |
| Users.PhoneWithoutDigits | users/models.py:31 | "+ " is refused |
| Users.PhoneWithHyphen | users/models.py:31 | "0-1" is refused |
| Users.StripLeft | users/models.py:36 | the result is a suffix, only whitespace (every character `str.isspace` accepts) was cut, and it does not start with whitespace |
| Users.StripRight | users/models.py:36 | the result is a prefix, only whitespace was cut, and it does not end with whitespace |
| Users.Strip | users/models.py:36 | the result neither starts nor ends with whitespace and is a prefix of the left-stripped text |
| Users.StripEmpty | users/models.py:36 | stripping gives "" exactly when the text is all whitespace |
| Users.FullName | users/models.py:34-36 | the name is the username, or a non-empty stripped text |
| Users.FullNameFallback | users/models.py:34-36 | when both name parts are blank the username is shown; otherwise the stripped "first last", which is non-empty |
| Users.SeparatorNameShowsUsername | users/models.py:34-36 | a first name made only of U+001C, which `str.strip` removes, shows the username |
| Database.AddStockOn | products/models.py:85-89 | succeeds exactly for a known variant and a positive quantity, and then only that variant's stock changes, by the quantity |
| Database.ReduceStockOn | products/models.py:91-97 | succeeds exactly for a known variant and 0 < q ≤ its stock, and then only that variant's stock changes, by −q |
| Database.CreateMovementOn | inventory/models.py:70-83 | appends exactly one movement with the current stock as snapshot and does not write the variant; refused for an unknown variant or a new stock below 0 |
| Database.SaveEntryOn | inventory/models.py:35-40 | appends the entry and moves its variant's stock once; refused when the stock would go negative |
| Database.ResaveEntryOn | inventory/models.py:41-42 | rewrites the entry and changes no stock |
| Database.RecordEntryOn | inventory/views.py:27-66 | the stock_entry view on the tables: the variant row and the entry appended as `Inventory.RecordEntry` gives them |
| Database.RecordEntryIsSave | inventory/views.py:27-66 | once the variant and the form's check pass, the view is exactly the save of the normalised entry; a successful view appends that entry and moves the stock by the normalised quantity |
| Database.MarkAsDeliveredLeft | orders/models.py:73-79 | what a refused `mark_as_delivered` leaves stored: the item row rewritten as `Orders.SavedItem` says, every other order and table untouched |
| Database.MarkAsDeliveredOn | orders/models.py:73-79 | succeeds exactly for a stored item on a known variant with a positive amount, and then is that stored item rewritten plus the variant credited by `add_stock` |
| Database.ConfirmDeliveryOn | orders/views.py:106-133 | confirm_delivery on the tables: the order row (submitted notes included) and the variant table as `Orders.ConfirmDelivery` gives them, nothing else changed |
| Database.CreateOrderOn | orders/views.py:72-86 | create_order on the tables, with the repaired item form: the new order under the next key |
| Database.DeleteOrderOn | orders/views.py:162-171 | succeeds exactly for a known order that is not DELIVERED, and removes only that order |
| Database.CreateSaleOn | sales/views.py:99-141 | create_sale on the tables: the new sale under the next key, no stock touched |
| Database.CompleteSaleOn | sales/models.py:149-189 | `complete_sale` on a stored sale: the variants, the movements appended and the sale row as `Sales.CompleteSale` gives them |
| Database.DeductOn | sales/models.py:173-186 | the deduction loop on the tables: the variants deducted and the movements appended |
| Database.DeductOnStep | sales/models.py:173-186 | the deduction loop on the tables is its turns in order |
| Database.RestoreOnStep | sales/models.py:200-213 | the restoring loop on the tables is its turns in order |
| Database.RestoreOn | sales/models.py:200-213 | the restoring loop on the tables |
| Database.CancelSaleOn | sales/models.py:191-216 | `cancel_sale` on a stored sale |
| Database.DeleteSaleOn | sales/views.py:237-246 | succeeds exactly for a known sale that is not COMPLETED, and removes only that sale |
| Database.DeleteCustomerOn | sales/views.py:339-353 | succeeds exactly for a known customer without sales, and removes only that customer |
| Catalog.CleanProductForm | products/forms.py:47-64 | the product form passes exactly when the name is given and the category and unit are active ones |
| Catalog.CleanVariantForm | products/forms.py:79-96 | a variant form passes exactly when it has a name and a price ≥ 0 |
| Catalog.CleanVariantInputs | products/forms.py:99-109 | the formset's forms pass exactly when each does |
| Catalog.KeptInputs | products/views.py:184 | the kept forms' inputs, in order |
| Catalog.KeptIds | products/views.py:184 | the kept forms' keys, in order |
| Catalog.InitialEntry | products/views.py:141-149 | an initial entry exists exactly when the initial stock is positive |
| Catalog.AddVariant | products/views.py:129-149 | the new variant goes in under the next key with exactly the initial stock; an ADDITION entry is appended exactly when that is positive; nothing else changes |
| Catalog.AddVariants | products/views.py:129-149 | the loop takes one key per form, changes only the variants, the entries and the counter, only appends entries, and appends none when no form has stock |
| Catalog.AddVariantsRow | products/views.py:129-149 | the `i`-th form's row ends under the counter plus `i` with that form's fields and stock; older rows are untouched |
| Catalog.CreateProductOn | products/views.py:118-155 | succeeds exactly when the product form passes and there is at least one variant form, all of which pass; the product goes in active under the next key, one key is used per variant, entries are only appended, and no other table changes |
| Catalog.CreateProductVariant | products/views.py:118-149 | each form becomes a variant of the new product holding that form's stock; existing rows are unchanged |
| Catalog.CreateProductAsWritten | products/views.py:135-141 | with the form unable to set stock, creating a product records no entry |
| Catalog.AdjustmentEntry | products/views.py:194-209 | an ADJUSTMENT entry exists exactly when the form's stock differs from the old stock |
| Catalog.KeepVariant | products/views.py:187-209 | the row takes the form's fields and ends with the form's stock; an ADJUSTMENT of form − old stock is appended exactly when they differ |
| Catalog.KeepVariants | products/views.py:187-209 | the loop succeeds exactly when every kept key exists, keeps the variant keys, only adds entries, and adds none when no stock changed |
| Catalog.KeepVariantsUntouched | products/views.py:187-209 | a variant that no kept form names is not written |
| Catalog.KeepVariantsAt | products/views.py:187-209 | each kept variant ends with its form's fields and stock |
| Catalog.EntriesWithout | products/views.py:228-229 | exactly the entries of the surviving variants remain |
| Catalog.MovementsWithout | products/views.py:228-229 | exactly the movements of the surviving variants remain |
| Catalog.DeleteVariantOn | products/views.py:228-229 | unknown is NotFound and a variant with sale or order items is InUse; otherwise the variant and its entries and movements go |
| Catalog.DeleteVariants | products/views.py:228-229 | refusals are NotFound or InUse; after the loop exactly the variants not removed remain, unchanged, and the entries and movements are exactly those of the surviving variants (`Catalog.EntriesWithout` / `Catalog.MovementsWithout`) |
| Catalog.DeleteVariantsSucceeds | products/views.py:228-229 | the loop succeeds exactly when every named variant exists, is not in use and is named once |
| Catalog.DeleteVariantsPrefixErr | products/views.py:228-229 | a refusal part-way through the deletions is the loop's refusal |
| Catalog.UpdateProductOn | products/views.py:170-232 | success needs an existing product, valid forms matching its rows and at least one form; the product row then holds the form's fields, one key is used per new variant, and only the products, variants, entries, movements and counter change |
| Catalog.UpdateProductSteps | products/views.py:177-229 | once the checks pass, the update is the kept-variant loop, then the new-variant loop, then the deletions |
| Catalog.UpdateProductSucceeds | products/views.py:170-232 | the update succeeds exactly when the product exists, both forms are valid and match its rows, at least one variant form is given, and no variant marked for deletion is in use |
| Catalog.UpdateProductVariants | products/views.py:177-229 | the variant table after a successful update: kept variants take their form's fields and stock, new ones are stored under fresh keys with their form's stock, deleted ones are gone, all others unchanged |
| Catalog.UpdateProductAsWritten | products/views.py:188-225 | with forms unable to set stock, an update adds no entry and leaves every kept variant's stock as it was |
| Catalog.VariantsWithout | products/views.py:267 | the variant table minus the rows deleted, with the other rows unchanged |
| Catalog.DeleteProductOn | products/views.py:250-269 | refused while a variant of the product has a sale or order item; otherwise the product, its variants and their entries and movements go, and nothing else changes |
| Catalog.DeleteCategoryOn | products/views.py:330-346 | refused while any product is in the category; otherwise only the category goes |
| Catalog.DeleteUnitOn | products/views.py:394-410 | refused while any product uses the unit; otherwise only the unit goes |
| Integrity.AddStockKeeps | products/models.py:85-89 | a successful `add_stock` keeps referential integrity |
| Integrity.ReduceStockKeeps | products/models.py:91-97 | the same for `reduce_stock` |
| Integrity.CreateMovementKeeps | inventory/models.py:70-83 | the same for `create_movement` |
| Integrity.SaveEntryKeeps | inventory/models.py:35-40 | the same for saving a new entry |
| Integrity.ResaveEntryKeeps | inventory/models.py:41-42 | the same for re-saving an entry |
| Integrity.RecordEntryKeeps | inventory/views.py:27-66 | the same for the stock entry view |
| Integrity.MarkAsDeliveredLeftKeeps | orders/models.py:73-79 | what a refused `mark_as_delivered` leaves stored keeps referential integrity |
| Integrity.MarkAsDeliveredKeeps | orders/models.py:73-79 | the same for `mark_as_delivered` |
| Integrity.ConfirmDeliveryKeeps | orders/views.py:106-133 | the same for confirm_delivery |
| Integrity.CreateOrderKeeps | orders/views.py:72-86 | the same for create_order |
| Integrity.DeleteOrderKeeps | orders/views.py:162-171 | the same for delete_order |
| Integrity.CreateSaleKeeps | sales/views.py:99-141 | the same for create_sale |
| Integrity.SaleMovesKeep | sales/models.py:173-213 | writing back a sale's stock moves keeps integrity |
| Integrity.CompleteSaleKeeps | sales/models.py:149-189 | the same for `complete_sale` |
| Integrity.CancelSaleKeeps | sales/models.py:191-216 | the same for `cancel_sale` |
| Integrity.DeleteSaleKeeps | sales/views.py:237-246 | the same for delete_sale |
| Integrity.DeleteCustomerKeeps | sales/views.py:339-353 | the same for delete_customer |
| Integrity.AddVariantKeeps | products/views.py:129-149 | the same for one new variant |
| Integrity.AddVariantsKeeps | products/views.py:129-149 | the same for the new-variant loop |
| Integrity.CreateProductKeeps | products/views.py:118-155 | the same for create_product |
| Integrity.KeepVariantKeeps | products/views.py:187-209 | the same for one kept variant |
| Integrity.KeepVariantsKeeps | products/views.py:187-209 | the same for the kept-variant loop |
| Integrity.DeleteVariantKeeps | products/views.py:228-229 | the same for deleting an unused variant |
| Integrity.DeleteVariantsKeeps | products/views.py:228-229 | the same for the deletion loop |
| Integrity.UpdateProductKeeps | products/views.py:170-232 | the same for update_product |
| Integrity.DeleteProductKeeps | products/views.py:250-269 | the same for delete_product |
| Integrity.DeleteCategoryKeeps | products/views.py:330-346 | the same for delete_category |
| Integrity.DeleteUnitKeeps | products/views.py:394-410 | the same for delete_unit |
| Ledger.Store.Rollback | sales/models.py:149 | every table is back to the saved copy |
| Ledger.Store.AddStock | products/models.py:85-89 | writes exactly what `Database.AddStockOn` prescribes, or reports its error with nothing changed; keeps integrity |
| Ledger.Store.ReduceStock | products/models.py:91-97 | the same against `Database.ReduceStockOn` |
| Ledger.Store.CreateMovement | inventory/models.py:70-83 | the same against `Database.CreateMovementOn` |
| Ledger.Store.SaveStockEntry | inventory/models.py:35-40 | the same against `Database.SaveEntryOn` |
| Ledger.Store.ResaveStockEntry | inventory/models.py:41-42 | the same against `Database.ResaveEntryOn` |
| Ledger.Store.RecordStockEntry | inventory/views.py:27-66 | normalises the quantity step by step and saves the entry: exactly `Database.RecordEntryOn`, or its error with nothing changed |
| Ledger.Store.MarkAsDelivered | orders/models.py:73-79 | saves the item first, then calls `add_stock`: on success exactly `Database.MarkAsDeliveredOn`; on a refusal the error, with the tables as `Database.MarkAsDeliveredLeft` leaves them (the item already rewritten); keeps integrity |
| Ledger.Store.DeliverItem | orders/views.py:117-123 | one submitted form: a positive quantity on a known variant credits the variant and returns the item, with the submitted notes bound, marked delivered as `Orders.MarkAsDelivered` says; on an unknown variant it is NotFound; a quantity ≤ 0 returns the item unchanged; only the variant table can change |
| Ledger.Store.DeliverItems | orders/views.py:117-123 | the loop's items and variant table are exactly `Orders.Deliver`, or its error with the variants as they were |
| Ledger.Store.ConfirmDelivery | orders/views.py:106-133 | exactly `Database.ConfirmDeliveryOn` for the submitted quantities and notes, or its error with nothing changed; keeps integrity |
| Ledger.Store.CreateOrder | orders/views.py:72-86 | exactly `Database.CreateOrderOn`, reporting the new key, or its error with nothing changed |
| Ledger.Store.DeleteOrder | orders/views.py:162-171 | exactly `Database.DeleteOrderOn` |
| Ledger.Store.CheckItemsStock | sales/models.py:164-171 | the loop's verdict is `Sales.CheckStock` of the current variants; nothing changes |
| Ledger.Store.InsertSale | sales/views.py:104-141 | exactly `Database.CreateSaleOn`, reporting the new key, or its error with nothing changed |
| Ledger.Store.CreateSale | sales/views.py:99-141 | the same, keeping integrity |
| Ledger.Store.DeductItem | sales/models.py:174-186 | one turn as `Database.SaleTurnOn` prescribes |
| Ledger.Store.DeductItems | sales/models.py:173-186 | the loop writes exactly `Database.DeductOn`, or reports its error with the tables as they were |
| Ledger.Store.CompleteSale | sales/models.py:149-189 | exactly `Database.CompleteSaleOn`, or its error with nothing changed |
| Ledger.Store.ReturnItem | sales/models.py:201-213 | one turn as `Database.ReturnTurnOn` prescribes |
| Ledger.Store.ReturnItems | sales/models.py:200-213 | the loop writes exactly `Database.RestoreOn`, or reports its error with the tables as they were |
| Ledger.Store.MarkCancelled | sales/models.py:191-216 | exactly `Database.CancelSaleOn`, or its error with nothing changed |
| Ledger.Store.CancelSale | sales/models.py:191-216 | the same, keeping integrity |
| Ledger.Store.DeleteSale | sales/views.py:237-246 | exactly `Database.DeleteSaleOn` |
| Ledger.Store.DeleteCustomer | sales/views.py:339-353 | exactly `Database.DeleteCustomerOn` |
| Ledger.Store.SaveNewVariant | products/views.py:129-149 | exactly `Catalog.AddVariant` |
| Ledger.Store.SaveNewVariants | products/views.py:129-149 | exactly `Catalog.AddVariants` |
| Ledger.Store.CreateProduct | products/views.py:118-155 | exactly `Catalog.CreateProductOn`, reporting the new key, or its error with nothing changed |
| Ledger.Store.SaveKeptVariant | products/views.py:187-209 | exactly `Catalog.KeepVariant` |
| Ledger.Store.SaveKeptVariants | products/views.py:187-209 | exactly `Catalog.KeepVariants` |
| Ledger.Store.DeleteVariant | products/views.py:228-229 | exactly `Catalog.DeleteVariantOn` |
| Ledger.Store.DeleteVariants | products/views.py:228-229 | exactly `Catalog.DeleteVariants`, or its error with the tables as they were |
| Ledger.Store.UpdateProduct | products/views.py:170-232 | exactly `Catalog.UpdateProductOn`, or its error with nothing changed |
| Ledger.Store.CascadeDeleteProduct | products/views.py:250-269 | exactly `Catalog.DeleteProductOn` |
| Ledger.Store.DeleteProduct | products/views.py:250-269 | the same, keeping integrity |
| Ledger.Store.DeleteCategory | products/views.py:330-346 | exactly `Catalog.DeleteCategoryOn` |
| Ledger.Store.DeleteUnit | products/views.py:394-410 | exactly `Catalog.DeleteUnitOn` |

## Left out

- **Framework plumbing.** HTTP handling, templates, messages, redirects, pagination, query-string filters, CSV writers, dashboards and report aggregates, and the PDF and Excel generators are left out. They are presentation and I/O; the stock value and product total they show are modelled.
- **Access control.** Role checks, login routing, the admin and the URL modules are left out. The acting employee is a parameter.
- **Concurrency.** Concurrency and locking are not modelled. A `transaction.atomic` block is all-or-nothing: a refusal leaves every table as it was.
- **Floating point.** `discount_amount` goes through `float`, and the delivery fee multiplies by `0.05`. Both are modelled on exact rationals with round-half-to-even, so IEEE rounding deviations are not captured.
- **Timestamps.**
  - The clock is a parameter (`now` of confirm_delivery).
  - `created_at` / `updated_at` / `entry_date` are not stored.
- **Keys from one counter.** Primary keys of new rows come from one counter shared by all tables. The model keeps none of the database's per-table sequences; it only needs new keys to be fresh.
- **Uniqueness constraints.** `unique_together` on (name, category) and on (product, variant_name), and the `unique` names of categories and units, are not modelled. A create or update that would break them is not refused in the model.
- **Suppliers and the category/unit tables.** A supplier is an opaque id, and the supplier field's restriction to active suppliers is not modelled. Categories and units are kept only as their `is_active` flag.
- **Users.CleanPhone, Users.CleanPhoneAccepts:** digits are the ASCII digits only. `str.isdigit` also accepts other Unicode digits (superscripts, Arabic-Indic digits and the like); the model refuses a phone holding them. `str.strip` is modelled with every character `str.isspace` accepts.
- **Integer width.** The IntegerField and PositiveIntegerField columns are bounded by the database backend, and their form fields carry matching range validators. The model's `int` and `nat` are unbounded, so a value out of the column's range is not refused.
- **Sales.CleanSaleItems:** a `None` variant stands for an untouched extra form, which the formset skips. A form filled in without a variant, which the formset refuses as a missing required field, cannot be expressed.
- **sales/forms.py.** Its `__init__` and `clean` are nested inside `class Meta` and never run. The stock check it would perform is the one of the create_sale view, which is modelled.
- **Delete views.** Only their POST path is modelled. The refusal of a guard is the same on GET.
- **The blank extra forms** of the product and order formsets are not modelled. Only filled forms reach the model.
- **Catalog.CreateProductOn, Catalog.UpdateProductOn:** a variant form's stock (`VariantInput.stock`) may be any count. The real form has no stock field, so it is always 0 for a new variant and the stored stock for a kept one. `Catalog.CreateProductAsWritten` and `Catalog.UpdateProductAsWritten` state what follows as written.
- **Ledger.Store.DeliverItems, Ledger.Store.DeductItems, Ledger.Store.ReturnItems, Ledger.Store.DeleteVariants:** a refusal part-way through restores the saved tables explicitly (`Rollback`). The database would do this by rolling back the transaction.
- **Sale.clean and update_delivery_fee.** `Sale.clean` (sales/models.py:106-110) only refuses a COMPLETED sale without items, which no form submits, so it is left out. `Sale.update_delivery_fee` as a separate save is left out too: the fee is computed where create_sale and complete_sale set it.
- **The module-level `save`** (sales/models.py:267-284) never runs as `SaleItem.save`, because it is not a method. Its default of the unit price from the variant is therefore not modelled: an item form must carry a price ≥ 1.

## Findings

| source | as written | input that shows it | evidently intended | confidence | as-written member | corrected member |
|---|---|---|---|---|---|---|
| inventory/models.py:38 | the parent save is called as `super.save(...)`, which raises AttributeError, so no new stock entry can ever be saved | any new entry | `super().save(...)`, then the quantity applied once | high, not executed | Inventory.ApplyNewEntryAsWritten, Inventory.NewEntrySaveFails | Inventory.ApplyNewEntry |
| inventory/views.py:60-66 | the view writes stock + qty itself, then calls `entry.save()`. With line 38 as written that save raises after the variant's write, so the stock moves once and no entry row is stored; once line 38 is repaired the save adds qty a second time | an ADDITION of 5 on a stock of 10 ends at 20 once line 38 is repaired | the entry's save is the only write, leaving 15 | high, not executed | Inventory.RecordEntryStockAsWritten, Inventory.EntryAppliedTwice | Inventory.RecordEntry |
| sales/models.py:175-186 | `reduce_stock` runs before `create_movement`, so the snapshot is taken after the change | selling 3 of a stock of 5 records 2 → −1, which the non-negative `new_stock` column refuses | snapshot before the change, recording 5 → 2 | high, not executed | Sales.SaleLineAsWritten, Sales.ReturnLineAsWritten, Sales.SnapshotAfterChange | Sales.SaleLine, Sales.ReturnLine |
| orders/views.py:119-123 | the delivery form has already bound q onto `delivered_quantity` when `mark_as_delivered(q)` adds q again | delivering 4 of 10 records 8 | delivered becomes old + q | high, not executed | Orders.MarkAsDeliveredAfterFormBind, Orders.DeliveredQuantityDoubled | Orders.MarkAsDelivered |
| orders/forms.py:81 | `OrderItemForm.__init__` reads `self.instance.variant` on a new `OrderItem`, whose non-nullable foreign key is unset, so building the create_order formset raises RelatedObjectDoesNotExist | any visit to create_order, GET or POST | `if self.instance and self.instance.variant_id:` | high, not executed | Orders.NewOrderAsWritten, Orders.OrderItemFormInitFails | Orders.NewOrder |
| sales/models.py:286-299 | `subtotal`, `discount_amount` and `total_price` are indented inside a module-level `save` function, so `item.total_price()` raises AttributeError. `calculate_subtotal` therefore raises for every sale with items, and with it `Sale.complete_sale` for a delivery sale (its fee, sales/models.py:162) and create_sale at `sale.update_delivery_fee()` or `sale.total` (sales/views.py:141-144) | any sale with one item | the three are `SaleItem` members | high, not executed | Sales.CalculateSubtotalAsWritten, Sales.SubtotalAsWrittenFails | Sales.CalculateSubtotal |
