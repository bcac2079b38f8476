/** Identifiers, error kinds, result wrappers and the few string helpers shared by
    every part of the stock ledger. */
module Common {

  // Primary keys of the database tables; the model treats them as opaque numbers.
  type VariantId = nat
  type ProductId = nat
  type CategoryId = nat
  type UnitId = nat
  type SupplierId = nat
  type OrderId = nat
  type SaleId = nat
  type CustomerId = nat
  type EmployeeId = nat
  // A point in time, supplied by the caller (the model has no clock).
  type Timestamp = int

  datatype Option<T> = None | Some(value: T)

  /** Every way an operation of the ledger can refuse: the exceptions raised by the
      model methods, the validation errors of the forms and the refusals of the views. */
  datatype Error =
    | InvalidQuantity        // add_stock / reduce_stock: quantity must be positive
    | InsufficientStock      // reduce_stock, complete_sale, create_sale
    | ZeroQuantity           // stock entry form: quantity cannot be zero
    | NegativeStock          // stock entry form and view: stock would become negative
    | NegativeDelivery       // delivery form: delivered quantity cannot be negative
    | OverDelivery           // delivery form: cannot deliver more than ordered
    | AlreadyDelivered       // confirm_delivery on a DELIVERED order
    | AlreadyCompleted       // complete_sale on a COMPLETED sale
    | AlreadyCancelled       // cancel_sale on a CANCELLED sale
    | EmptySale              // a sale without items
    | NotFound               // no row with that key (a 404, or an invalid choice in a form)
    | DeliveredOrder         // delete_order on a DELIVERED order
    | CompletedSale          // delete_sale on a COMPLETED sale
    | InUse                  // deleting a row that other rows still refer to
    | NonPositivePrice       // variant form: price must be greater than zero
    | InvalidDiscount        // sale item: discount cannot be 100% or more
    | InvalidPhone           // employee: phone must contain only digits
    | MissingContact         // customer: neither an email nor a phone number
    | TooFewForms            // a formset below its minimum number of forms
    | FormMismatch           // a submitted formset that does not match its rows
    | MissingField           // a required form field left empty
    | ProgramError           // an exception raised by a mistake in the code (TypeError, AttributeError, RelatedObjectDoesNotExist)
    | OutOfRange             // the database refuses a negative value in a PositiveIntegerField

  datatype Result<T> = Ok(value: T) | Err(error: Error)

  datatype Outcome = Pass | Fail(error: Error)

  /** A formset with `min_num` and `validate_min` rejects fewer than `min` forms. */
  function CheckFormsetMinimum(count: nat, min: nat): (r: Outcome)
    ensures r.Pass? <==> count >= min
    ensures r.Fail? ==> r.error == TooFewForms
  {
    if count < min then Fail(TooFewForms) else Pass
  }

  predicate IsDigit(c: char) {
    '0' <= c <= '9'
  }

  predicate IsDigits(s: string) {
    forall i :: 0 <= i < |s| ==> IsDigit(s[i])
  }

  function DigitChar(d: nat): (c: char)
    requires d < 10
    ensures IsDigit(c) && c as int - '0' as int == d
  {
    ('0' as int + d) as char
  }

  /** Python's `str(n)` for a non-negative integer: decimal digits, most significant first. */
  function NatToString(n: nat): (s: string)
    ensures |s| >= 1 && IsDigits(s)
    decreases n
  {
    if n < 10 then [DigitChar(n)] else NatToString(n / 10) + [DigitChar(n % 10)]
  }

  /** Python's `str(i)` (and the `{i}` of an f-string) for any integer. */
  function IntToString(i: int): (s: string)
    ensures |s| >= 1
    ensures s[0] == '-' <==> i < 0
    ensures i >= 0 ==> IsDigits(s)
  {
    if i < 0 then "-" + NatToString(-i) else NatToString(i)
  }

  /** The value of a string of decimal digits; the reading of `NatToString`. */
  function DigitsValue(s: string): nat
    requires IsDigits(s)
  {
    if s == [] then 0 else DigitsValue(s[..|s| - 1]) * 10 + (s[|s| - 1] as int - '0' as int)
  }

  /** Formatting a number and reading it back gives the number: the number is
      recoverable from every reference built with `NatToString`. */
  lemma {:induction false} NatToStringRoundTrip(n: nat)
    ensures DigitsValue(NatToString(n)) == n
    decreases n
  {
    if n >= 10 {
      NatToStringRoundTrip(n / 10);
      var s := NatToString(n);
      assert s[..|s| - 1] == NatToString(n / 10);
    }
  }

  /** Two numbers with the same decimal text are the same number. */
  lemma NatToStringInjective(m: nat, n: nat)
    requires NatToString(m) == NatToString(n)
    ensures m == n
  {
    NatToStringRoundTrip(m);
    NatToStringRoundTrip(n);
  }
}
