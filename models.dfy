/**
 * The invoice domain model: the three record kinds, the invoice status
 * choices, the money arithmetic of `InvoiceItem.line_total` and
 * `Invoice.total_amount`, and the invoice-number rule of `Invoice.save`.
 *
 * Money is fixed point.  A quantity or a unit price is an `int` counting
 * hundredths (2 decimal places); a product of the two is an `int` counting
 * ten-thousandths.  No rounding takes place anywhere.
 */
module Models {
  import opened Wrappers

  type Id = nat

  /** A calendar date, as a day number; date parsing is not modelled. */
  type Date = int

  /** Largest magnitude of a `DecimalField(max_digits=10, decimal_places=2)`,
      in hundredths: 99999999.99. */
  const MaxFieldHundredths: int := 9_999_999_999

  // ---------------------------------------------------------------------
  // Records
  // ---------------------------------------------------------------------

  /** `Customer`: the name is unique across the store (see Database). */
  datatype Customer = Customer(
    name: string,
    email: Option<string>,
    address: Option<string>,
    phone: Option<string>)

  datatype Status = Draft | Sent | Paid | Overdue | Cancelled

  /** `Invoice`: the owning customer is a key of the customer table. */
  datatype Invoice = Invoice(
    customer: Id,
    number: string,
    issueDate: Date,
    dueDate: Date,
    status: Status,
    notes: string)

  /** `InvoiceItem`: quantity and unit price are nullable columns, in hundredths. */
  datatype Item = Item(
    invoice: Id,
    description: string,
    quantity: Option<int>,
    unitPrice: Option<int>)

  // ---------------------------------------------------------------------
  // Status choices
  // ---------------------------------------------------------------------

  /** The stored value of a status; the same text is its display text. */
  function StatusLabel(s: Status): string {
    match s
    case Draft => "Draft"
    case Sent => "Sent"
    case Paid => "Paid"
    case Overdue => "Overdue"
    case Cancelled => "Cancelled"
  }

  /** The choice check of the status field: a submitted value is accepted
      exactly when it is the stored value of one of the five choices. */
  function ParseStatus(text: string): (r: Option<Status>)
    ensures r.Some? ==> StatusLabel(r.value) == text
  {
    if text == "Draft" then Some(Draft)
    else if text == "Sent" then Some(Sent)
    else if text == "Paid" then Some(Paid)
    else if text == "Overdue" then Some(Overdue)
    else if text == "Cancelled" then Some(Cancelled)
    else None
  }

  /** Every choice is accepted and read back as itself, and nothing outside
      the five choices is accepted. */
  lemma ParseStatusRoundTrip(s: Status, text: string)
    ensures ParseStatus(StatusLabel(s)) == Some(s)
    ensures ParseStatus(text).Some? <==> exists t: Status :: StatusLabel(t) == text
  {
  }

  // ---------------------------------------------------------------------
  // Money
  // ---------------------------------------------------------------------

  /** A nullable decimal column read with the null-coalescing rule: absent is 0.00. */
  function Coalesce(v: Option<int>): int {
    v.GetOr(0)
  }

  /** `InvoiceItem.line_total`, in ten-thousandths.  It is the exact decimal
      product of quantity and unit price, and an absent factor makes it 0
      rather than an error. */
  function LineTotal(it: Item): (r: int)
    ensures (r as real) / 10000.0
         == ((Coalesce(it.quantity) as real) / 100.0) * ((Coalesce(it.unitPrice) as real) / 100.0)
    ensures it.quantity.None? || it.unitPrice.None? ==> r == 0
  {
    Coalesce(it.quantity) * Coalesce(it.unitPrice)
  }

  /** 3 units at 19.99 come to exactly 59.97; an item without a quantity
      comes to 0 whatever its price. */
  lemma LineTotalExample(invoice: Id)
    ensures LineTotal(Item(invoice, "", Some(300), Some(1999))) == 59_9700
    ensures LineTotal(Item(invoice, "", None, Some(1000))) == 0
  {
  }

  lemma MulNonNegative(a: int, b: int)
    requires a >= 0 && b >= 0
    ensures a * b >= 0
  {
  }

  lemma SignOfProduct(a: int, b: int)
    ensures a * b == (if a < 0 then -a else a) * (if b < 0 then -b else b)
         || a * b == -((if a < 0 then -a else a) * (if b < 0 then -b else b))
  {
    if a < 0 {
      assert a * b == -((-a) * b);
      if b < 0 {
        assert (-a) * b == -((-a) * (-b));
      }
    } else if b < 0 {
      assert a * b == -(a * (-b));
    }
  }

  lemma AbsProductBound(a: int, b: int, m: int)
    requires -m <= a <= m && -m <= b <= m
    ensures -(m * m) <= a * b <= m * m
  {
    var x := if a < 0 then -a else a;
    var y := if b < 0 then -b else b;
    MulNonNegative(m - x, y);
    assert (m - x) * y == m * y - x * y;
    MulNonNegative(m, m - y);
    assert m * (m - y) == m * m - m * y;
    MulNonNegative(x, y);
    SignOfProduct(a, b);
  }

  /** With both factors inside the column bounds (|v| <= 99999999.99) the
      magnitude of a line total is below 10^16 currency units, i.e. below
      10^20 ten-thousandths. */
  lemma LineTotalBound(it: Item)
    requires it.quantity.Some? ==> -MaxFieldHundredths <= it.quantity.value <= MaxFieldHundredths
    requires it.unitPrice.Some? ==> -MaxFieldHundredths <= it.unitPrice.value <= MaxFieldHundredths
    ensures -100_000_000_000_000_000_000 < LineTotal(it) < 100_000_000_000_000_000_000
  {
    AbsProductBound(Coalesce(it.quantity), Coalesce(it.unitPrice), MaxFieldHundredths);
  }

  /** `Invoice.total_amount` over a listing of the invoice's items: the sum of
      their line totals, starting from 0 as Python's `sum` does. */
  function TotalAmount(items: seq<Item>): (r: int)
    ensures items == [] ==> r == 0
  {
    if items == [] then 0 else LineTotal(items[0]) + TotalAmount(items[1..])
  }

  lemma {:induction false} TotalConcat(xs: seq<Item>, ys: seq<Item>)
    ensures TotalAmount(xs + ys) == TotalAmount(xs) + TotalAmount(ys)
  {
    if xs != [] {
      assert (xs + ys)[0] == xs[0];
      assert (xs + ys)[1..] == xs[1..] + ys;
      TotalConcat(xs[1..], ys);
    } else {
      assert xs + ys == ys;
    }
  }

  /** Adding an item raises the total by exactly its line total. */
  lemma TotalAppend(xs: seq<Item>, it: Item)
    ensures TotalAmount(xs + [it]) == TotalAmount(xs) + LineTotal(it)
  {
    TotalConcat(xs, [it]);
  }

  /** Removing the item at position k lowers the total by exactly its line total. */
  lemma {:induction false} TotalRemoveAt(xs: seq<Item>, k: nat)
    requires k < |xs|
    ensures TotalAmount(xs) == TotalAmount(xs[..k] + xs[k + 1..]) + LineTotal(xs[k])
  {
    if k > 0 {
      var tail := xs[1..];
      var rest := xs[..k] + xs[k + 1..];
      TotalRemoveAt(tail, k - 1);
      assert tail[k - 1] == xs[k];
      assert rest[0] == xs[0];
      assert rest[1..] == tail[..k - 1] + tail[k..];
      assert TotalAmount(rest) == LineTotal(rest[0]) + TotalAmount(rest[1..]);
    } else {
      assert xs[..0] + xs[1..] == xs[1..];
    }
  }

  /** Taking the first item off xs and a matching one off ys keeps the two
      listings permutations of each other. */
  lemma MultisetRemoveMatching(xs: seq<Item>, ys: seq<Item>, k: nat)
    requires xs != [] && k < |ys| && ys[k] == xs[0] && multiset(xs) == multiset(ys)
    ensures multiset(xs[1..]) == multiset(ys[..k] + ys[k + 1..])
  {
    var rest := ys[..k] + ys[k + 1..];
    assert xs == [xs[0]] + xs[1..];
    assert multiset(xs) == multiset{xs[0]} + multiset(xs[1..]);
    assert ys == ys[..k] + [ys[k]] + ys[k + 1..];
    assert multiset(ys) == multiset(ys[..k]) + multiset{ys[k]} + multiset(ys[k + 1..]);
    assert multiset(rest) == multiset(ys[..k]) + multiset(ys[k + 1..]);
    assert multiset(xs[1..]) == multiset(xs) - multiset{xs[0]};
    assert multiset(rest) == multiset(ys) - multiset{ys[k]};
  }

  /** The total does not depend on the order in which the items are listed. */
  lemma {:induction false} TotalPermutation(xs: seq<Item>, ys: seq<Item>)
    requires multiset(xs) == multiset(ys)
    ensures TotalAmount(xs) == TotalAmount(ys)
  {
    if xs == [] {
      assert |multiset(ys)| == 0;
    } else {
      assert xs[0] in ys by {
        assert xs[0] in multiset(ys);
      }
      var k :| 0 <= k < |ys| && ys[k] == xs[0];
      MultisetRemoveMatching(xs, ys, k);
      TotalPermutation(xs[1..], ys[..k] + ys[k + 1..]);
      TotalRemoveAt(ys, k);
    }
  }

  // ---------------------------------------------------------------------
  // Invoice numbers
  // ---------------------------------------------------------------------

  predicate IsLowerHexDigit(c: char) {
    '0' <= c <= '9' || 'a' <= c <= 'f'
  }

  predicate IsUpperHexDigit(c: char) {
    '0' <= c <= '9' || 'A' <= c <= 'F'
  }

  /** A `uuid4().hex`: 32 lower-case hexadecimal characters. */
  predicate IsUuidHex(s: string) {
    |s| == 32 && forall i :: 0 <= i < |s| ==> IsLowerHexDigit(s[i])
  }

  /** `str.upper` on one character, restricted to what it does to ASCII letters. */
  function UpperChar(c: char): char {
    if 'a' <= c <= 'z' then (c as int - 'a' as int + 'A' as int) as char else c
  }

  function LowerChar(c: char): char {
    if 'A' <= c <= 'Z' then (c as int - 'A' as int + 'a' as int) as char else c
  }

  function Upper(s: string): (r: string)
    ensures |r| == |s|
  {
    seq(|s|, i requires 0 <= i < |s| => UpperChar(s[i]))
  }

  /** `f"INV-{uuid.uuid4().hex[:8].upper()}"`: "INV-" followed by the first
      eight characters of the uuid in upper case.  Lower-casing the suffix
      gives back exactly those eight characters. */
  function GeneratedNumber(uuidHex: string): (r: string)
    requires IsUuidHex(uuidHex)
    ensures |r| == 12 && r[..4] == "INV-"
    ensures forall i :: 4 <= i < 12 ==> IsUpperHexDigit(r[i])
    ensures forall i :: 0 <= i < 8 ==> LowerChar(r[4 + i]) == uuidHex[i]
  {
    "INV-" + Upper(uuidHex[..8])
  }

  /** The number an invoice carries after `Invoice.save`: a generated one when
      the field is empty, the field unchanged otherwise. */
  function NumberOnSave(current: string, uuidHex: string): (r: string)
    requires IsUuidHex(uuidHex)
    ensures r != ""
    ensures current != "" ==> r == current
    ensures current == "" ==> r == GeneratedNumber(uuidHex) && |r| == 12 && r[..4] == "INV-"
  {
    if current == "" then GeneratedNumber(uuidHex) else current
  }

  /** Saving twice never regenerates the number, whatever the second uuid is. */
  lemma NumberOnSaveIdempotent(current: string, first: string, second: string)
    requires IsUuidHex(first) && IsUuidHex(second)
    ensures NumberOnSave(NumberOnSave(current, first), second) == NumberOnSave(current, first)
  {
  }
}
