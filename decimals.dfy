/**
 * The decimal columns `quantity` and `unit_price`:
 * `DecimalField(max_digits=10, decimal_places=2)`.
 *
 * A submitted value is a decimal number in Python's own representation,
 * coefficient x 10^exponent (`Decimal.as_tuple`).  The field's validator
 * decides from the digit count and the exponent whether it fits the column;
 * a value that fits is stored exactly, as a whole number of hundredths.
 */
module Decimals {
  import opened Models

  datatype DecimalInput = DecimalInput(coefficient: int, exponent: int)

  function Pow10(k: nat): (r: nat)
    ensures r >= 1
  {
    if k == 0 then 1 else 10 * Pow10(k - 1)
  }

  function Abs(n: int): nat {
    if n < 0 then -n else n
  }

  /** Number of decimal digits of n; 0 has one digit, as in `Decimal(0).as_tuple()`. */
  function DigitCount(n: nat): (r: nat)
    ensures r >= 1
  {
    if n < 10 then 1 else 1 + DigitCount(n / 10)
  }

  /** The exact value of a decimal input. */
  function Value(d: DecimalInput): real {
    if d.exponent >= 0 then (d.coefficient * Pow10(d.exponent)) as real
    else (d.coefficient as real) / (Pow10(-d.exponent) as real)
  }

  /** Total digits the validator counts for d. */
  function Digits(d: DecimalInput): nat {
    var len := DigitCount(Abs(d.coefficient));
    if d.exponent >= 0 then (if d.coefficient == 0 then len else len + d.exponent)
    else if -d.exponent > len then -d.exponent
    else len
  }

  /** Fractional digits the validator counts for d. */
  function Decimals(d: DecimalInput): nat {
    if d.exponent >= 0 then 0 else -d.exponent
  }

  /** The field's validator: at most 10 digits, at most 2 of them after the
      point, hence at most 8 before it. */
  predicate FitsField(d: DecimalInput) {
    Digits(d) <= 10 && Decimals(d) <= 2 && Digits(d) - Decimals(d) <= 8
  }

  /** The stored column value, in hundredths.  Only inputs that fit the
      field are ever stored; for them it is exact (HundredthsExact). */
  function Hundredths(d: DecimalInput): int {
    if d.exponent >= -2 then d.coefficient * Pow10(d.exponent + 2) else 0
  }

  lemma {:induction false} Pow10Add(a: nat, b: nat)
    ensures Pow10(a + b) == Pow10(a) * Pow10(b)
  {
    if a > 0 {
      Pow10Add(a - 1, b);
    }
  }

  lemma {:induction false} Pow10Monotone(a: nat, b: nat)
    requires a <= b
    ensures Pow10(a) <= Pow10(b)
  {
    if a < b {
      Pow10Monotone(a, b - 1);
    }
  }

  /** Every number is below 10 to the power of its digit count. */
  lemma {:induction false} DigitCountBound(n: nat)
    ensures n < Pow10(DigitCount(n))
  {
    if n >= 10 {
      DigitCountBound(n / 10);
    }
  }

  lemma ScaledBelow(n: nat, p: nat, q: nat)
    requires n < p
    ensures n * q <= p * q - q
  {
    assert p * q - q - n * q == (p - n - 1) * q;
  }

  lemma ScaledExact(c: int, e: nat)
    ensures ((c * Pow10(e + 2)) as real) / 100.0 == (c * Pow10(e)) as real
  {
    var p := Pow10(e);
    Pow10Add(e, 2);
    assert Pow10(e + 2) == p * 100;
    assert c * (p * 100) == (c * p) * 100;
  }

  lemma ScaledMagnitude(c: int, q: nat)
    ensures Abs(c * q) == Abs(c) * q
  {
    if c < 0 {
      assert c * q == -(Abs(c) * q);
    }
  }

  /** A value the validator accepts is stored exactly: the column holds
      100 times its value. */
  lemma HundredthsExact(d: DecimalInput)
    requires FitsField(d)
    ensures (Hundredths(d) as real) / 100.0 == Value(d)
  {
    assert d.exponent >= -2;
    if d.exponent >= 0 {
      ScaledExact(d.coefficient, d.exponent);
    } else if d.exponent == -1 {
      assert Pow10(1) == 10;
    } else {
      assert Pow10(0) == 1 && Pow10(2) == 100;
    }
  }

  /** The magnitude bound behind HundredthsBound: a coefficient of `len`
      digits scaled by 10^e, where len + e stays within 10 digits. */
  lemma ScaledBound(c: int, len: nat, e: nat)
    requires Abs(c) < Pow10(len) && len + e <= 10
    ensures Abs(c * Pow10(e)) <= Pow10(10) - 1
  {
    ScaledMagnitude(c, Pow10(e));
    ScaledBelow(Abs(c), Pow10(len), Pow10(e));
    Pow10Add(len, e);
    Pow10Monotone(len + e, 10);
  }

  /** A value the validator accepts has magnitude at most 99999999.99. */
  lemma HundredthsBound(d: DecimalInput)
    requires FitsField(d)
    ensures -MaxFieldHundredths <= Hundredths(d) <= MaxFieldHundredths
  {
    var n := Abs(d.coefficient);
    var len := DigitCount(n);
    assert d.exponent >= -2;
    if n != 0 {
      assert len + d.exponent <= 8;
      DigitCountBound(n);
      ScaledBound(d.coefficient, len, d.exponent + 2);
      assert Pow10(10) == MaxFieldHundredths + 1;
    }
  }

  /** The validator's rule, seen from outside: a whole number of up to 8
      digits with up to 2 decimal places fits (123.45 and 99999999.99 fit),
      and 9 whole digits or 3 decimal places do not. */
  lemma FitsFieldExamples()
    ensures FitsField(DecimalInput(12345, -2)) && Hundredths(DecimalInput(12345, -2)) == 12345
    ensures FitsField(DecimalInput(9999999999, -2))
    ensures !FitsField(DecimalInput(100000000, 0))
    ensures !FitsField(DecimalInput(1, -3))
    ensures FitsField(DecimalInput(0, 5)) && Hundredths(DecimalInput(0, 5)) == 0
  {
    assert DigitCount(12345) == 5;
    assert DigitCount(9999999999) == 10;
    assert DigitCount(100000000) == 9;
  }
}
