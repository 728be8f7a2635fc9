/**
 * A Monomial coefficient: a Python int or float. Floats are exact reals here;
 * the arithmetic keeps Python's result types (int op int is an int except for
 * true division, anything with a float is a float) and its exceptions.
 */
module Numbers {
  import opened Errors
  import Decimal

  datatype Number = Int(i: int) | Float(f: real)

  /** The number a coefficient stands for. */
  function Value(x: Number): real {
    match x
    case Int(i) => i as real
    case Float(f) => f
  }

  /** a + b. */
  function Plus(a: Number, b: Number): (r: Number)
    ensures Value(r) == Value(a) + Value(b)
    ensures r.Int? <==> a.Int? && b.Int?
  {
    if a.Int? && b.Int? then Int(a.i + b.i) else Float(Value(a) + Value(b))
  }

  /** a - b. */
  function Minus(a: Number, b: Number): (r: Number)
    ensures Value(r) == Value(a) - Value(b)
    ensures r.Int? <==> a.Int? && b.Int?
  {
    if a.Int? && b.Int? then Int(a.i - b.i) else Float(Value(a) - Value(b))
  }

  /** a * b. */
  function Times(a: Number, b: Number): (r: Number)
    ensures Value(r) == Value(a) * Value(b)
    ensures r.Int? <==> a.Int? && b.Int?
  {
    if a.Int? && b.Int? then Int(a.i * b.i) else Float(Value(a) * Value(b))
  }

  /** a / b: always a float; ZeroDivisionError when b is zero. */
  function Quotient(a: Number, b: Number): (r: Result<Number>)
    ensures r.Ok? <==> Value(b) != 0.0
    ensures r.Ok? ==> r.value.Float? && Value(r.value) * Value(b) == Value(a)
    ensures r.Err? ==> r.error.ZeroDivisionError?
  {
    if Value(b) == 0.0 then
      Err(ZeroDivisionError(if a.Int? && b.Int? then "division by zero" else "float division by zero"))
    else
      Ok(Float(Value(a) / Value(b)))
  }

  /** x ** n for a natural n. */
  function RealPow(x: real, n: nat): real {
    if n == 0 then 1.0 else x * RealPow(x, n - 1)
  }

  function IntPow(x: int, n: nat): int {
    if n == 0 then 1 else x * IntPow(x, n - 1)
  }

  lemma {:induction false} IntPowValue(x: int, n: nat)
    ensures IntPow(x, n) as real == RealPow(x as real, n)
  {
    if n > 0 {
      IntPowValue(x, n - 1);
    }
  }

  lemma {:induction false} RealPowNonZero(x: real, n: nat)
    requires x != 0.0
    ensures RealPow(x, n) != 0.0
  {
    if n > 0 {
      RealPowNonZero(x, n - 1);
    }
  }

  /**
   * a ** n for an int n: an int for an int base and n >= 0, a float
   * otherwise; a zero base with a negative n raises ZeroDivisionError.
   */
  function Pow(a: Number, n: int): (r: Result<Number>)
    ensures r.Ok? <==> Value(a) != 0.0 || n >= 0
    ensures r.Ok? && n >= 0 ==> Value(r.value) == RealPow(Value(a), n)
    ensures r.Ok? && n < 0 ==> Value(r.value) * RealPow(Value(a), -n) == 1.0
    ensures r.Ok? ==> (r.value.Int? <==> a.Int? && n >= 0)
    ensures r.Err? ==> r.error == ZeroDivisionError("0.0 cannot be raised to a negative power")
  {
    if n >= 0 then
      IntPowValueAt(a, n);
      if a.Int? then Ok(Int(IntPow(a.i, n))) else Ok(Float(RealPow(a.f, n)))
    else if Value(a) == 0.0 then
      Err(ZeroDivisionError("0.0 cannot be raised to a negative power"))
    else
      RealPowNonZero(Value(a), -n);
      Ok(Float(1.0 / RealPow(Value(a), -n)))
  }

  lemma IntPowValueAt(a: Number, n: nat)
    ensures a.Int? ==> IntPow(a.i, n) as real == RealPow(Value(a), n)
  {
    if a.Int? {
      IntPowValue(a.i, n);
    }
  }

  /** str() of a coefficient: the decimal digits of an int; a float is written by showFloat. */
  function Show(x: Number, showFloat: real -> string): string {
    match x
    case Int(i) => Decimal.IntToString(i)
    case Float(f) => showFloat(f)
  }
}
