/** C# `int` arithmetic as the blur pass uses it: 32-bit two's-complement
    values, unchecked subtraction that wraps, and division that truncates
    toward zero and throws on a zero divisor or on `int.MinValue / -1`. */
module Int32 {

  const MinInt32: int := -0x8000_0000
  const MaxInt32: int := 0x7fff_ffff
  const Modulus: int := 0x1_0000_0000

  type int32 = x: int | MinInt32 <= x <= MaxInt32

  datatype ArithmeticError = DivideByZero | Overflow

  datatype Result<+T> = Ok(value: T) | Err(error: ArithmeticError) {
    predicate IsFailure() {
      Err?
    }

    function PropagateFailure<U>(): Result<U>
      requires Err?
    {
      Err(error)
    }

    function Extract(): T
      requires Ok?
    {
      value
    }
  }

  function Abs(x: int): nat {
    if x < 0 then -x else x
  }

  /** Reduces a mathematical integer to the 32-bit value with the same bits. */
  function Wrap(x: int): (r: int32)
    ensures (r - x) % Modulus == 0
    ensures MinInt32 <= x <= MaxInt32 ==> r == x
  {
    (x - MinInt32) % Modulus + MinInt32
  }

  /** `a - b` in an unchecked C# context. */
  function Sub(a: int32, b: int32): (r: int32)
    ensures MinInt32 <= a - b <= MaxInt32 ==> r == a - b
    ensures a - b < MinInt32 ==> r == a - b + Modulus
    ensures a - b > MaxInt32 ==> r == a - b - Modulus
  {
    Wrap(a - b)
  }

  /** `a / d` on C# `int`: the quotient rounded toward zero. */
  function Div(a: int32, d: int32): (r: Result<int32>)
    ensures d == 0 <==> r == Err(DivideByZero)
    ensures (a == MinInt32 && d == -1) <==> r == Err(Overflow)
    ensures r.Ok? ==> IsTruncatedQuotient(a, d, r.value)
  {
    if d == 0 then Err(DivideByZero)
    else if a == MinInt32 && d == -1 then Err(Overflow)
    else
      TruncatedQuotient(a, d);
      Ok(Truncate(a, d))
  }

  /** `q` is `a / d` rounded toward zero: `q * d` lies between 0 and `a`
      and falls short of `a` by less than one divisor. */
  predicate IsTruncatedQuotient(a: int, d: int, q: int) {
    && (0 <= q * d <= a || a <= q * d <= 0)
    && Abs(a - q * d) < Abs(d)
  }

  /** The quotient of `a` by `d` rounded toward zero, over unbounded integers. */
  function Truncate(a: int, d: int): int
    requires d != 0
  {
    var q := Abs(a) / Abs(d);
    if (a < 0) == (d < 0) then q else -q
  }

  lemma TruncatedQuotient(a: int32, d: int32)
    requires d != 0 && !(a == MinInt32 && d == -1)
    ensures MinInt32 <= Truncate(a, d) <= MaxInt32
    ensures IsTruncatedQuotient(a, d, Truncate(a, d))
  {
    var q := Abs(a) / Abs(d);
    DivBounds(Abs(a), Abs(d));
    QuotientRange(a, d, q);
    var s := if (a < 0) == (d < 0) then q else -q;
    assert Truncate(a, d) == s;
    SignedProduct(a, d, q);
  }

  lemma QuotientRange(a: int32, d: int32, q: nat)
    requires d != 0 && !(a == MinInt32 && d == -1)
    requires q * Abs(d) <= Abs(a) && q <= Abs(a)
    ensures (a < 0) == (d < 0) ==> q <= MaxInt32
    ensures q <= Modulus / 2
  {
  }

  lemma DivBounds(a: nat, d: nat)
    requires d > 0
    ensures 0 <= a / d <= a
    ensures (a / d) * d <= a < (a / d) * d + d
  {
    var q, m := a / d, a % d;
    assert a == q * d + m && 0 <= m < d;
    assert q <= q * d by {
      MulMonotone(q, 1, d);
    }
  }

  lemma MulMonotone(q: nat, d: nat, e: nat)
    requires d <= e
    ensures q * d <= q * e
  {
  }

  lemma SignedProduct(a: int, d: int, q: int)
    requires d != 0 && q >= 0
    requires q * Abs(d) <= Abs(a) < q * Abs(d) + Abs(d)
    ensures IsTruncatedQuotient(a, d, if (a < 0) == (d < 0) then q else -q)
  {
  }
}
