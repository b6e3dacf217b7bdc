/**
 * JavaScript numbers as far as the table's row arithmetic needs them: whole
 * pixel and row counts, the two infinities that a division by zero yields, and
 * NaN. Fractional pixels are not represented.
 */
module Numbers {
  import opened Options

  datatype Num = Finite(n: int) | PosInf | NegInf | NaN

  /** Math.floor(a / b) for a non-zero divisor, whatever the signs. */
  function FloorDiv(a: int, b: int): (q: int)
    requires b != 0
    ensures b > 0 ==> q * b <= a < q * b + b
    ensures b < 0 ==> q * b + b < a <= q * b
  {
    if b > 0 then a / b else (-a) / (-b)
  }

  /** Math.ceil(a / b) for a non-zero divisor, whatever the signs. */
  function CeilDiv(a: int, b: int): (q: int)
    requires b != 0
    ensures b > 0 ==> q * b - b < a <= q * b
    ensures b < 0 ==> q * b <= a < q * b - b
  {
    -FloorDiv(-a, b)
  }

  /** Multiplying by b keeps the order of x and y when b is positive and reverses it when b is negative. */
  lemma MulMonotone(x: int, y: int, b: int)
    ensures x <= y && 0 <= b ==> x * b <= y * b
    ensures x <= y && b <= 0 ==> y * b <= x * b
  {
    assert y * b - x * b == (y - x) * b;
  }

  /** No integer above FloorDiv(a, b) has its multiple of b within a. */
  lemma {:induction false} FloorDivIsGreatest(a: int, b: int, c: int)
    requires 0 < b && c * b <= a
    ensures c <= FloorDiv(a, b)
  {
    var q := FloorDiv(a, b);
    if c > q {
      MulMonotone(q + 1, c, b);
    }
  }

  /** No integer below CeilDiv(a, b) has its multiple of b reach a. */
  lemma {:induction false} CeilDivIsLeast(a: int, b: int, c: int)
    requires 0 < b && a <= c * b
    ensures CeilDiv(a, b) <= c
  {
    var q := CeilDiv(a, b);
    if c < q {
      MulMonotone(c, q - 1, b);
    }
  }

  /** What IEEE division of a by zero gives (the sign of a zero divisor is ignored). */
  function DivByZero(a: int): (r: Num)
    ensures a > 0 <==> r.PosInf?
    ensures a < 0 <==> r.NegInf?
    ensures a == 0 <==> r.NaN?
  {
    if a > 0 then PosInf else if a < 0 then NegInf else NaN
  }

  /** Math.floor(a / b). */
  function FloorQuotient(a: int, b: int): (r: Num)
    ensures b > 0 ==> r.Finite? && r.n * b <= a < r.n * b + b
    ensures b < 0 ==> r.Finite? && r.n * b + b < a <= r.n * b
    ensures b == 0 ==> r == DivByZero(a)
  {
    if b == 0 then DivByZero(a) else Finite(FloorDiv(a, b))
  }

  /** Math.ceil(a / b). */
  function CeilQuotient(a: int, b: int): (r: Num)
    ensures b > 0 ==> r.Finite? && r.n * b - b < a <= r.n * b
    ensures b < 0 ==> r.Finite? && r.n * b <= a < r.n * b - b
    ensures b == 0 ==> r == DivByZero(a)
  {
    if b == 0 then DivByZero(a) else Finite(CeilDiv(a, b))
  }

  /** Math.min(m, x) for a finite m: NaN wins, +Infinity loses, -Infinity wins. */
  function Min(m: int, x: Num): (r: Num)
    ensures x.NaN? <==> r.NaN?
    ensures x.NegInf? <==> r.NegInf?
    ensures x.PosInf? ==> r == Finite(m)
    ensures x.Finite? ==> r.Finite? && r.n <= x.n
    ensures r.Finite? ==> r.n <= m && (r.n == m || x == r)
  {
    match x
    case Finite(c) => Finite(if c < m then c else m)
    case PosInf => Finite(m)
    case NegInf => NegInf
    case NaN => NaN
  }

  /** `x || 0` for a value read from the row-count model: undefined, NaN and 0 all read as 0. */
  function OrZero(x: Option<Num>): (r: Num)
    ensures !r.NaN?
    ensures x == Some(NaN) ==> r == Finite(0)
    ensures x.Some? && !x.value.NaN? ==> r == x.value
    ensures x.None? ==> r == Finite(0)
  {
    match x
    case None => Finite(0)
    case Some(NaN) => Finite(0)
    case Some(v) => v
  }

  /** JavaScript's `x < y` on numbers: false whenever NaN takes part. */
  predicate Less(x: Num, y: Num): (r: bool)
    ensures x.Finite? && y.Finite? ==> (r <==> x.n < y.n)
    ensures x.NaN? || y.NaN? ==> !r
    ensures x.PosInf? || y.NegInf? ==> !r
    ensures x.NegInf? && !y.NaN? && !y.NegInf? ==> r
    ensures y.PosInf? && !x.NaN? && !x.PosInf? ==> r
  {
    match (x, y)
    case (Finite(a), Finite(b)) => a < b
    case (NegInf, Finite(_)) => true
    case (NegInf, PosInf) => true
    case (Finite(_), PosInf) => true
    case _ => false
  }
}
