/** Signed 64-bit arithmetic. The unguarded additions of the source appear as
    `Add64` and `Sub64`, whose preconditions say that the exact result is
    representable: a member that verifies performs no overflow. The guarded
    operations of `types/validator_set.go` are modelled with their branches. */
module Int64 {
  import opened Basics
  import opened Products

  const MaxInt64: int := 0x7FFF_FFFF_FFFF_FFFF
  const MinInt64: int := -0x8000_0000_0000_0000

  const TwoTo64: nat := 0x1_0000_0000_0000_0000

  type uint64 = x: nat | x < TwoTo64

  predicate InInt64(x: int) { MinInt64 <= x <= MaxInt64 }

  function Add64(a: int, b: int): (r: int)
    requires InInt64(a + b)
  { a + b }

  function Sub64(a: int, b: int): (r: int)
    requires InInt64(a - b)
  { a - b }

  /** Go's `/`: truncates toward zero. */
  function TruncDiv(a: int, b: int): (r: int)
    requires b > 0
  {
    if a >= 0 then a / b else -((-a) / b)
  }

  /** `big.Int.Div` by a positive divisor is Euclidean, that is, floor. */
  function FloorDiv(a: int, b: int): int
    requires b > 0
  {
    a / b
  }

  /** `safeAdd`: the second component is the overflow flag. */
  function SafeAdd(a: int, b: int): (r: (int, bool)) {
    if b > 0 && a > MaxInt64 - b then (-1, true)
    else if b < 0 && a < MinInt64 - b then (-1, true)
    else (a + b, false)
  }

  function SafeSub(a: int, b: int): (r: (int, bool)) {
    if b > 0 && a < MinInt64 + b then (-1, true)
    else if b < 0 && a > MaxInt64 + b then (-1, true)
    else (a - b, false)
  }

  /** Saturating addition: the representable number closest to the exact sum. */
  function SafeAddClip(a: int, b: int): (r: int)
    requires InInt64(a) && InInt64(b)
    ensures InInt64(r)
    ensures InInt64(a + b) ==> r == a + b
    ensures a + b > MaxInt64 ==> r == MaxInt64
    ensures a + b < MinInt64 ==> r == MinInt64
  {
    var (c, overflow) := SafeAdd(a, b);
    if overflow then (if b < 0 then MinInt64 else MaxInt64) else c
  }

  function SafeSubClip(a: int, b: int): (r: int)
    requires InInt64(a) && InInt64(b)
    ensures InInt64(r)
    ensures InInt64(a - b) ==> r == a - b
    ensures a - b > MaxInt64 ==> r == MaxInt64
    ensures a - b < MinInt64 ==> r == MinInt64
  {
    var (c, overflow) := SafeSub(a, b);
    if overflow then (if b > 0 then MinInt64 else MaxInt64) else c
  }

  // ---- Arithmetic that wraps ----

  function Wrap64(x: int): (r: int)
    ensures InInt64(r) && (InInt64(x) ==> r == x)
  {
    (x - MinInt64) % TwoTo64 + MinInt64
  }

  /** The cast from `uint64` to `int64`. */
  function Cast(x: uint64): (r: int)
    ensures InInt64(r) && r == if x <= MaxInt64 then x else x - TwoTo64
  {
    Wrap64(x)
  }

  /** Go's `/` on `int64`; the one quotient that does not fit wraps. */
  function Div64(a: int, b: int): (r: int)
    requires b != 0
    ensures InInt64(r)
  {
    Wrap64(if b > 0 then TruncDiv(a, b) else -TruncDiv(a, -b))
  }

  function Abs64(x: int): int { if x < 0 then Wrap64(-x) else x }

  /** `safeMul` */
  function SafeMul(a: int, b: int): (r: Option<int>)
    requires InInt64(a) && InInt64(b)
    ensures r.Some? ==> InInt64(r.value)
  {
    if a == 0 || b == 0 then Some(0)
    else if Abs64(a) > Div64(MaxInt64, Abs64(b)) then None
    else Some(Wrap64(a * b))
  }

  /** The exact product, or overflow exactly when the product or its negation
      does not fit; only for the smallest first factor the check never fires,
      and the product wraps. */
  lemma SafeMulIsExact(a: int, b: int)
    requires InInt64(a) && InInt64(b)
    ensures a != MinInt64 ==> SafeMul(a, b) == if -MaxInt64 <= a * b <= MaxInt64 then Some(a * b) else None
    ensures a == MinInt64 ==> SafeMul(a, b) == Some(Wrap64(a * b))
  {
    var x, y := if a < 0 then -a else a, if b < 0 then -b else b;
    SignOfProduct(a, b);
    if a == 0 || b == 0 {
    } else if a == MinInt64 {
      assert Abs64(a) == MinInt64;
      DivOfMax(Abs64(b));
    } else if b == MinInt64 {
      assert Abs64(b) == MinInt64 && Abs64(a) == x;
      DivOfMax(MinInt64);
      MulMonotone(y, 1, x);
    } else {
      assert Abs64(a) == x && Abs64(b) == y;
      DivOfMax(y);
      ProductFits(x, y);
    }
  }

  lemma SignOfProduct(a: int, b: int)
    ensures var x, y := if a < 0 then -a else a, if b < 0 then -b else b;
      a * b == if (a < 0) == (b < 0) then x * y else -(x * y)
  {}

  lemma DivOfMax(b: int)
    requires b != 0 && InInt64(b)
    ensures b > 0 ==> 0 <= Div64(MaxInt64, b) == MaxInt64 / b
    ensures b == MinInt64 ==> Div64(MaxInt64, b) == 0
  {
    if b > 0 { Quotient(MaxInt64, b, MaxInt64 / b); }
  }

  lemma ProductFits(x: int, y: int)
    requires 0 < x && 0 < y
    ensures x * y <= MaxInt64 <==> x <= MaxInt64 / y
  {
    var q := MaxInt64 / y;
    Quotient(MaxInt64, y, q);
    if x <= q { MulMonotone(y, x, q); } else { MulMonotone(y, q + 1, x); }
  }
}
