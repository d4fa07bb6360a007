/** Fixed-point decimals with 18 digits, as the fee and vesting code uses them.
    A decimal is the integer it is stored as, that is, its value times 10^18.
    All decimals of the model are non-negative, where truncation is floor division. */
module LegacyDec {

  const PRECISION: nat := 1_000_000_000_000_000_000

  type Dec = nat

  function FromInt(i: nat): Dec { i * PRECISION }

  function MulTruncate(a: Dec, b: Dec): Dec { Floor(a * b, PRECISION) }

  function QuoTruncate(a: Dec, b: Dec): Dec
    requires b > 0
  {
    Floor(a * PRECISION, b)
  }

  /** Banker's rounding of a / 10^18: to nearest, a tie goes to the even neighbour. */
  function ChopRound(a: nat): (r: nat)
    ensures 2 * a <= 2 * PRECISION * r + PRECISION
    ensures 2 * PRECISION * r <= 2 * a + PRECISION
    ensures 2 * a + PRECISION == 2 * PRECISION * r || 2 * a == 2 * PRECISION * r + PRECISION ==> r % 2 == 0
  {
    var quo, rem := a / PRECISION, a % PRECISION;
    if 2 * rem < PRECISION then quo
    else if 2 * rem > PRECISION then quo + 1
    else if quo % 2 == 0 then quo
    else quo + 1
  }

  function Mul(a: Dec, b: Dec): Dec { ChopRound(a * b) }

  /** The quotient is truncated at 36 digits before it is rounded to 18. */
  function Quo(a: Dec, b: Dec): Dec
    requires b > 0
  {
    ChopRound(Floor(a * (PRECISION * PRECISION), b))
  }

  function RoundInt(a: Dec): nat { ChopRound(a) }

  /** Floor division, known by the two inequalities that determine it. */
  function Floor(x: nat, y: nat): (q: nat)
    requires y > 0
    ensures q * y <= x < q * y + y
  {
    DivBounds(x, y);
    x / y
  }

  lemma DivBounds(x: nat, y: nat)
    requires y > 0
    ensures 0 <= x / y
    ensures x / y * y <= x < x / y * y + y
  {
    assert x == x / y * y + x % y;
  }

  /** A lower bound on the numerator gives a lower bound on the quotient. */
  lemma FloorAtLeast(x: nat, y: nat, k: nat)
    requires y > 0 && k * y <= x
    ensures k <= Floor(x, y)
  {
    var q := Floor(x, y);
    if q < k {
      assert (q + 1) * y <= k * y by { MulMonotone(q + 1, k, y); }
    }
  }

  /** An upper bound on the numerator gives an upper bound on the quotient. */
  lemma FloorAtMost(x: nat, y: nat, k: nat)
    requires y > 0 && x < k * y + y
    ensures Floor(x, y) <= k
  {
    var q := Floor(x, y);
    if k < q {
      assert (k + 1) * y <= q * y by { MulMonotone(k + 1, q, y); }
    }
  }

  lemma FloorMonotone(x: nat, x': nat, y: nat)
    requires y > 0 && x <= x'
    ensures Floor(x, y) <= Floor(x', y)
  {
    FloorAtLeast(x', y, Floor(x, y));
  }

  /** Scaling numerator and denominator together changes nothing. */
  lemma FloorCancel(x: nat, y: nat, c: nat)
    requires y > 0 && c > 0
    ensures y * c > 0
    ensures Floor(x * c, y * c) == Floor(x, y)
  {
    assert y * c > 0 by { MulMonotone(1, c, y); }
    var q := Floor(x, y);
    MulMonotone(q * y, x, c);
    MulMonotone(x + 1, q * y + y, c);
    assert q * (y * c) == q * y * c;
    assert (q * y + y) * c == q * (y * c) + y * c;
    FloorAtLeast(x * c, y * c, q);
    FloorAtMost(x * c, y * c, q);
  }

  lemma FloorExact(x: nat, y: nat)
    requires y > 0
    ensures Floor(x * y, y) == x
  {
    FloorAtLeast(x * y, y, x);
    FloorAtMost(x * y, y, x);
  }

  lemma MulMonotone(a: int, b: int, c: nat)
    requires a <= b
    ensures a * c <= b * c
    ensures c * a <= c * b
  {
    assert (b - a) * c >= 0;
  }

  /** Multiplying a whole number by a decimal needs no truncation and no rounding. */
  lemma WholeProduct(i: nat, b: Dec)
    ensures MulTruncate(FromInt(i), b) == i * b
    ensures Mul(FromInt(i), b) == i * b
  {
    assert i * PRECISION * b == i * b * PRECISION;
    FloorExact(i * b, PRECISION);
    ChopRoundExact(i * b);
  }

  lemma ChopRoundExact(a: nat)
    ensures ChopRound(a * PRECISION) == a
  {
  }

  lemma ChopRoundMonotone(a: nat, b: nat)
    requires a <= b
    ensures ChopRound(a) <= ChopRound(b)
  {
  }

  /** The quotient of two whole numbers depends on their ratio only. */
  lemma WholeQuotient(i: nat, j: nat)
    requires j > 0
    ensures FromInt(j) > 0
    ensures QuoTruncate(FromInt(i), FromInt(j)) == Floor(i * PRECISION, j)
    ensures Quo(FromInt(i), FromInt(j)) == ChopRound(Floor(i * (PRECISION * PRECISION), j))
  {
    assert FromInt(j) > 0;
    FloorCancel(i * PRECISION, j, PRECISION);
    FloorCancel(i * (PRECISION * PRECISION), j, PRECISION);
    assert FromInt(i) * (PRECISION * PRECISION) == i * (PRECISION * PRECISION) * PRECISION;
  }
}
