/** The arithmetic of one fee allocation, for one denomination.
    Amounts of coins are whole numbers, rewards are decimals. */
module Allocation {
  import opened LegacyDec
  import opened Coins

  datatype Validator = Validator(operator: Holder, tokens: nat)

  /** 0.15 */
  const POA_FRACTION: Dec := 150_000_000_000_000_000

  function PoaShare(fees: nat): (r: nat)
    ensures r <= fees
    ensures 0 <= 15 * fees - 100 * r <= 99
  {
    15 * fees / 100
  }

  function StakingShare(fees: nat): (r: nat)
    ensures fees > 0 ==> r > 0
  {
    fees - PoaShare(fees)
  }

  /** What the validators share: the staking share less the community tax. */
  function Slice(share: nat, tax: Dec): Dec
    requires tax <= PRECISION
  {
    share * (PRECISION - tax)
  }

  /** The part of `slice` that goes to a validator with `tokens` out of `bonded`. */
  function Reward(slice: Dec, tokens: nat, bonded: nat): Dec {
    if bonded == 0 then 0 else Floor(slice * Floor(tokens * PRECISION, bonded), PRECISION)
  }

  function SumOf(vals: seq<Validator>, w: Validator -> nat): nat {
    if vals == [] then 0 else SumOf(vals[..|vals| - 1], w) + w(vals[|vals| - 1])
  }

  function Tokens(): Validator -> nat { (v: Validator) => v.tokens }

  function RewardOf(slice: Dec, bonded: nat): Validator -> nat {
    (v: Validator) => Reward(slice, v.tokens, bonded)
  }

  function RewardIf(op: Holder, slice: Dec, bonded: nat): Validator -> nat {
    (v: Validator) => if v.operator == op then Reward(slice, v.tokens, bonded) else 0
  }

  function Bonded(vals: seq<Validator>): nat { SumOf(vals, Tokens()) }

  /** All that the validators receive together. */
  function Paid(vals: seq<Validator>, slice: Dec, bonded: nat): Dec {
    SumOf(vals, RewardOf(slice, bonded))
  }

  /** What the operator `op` receives. */
  function PaidTo(op: Holder, vals: seq<Validator>, slice: Dec, bonded: nat): Dec {
    SumOf(vals, RewardIf(op, slice, bonded))
  }

  /** The two truncations of the code lose no more than one floor of 15% does. */
  lemma PoaShareExact(fees: nat)
    ensures Floor(MulTruncate(FromInt(fees), POA_FRACTION), PRECISION) == PoaShare(fees)
  {
    WholeProduct(fees, POA_FRACTION);
    var unit: nat := 10_000_000_000_000_000;
    assert fees * POA_FRACTION == 15 * fees * unit && PRECISION == 100 * unit;
    FloorCancel(15 * fees, 100, unit);
    FloorAtLeast(15 * fees, 100, PoaShare(fees));
    FloorAtMost(15 * fees, 100, PoaShare(fees));
  }

  /** Truncated stake fractions and truncated rewards, summed over a list of validators:
      each lies within one unit a validator of the exact value. */
  lemma {:induction false} PaidBounds(vals: seq<Validator>, slice: Dec, bonded: nat) returns (fractions: nat)
    requires bonded > 0
    ensures fractions * bonded <= Bonded(vals) * PRECISION
    ensures vals != [] ==> Bonded(vals) * PRECISION < fractions * bonded + |vals| * bonded
    ensures Paid(vals, slice, bonded) * PRECISION <= slice * fractions
    ensures vals != [] ==> slice * fractions < Paid(vals, slice, bonded) * PRECISION + |vals| * PRECISION
    ensures vals == [] ==> fractions == 0
  {
    if vals == [] {
      fractions := 0;
    } else {
      var init, v := vals[..|vals| - 1], vals[|vals| - 1];
      var rest := PaidBounds(init, slice, bonded);
      var f := Floor(v.tokens * PRECISION, bonded);
      fractions := rest + f;
      FractionSumStep(Bonded(init), v.tokens, rest, f, |init|, bonded, PRECISION);
      RewardSumStep(slice, rest, f, Paid(init, slice, bonded), Reward(slice, v.tokens, bonded), |init|);
    }
  }

  lemma FractionSumStep(total: nat, tokens: nat, rest: nat, f: nat, n: nat, bonded: nat, unit: nat)
    requires rest * bonded <= total * unit && (n > 0 ==> total * unit < rest * bonded + n * bonded)
    requires n == 0 ==> total == 0
    requires f * bonded <= tokens * unit < f * bonded + bonded
    ensures (rest + f) * bonded <= (total + tokens) * unit < (rest + f) * bonded + (n + 1) * bonded
  {
    Distributes(rest, f, bonded);
    Distributes(total, tokens, unit);
    Distributes(n, 1, bonded);
  }

  lemma RewardSumStep(slice: nat, rest: nat, f: nat, paid: nat, reward: nat, n: nat)
    requires paid * PRECISION <= slice * rest && (n > 0 ==> slice * rest < paid * PRECISION + n * PRECISION)
    requires n == 0 ==> rest == 0
    requires reward * PRECISION <= slice * f < reward * PRECISION + PRECISION
    ensures (paid + reward) * PRECISION <= slice * (rest + f) < (paid + reward) * PRECISION + (n + 1) * PRECISION
  {
    Distributes(rest, f, slice);
  }

  lemma Distributes(a: nat, b: nat, c: nat)
    ensures (a + b) * c == a * c + b * c
    ensures c * (a + b) == c * a + c * b
  {
  }

  /** Truncated rewards never exceed the slice they are cut from. */
  lemma PaidWithinSlice(vals: seq<Validator>, slice: Dec)
    ensures Paid(vals, slice, Bonded(vals)) <= slice
  {
    var bonded := Bonded(vals);
    if bonded == 0 {
      NothingBonded(vals, slice);
    } else {
      var fractions := PaidBounds(vals, slice, bonded);
      FactorAtMost(fractions, PRECISION, bonded);
      MulMonotone(fractions, PRECISION, slice);
      FactorAtMost(Paid(vals, slice, bonded), slice, PRECISION);
    }
  }

  /** What the truncations leave over is less than one unit a validator, plus, for all
      validators but one, one unit of the stake fraction. */
  lemma DustBound(vals: seq<Validator>, share: nat, tax: Dec)
    requires tax <= PRECISION && Bonded(vals) > 0
    ensures vals != []
    ensures Slice(share, tax) - Paid(vals, Slice(share, tax), Bonded(vals)) < |vals| + (|vals| - 1) * share
  {
    var n, bonded, slice := |vals|, Bonded(vals), Slice(share, tax);
    var fractions := PaidBounds(vals, slice, bonded);
    LostFractions(n, bonded, fractions);
    MulMonotone(PRECISION - tax, PRECISION, share);
    LostRewards(n, fractions, slice, Paid(vals, slice, bonded), share);
  }

  lemma LostFractions(n: nat, bonded: nat, fractions: nat)
    requires bonded * PRECISION < fractions * bonded + n * bonded
    ensures PRECISION - fractions <= n - 1
  {
    assert (fractions + n) * bonded == fractions * bonded + n * bonded;
    if fractions + n <= PRECISION {
      MulMonotone(fractions + n, PRECISION, bonded);
    }
  }

  lemma LostRewards(n: nat, fractions: nat, slice: Dec, paid: Dec, share: nat)
    requires n > 0 && PRECISION - fractions <= n - 1
    requires slice * fractions < paid * PRECISION + n * PRECISION
    requires slice <= share * PRECISION
    ensures slice - paid < n + (n - 1) * share
  {
    MulMonotone(PRECISION - fractions, n - 1, slice);
    MulMonotone(slice, share * PRECISION, n - 1);
    ScaledLess(slice, paid, n, fractions, share, (n - 1) * share);
  }

  lemma ScaledLess(slice: Dec, paid: Dec, n: nat, fractions: nat, share: nat, cap: nat)
    requires slice * fractions < paid * PRECISION + n * PRECISION
    requires slice * (PRECISION - fractions) <= slice * (n - 1) <= share * PRECISION * (n - 1)
    requires cap == (n - 1) * share
    ensures slice - paid < n + cap
  {
    assert slice * (PRECISION - fractions) == slice * PRECISION - slice * fractions;
    assert share * PRECISION * (n - 1) == cap * PRECISION;
    assert slice * PRECISION < (paid + n + cap) * PRECISION;
  }

  lemma {:induction false} NothingBonded(vals: seq<Validator>, slice: Dec)
    ensures Paid(vals, slice, 0) == 0
    ensures forall op :: PaidTo(op, vals, slice, 0) == 0
  {
    if vals != [] {
      NothingBonded(vals[..|vals| - 1], slice);
      forall op ensures PaidTo(op, vals, slice, 0) == 0 {
        assert PaidTo(op, vals[..|vals| - 1], slice, 0) == 0;
      }
    }
  }

  lemma FactorAtMost(a: nat, b: nat, c: nat)
    requires c > 0 && a * c <= b * c
    ensures a <= b
  {
    if a > b {
      MulMonotone(b + 1, a, c);
    }
  }

  /** A list pays at least what any of its prefixes pays. */
  lemma {:induction false} PrefixPaidWithin(vals: seq<Validator>, i: nat, slice: Dec, bonded: nat)
    requires i <= |vals|
    ensures Paid(vals[..i], slice, bonded) <= Paid(vals, slice, bonded)
  {
    if i == |vals| {
      assert vals[..i] == vals;
    } else {
      PrefixPaidWithin(vals[..|vals| - 1], i, slice, bonded);
      assert vals[..|vals| - 1][..i] == vals[..i];
    }
  }

  /** More stake never earns less, and equal stake earns the same. */
  lemma RewardMonotone(slice: Dec, tokens: nat, tokens': nat, bonded: nat)
    requires tokens <= tokens'
    ensures Reward(slice, tokens, bonded) <= Reward(slice, tokens', bonded)
  {
    if bonded > 0 {
      FloorMonotone(tokens * PRECISION, tokens' * PRECISION, bonded);
      MulMonotone(Floor(tokens * PRECISION, bonded), Floor(tokens' * PRECISION, bonded), slice);
      FloorMonotone(slice * Floor(tokens * PRECISION, bonded), slice * Floor(tokens' * PRECISION, bonded), PRECISION);
    }
  }

  lemma {:induction false} SumRemove(vals: seq<Validator>, i: nat, w: Validator -> nat)
    requires i < |vals|
    ensures SumOf(vals, w) == SumOf(vals[..i] + vals[i + 1..], w) + w(vals[i])
  {
    var n := |vals| - 1;
    if i == n {
      assert vals[..i] + vals[i + 1..] == vals[..n];
    } else {
      SumRemove(vals[..n], i, w);
      var less := vals[..i] + vals[i + 1..];
      assert less[..|less| - 1] == vals[..n][..i] + vals[..n][i + 1..];
    }
  }

  lemma MultisetRemove(vals: seq<Validator>, i: nat)
    requires i < |vals|
    ensures multiset(vals[..i] + vals[i + 1..]) == multiset(vals) - multiset{vals[i]}
  {
    assert vals == vals[..i] + [vals[i]] + vals[i + 1..];
  }

  /** The last element of `a` has a place in its permutation `b`. */
  lemma PlaceInPermutation(a: seq<Validator>, b: seq<Validator>) returns (i: nat)
    requires multiset(a) == multiset(b) && a != []
    ensures i < |b| && b[i] == a[|a| - 1]
    ensures multiset(a[..|a| - 1]) == multiset(b[..i] + b[i + 1..])
  {
    var n := |a| - 1;
    assert a[n] in multiset(a);
    assert a[n] in b;
    i :| 0 <= i < |b| && b[i] == a[n];
    MultisetRemove(a, n);
    MultisetRemove(b, i);
    assert a[..n] + a[n + 1..] == a[..n];
  }

  lemma {:induction false} SumPermute(a: seq<Validator>, b: seq<Validator>, w: Validator -> nat)
    requires multiset(a) == multiset(b)
    ensures SumOf(a, w) == SumOf(b, w)
    decreases |a|
  {
    if a == [] {
      assert |multiset(b)| == 0;
    } else {
      var i := PlaceInPermutation(a, b);
      SumRemove(b, i, w);
      SumPermute(a[..|a| - 1], b[..i] + b[i + 1..], w);
    }
  }

  /** The order in which validators are visited does not matter. */
  lemma OrderFree(a: seq<Validator>, b: seq<Validator>, slice: Dec)
    requires multiset(a) == multiset(b)
    ensures Bonded(a) == Bonded(b)
    ensures Paid(a, slice, Bonded(a)) == Paid(b, slice, Bonded(b))
    ensures forall op :: PaidTo(op, a, slice, Bonded(a)) == PaidTo(op, b, slice, Bonded(b))
  {
    SumPermute(a, b, Tokens());
    SumPermute(a, b, RewardOf(slice, Bonded(a)));
    forall op ensures PaidTo(op, a, slice, Bonded(a)) == PaidTo(op, b, slice, Bonded(b)) {
      SumPermute(a, b, RewardIf(op, slice, Bonded(a)));
    }
  }
}
