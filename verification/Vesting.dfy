/** Linear vesting (GetVestedCoinsAt of utils/utils.go), with the 64-bit arithmetic and the
    three roundings of the code. */
module Vesting {
  import opened LegacyDec
  import opened Coins

  const MAX_INT64: int := 0x7FFF_FFFF_FFFF_FFFF
  const TWO_64: int := 0x1_0000_0000_0000_0000

  type int64 = x: int | -MAX_INT64 - 1 <= x <= MAX_INT64

  /** Converting an amount that does not fit 64 bits panics. */
  datatype Outcome = Vested(coins: seq<Coin>) | Panicked

  /** Addition of 64-bit integers, which wraps around. */
  function Add64(a: int64, b: int64): int64 {
    if a + b > MAX_INT64 then a + b - TWO_64
    else if a + b < -MAX_INT64 - 1 then a + b + TWO_64
    else a + b
  }

  // ----- The schedule -----

  predicate Started(at: int64, start: int64, length: int64) {
    at >= 0 && start >= 0 && length >= 0 && at > start
  }

  predicate Ended(at: int64, start: int64, length: int64)
    requires Started(at, start, length)
  {
    at >= Add64(start, length)
  }

  predicate Over(at: int64, start: int64, length: int64) {
    Started(at, start, length) && Ended(at, start, length)
  }

  predicate InProgress(at: int64, start: int64, length: int64) {
    Started(at, start, length) && !Ended(at, start, length)
  }

  /** The elapsed part of the period, as a decimal: truncated at 36 digits, rounded to 18. */
  function Portion(elapsed: nat, length: nat): Dec
    requires length > 0
  {
    ChopRound(Floor(elapsed * (PRECISION * PRECISION), length))
  }

  /** How much of `amount` has vested. */
  function VestedAt(at: int64, start: int64, length: int64, amount: nat): nat {
    if !Started(at, start, length) then 0
    else if Ended(at, start, length) then amount
    else ChopRound(amount * Portion(at - start, length))
  }

  /** Vesting is in progress strictly inside the period, and only if its end fits 64 bits. */
  lemma InProgressIff(at: int64, start: int64, length: int64)
    ensures InProgress(at, start, length) <==> 0 <= start < at < start + length <= MAX_INT64
  {
  }

  // ----- The code -----

  method GetVestedCoinsAt(vAt: int64, vStart: int64, vLength: int64, vCoins: seq<Coin>) returns (r: Outcome)
    ensures r.Panicked? <==> InProgress(vAt, vStart, vLength) && exists c :: c in vCoins && c.amount > MAX_INT64
    ensures r.Vested? ==> forall d :: AmountOf(FromList(r.coins), d) == VestedAt(vAt, vStart, vLength, AmountOf(FromList(vCoins), d))
    ensures r.Vested? && Started(vAt, vStart, vLength) ==>
              && |r.coins| == |vCoins|
              && forall i :: 0 <= i < |vCoins| ==>
                   r.coins[i] == Coin(vCoins[i].denom, VestedAt(vAt, vStart, vLength, vCoins[i].amount))
    ensures r.Vested? && !Started(vAt, vStart, vLength) ==> r.coins == []
  {
    if vAt < 0 || vStart < 0 || vLength < 0 {
      return Vested([]);
    }
    var vEnd := Add64(vStart, vLength);
    if vAt <= vStart {
      return Vested([]);
    } else if vAt >= vEnd {
      return Vested(vCoins);
    }
    var portion := Quo(FromInt(vAt - vStart), FromInt(vLength));
    WholeQuotient(vAt - vStart, vLength);
    var vestedCoins: seq<Coin> := [];
    for i := 0 to |vCoins|
      invariant |vestedCoins| == i
      invariant forall j :: 0 <= j < i ==> vCoins[j].amount <= MAX_INT64
      invariant forall j :: 0 <= j < i ==>
                  vestedCoins[j] == Coin(vCoins[j].denom, VestedAt(vAt, vStart, vLength, vCoins[j].amount))
    {
      var ovc := vCoins[i];
      if ovc.amount > MAX_INT64 {
        return Panicked;
      }
      WholeProduct(ovc.amount, portion);
      var vestedAmt := RoundInt(Mul(FromInt(ovc.amount), portion));
      vestedCoins := vestedCoins + [Coin(ovc.denom, vestedAmt)];
    }
    forall d ensures AmountOf(FromList(vestedCoins), d) == VestedAt(vAt, vStart, vLength, AmountOf(FromList(vCoins), d)) {
      VestedCoinByCoin(vAt, vStart, vLength, vCoins, vestedCoins, d);
    }
    r := Vested(vestedCoins);
  }

  lemma {:induction false} VestedCoinByCoin(at: int64, start: int64, length: int64, coins: seq<Coin>, vested: seq<Coin>, d: string)
    requires InProgress(at, start, length) && |vested| == |coins|
    requires forall j :: 0 <= j < |coins| ==>
               vested[j] == Coin(coins[j].denom, VestedAt(at, start, length, coins[j].amount))
    ensures AmountOf(FromList(vested), d) == VestedAt(at, start, length, AmountOf(FromList(coins), d))
  {
    if coins == [] {
      ChopRoundExact(0);
    } else {
      VestedCoinByCoin(at, start, length, coins[1..], vested[1..], d);
    }
  }

  // ----- Bounds and monotonicity -----

  lemma PortionFacts(elapsed: nat, elapsed': nat, length: nat)
    requires length > 0 && elapsed <= elapsed' <= length
    ensures Portion(elapsed, length) <= Portion(elapsed', length) <= PRECISION
  {
    var scale := PRECISION * PRECISION;
    FloorMonotone(elapsed * scale, elapsed' * scale, length);
    FloorMonotone(elapsed' * scale, scale * length, length);
    FloorExact(scale, length);
    var x, y := Floor(elapsed * scale, length), Floor(elapsed' * scale, length);
    ChopRoundMonotone(x, y);
    ChopRoundMonotone(y, scale);
    ChopRoundExact(PRECISION);
  }

  /** A larger portion rounds to no smaller an amount, and no portion to more than the whole. */
  lemma RoundedPart(amount: nat, p: Dec, p': Dec)
    requires p <= p' <= PRECISION
    ensures ChopRound(amount * p) <= ChopRound(amount * p') <= amount
  {
    MulMonotone(p, p', amount);
    MulMonotone(p', PRECISION, amount);
    var x, y, z := amount * p, amount * p', amount * PRECISION;
    ChopRoundMonotone(x, y);
    ChopRoundMonotone(y, z);
    ChopRoundExact(amount);
  }

  /** Never more than the whole grant. */
  lemma VestedWithinGrant(at: int64, start: int64, length: int64, amount: nat)
    ensures VestedAt(at, start, length, amount) <= amount
  {
    if InProgress(at, start, length) {
      var p := Portion(at - start, length);
      PortionFacts(at - start, at - start, length);
      RoundedPart(amount, p, p);
    }
  }

  /** Vesting never goes back, over all branches and for any period. */
  lemma VestedMonotone(at: int64, at': int64, start: int64, length: int64, amount: nat)
    requires at <= at'
    ensures VestedAt(at, start, length, amount) <= VestedAt(at', start, length, amount)
  {
    if InProgress(at', start, length) && Started(at, start, length) {
      PortionFacts(at - start, at' - start, length);
      RoundedPart(amount, Portion(at - start, length), Portion(at' - start, length));
    } else if Started(at, start, length) {
      VestedWithinGrant(at, start, length, amount);
    }
  }

  /** Nothing has vested up to the start, or with a negative start or length; everything has
      once the period is over. */
  lemma VestedOutside(at: int64, start: int64, length: int64, amount: nat)
    ensures start < 0 || length < 0 || at <= start ==> VestedAt(at, start, length, amount) == 0
    ensures start >= 0 && length >= 0 && at > start && at >= start + length ==> VestedAt(at, start, length, amount) == amount
  {
  }

  /** When the end of the period does not fit 64 bits, everything vests just after the start. */
  lemma OverflowVestsAtOnce(at: int64, start: int64, length: int64, amount: nat)
    requires start >= 0 && length >= 0
    ensures start + length > MAX_INT64 ==> VestedAt(at, start, length, amount) == if at > start then amount else 0
  {
  }

  ghost predicate Increasing(times: seq<int64>) {
    forall i, j :: 0 <= i < j < |times| ==> times[i] <= times[j]
  }

  /** The sum of what is released from each time to the next. */
  function Released(times: seq<int64>, start: int64, length: int64, amount: nat): int
    requires times != []
  {
    var n := |times| - 1;
    if n == 0 then 0
    else Released(times[..n], start, length, amount)
         + (VestedAt(times[n], start, length, amount) - VestedAt(times[n - 1], start, length, amount))
  }

  /** Each release between consecutive increasing times is non-negative; they add up to no
      more than the grant, and to the whole grant when the times span the period. */
  lemma {:induction false} ReleasesTelescope(times: seq<int64>, start: int64, length: int64, amount: nat)
    requires times != [] && Increasing(times)
    ensures Released(times, start, length, amount) ==
            VestedAt(times[|times| - 1], start, length, amount) - VestedAt(times[0], start, length, amount)
    ensures forall i :: 0 <= i < |times| - 1 ==>
              VestedAt(times[i], start, length, amount) <= VestedAt(times[i + 1], start, length, amount)
    ensures 0 <= Released(times, start, length, amount) <= amount
    ensures !Started(times[0], start, length) && Over(times[|times| - 1], start, length) ==>
              Released(times, start, length, amount) == amount
  {
    var n := |times| - 1;
    if n > 0 {
      ReleasesTelescope(times[..n], start, length, amount);
      VestedMonotone(times[0], times[n], start, length, amount);
      VestedMonotone(times[n - 1], times[n], start, length, amount);
    }
    VestedWithinGrant(times[n], start, length, amount);
  }

  // ----- How far the roundings can drift from the exact line -----

  /** The portion is within 1/2 + 10^-18 units of 10^-18 of elapsed / length. */
  lemma PortionError(elapsed: nat, length: nat)
    requires length > 0
    ensures var q := Portion(elapsed, length);
            && 2 * PRECISION * (q * length) <= 2 * PRECISION * PRECISION * elapsed + PRECISION * length
            && 2 * PRECISION * PRECISION * elapsed <= 2 * PRECISION * (q * length) + PRECISION * length + 2 * length
  {
    var f := Floor(elapsed * (PRECISION * PRECISION), length);
    RoundedError(f, ChopRound(f), length);
  }

  /** The error of one rounding, multiplied by `length`. */
  lemma RoundedError(x: nat, r: nat, length: nat)
    requires 2 * PRECISION * r <= 2 * x + PRECISION && 2 * x <= 2 * PRECISION * r + PRECISION
    ensures 2 * PRECISION * (r * length) <= 2 * (x * length) + PRECISION * length
    ensures 2 * (x * length) <= 2 * PRECISION * (r * length) + PRECISION * length
  {
    MulMonotone(2 * PRECISION * r, 2 * x + PRECISION, length);
    MulMonotone(2 * x, 2 * PRECISION * r + PRECISION, length);
    assert 2 * PRECISION * r * length == 2 * PRECISION * (r * length);
    assert (2 * x + PRECISION) * length == 2 * (x * length) + PRECISION * length;
    assert (2 * PRECISION * r + PRECISION) * length == 2 * PRECISION * (r * length) + PRECISION * length;
  }

  /** From the exact line amount * elapsed / length the vested amount differs by at most
      1/2 + amount * (1/2 + 10^-18) / 10^18, here multiplied by 2 * 10^36 * length. */
  lemma VestedError(at: int64, start: int64, length: int64, amount: nat)
    requires InProgress(at, start, length)
    ensures var v, elapsed := VestedAt(at, start, length, amount), at - start;
            var bound := PRECISION * PRECISION * length + (PRECISION + 2) * (amount * length);
            -bound <= 2 * PRECISION * PRECISION * (v * length - amount * elapsed) <= bound
  {
    var q := Portion(at - start, length);
    PortionError(at - start, length);
    LineError(at - start, length, amount, q, amount * q, ChopRound(amount * q));
  }

  /** The two errors together; `p` is the product that `v` rounds. */
  lemma LineError(elapsed: nat, length: nat, amount: nat, q: nat, p: nat, v: nat)
    requires 2 * PRECISION * (q * length) <= 2 * PRECISION * PRECISION * elapsed + PRECISION * length
    requires 2 * PRECISION * PRECISION * elapsed <= 2 * PRECISION * (q * length) + PRECISION * length + 2 * length
    requires p == amount * q && 2 * PRECISION * v <= 2 * p + PRECISION && 2 * p <= 2 * PRECISION * v + PRECISION
    ensures var bound := PRECISION * PRECISION * length + (PRECISION + 2) * (amount * length);
            -bound <= 2 * PRECISION * PRECISION * (v * length - amount * elapsed) <= bound
  {
    RoundedError(p, v, length);
    assert p * length == amount * (q * length);
    ScaledPortionError(amount, q * length, elapsed, length);
    ErrorsAddUp(v * length, p * length, amount * elapsed, amount * length, length);
  }

  lemma ErrorsAddUp(v: nat, p: nat, exact: nat, a: nat, length: nat)
    requires 2 * PRECISION * v <= 2 * p + PRECISION * length && 2 * p <= 2 * PRECISION * v + PRECISION * length
    requires 2 * PRECISION * p <= 2 * PRECISION * PRECISION * exact + PRECISION * a
    requires 2 * PRECISION * PRECISION * exact <= 2 * PRECISION * p + PRECISION * a + 2 * a
    ensures var bound := PRECISION * PRECISION * length + (PRECISION + 2) * a;
            -bound <= 2 * PRECISION * PRECISION * (v - exact) <= bound
  {
  }

  lemma ScaledPortionError(amount: nat, x: nat, elapsed: nat, length: nat)
    requires 2 * PRECISION * x <= 2 * PRECISION * PRECISION * elapsed + PRECISION * length
    requires 2 * PRECISION * PRECISION * elapsed <= 2 * PRECISION * x + PRECISION * length + 2 * length
    ensures 2 * PRECISION * (amount * x) <=
            2 * PRECISION * PRECISION * (amount * elapsed) + PRECISION * (amount * length)
    ensures 2 * PRECISION * PRECISION * (amount * elapsed) <=
            2 * PRECISION * (amount * x) + PRECISION * (amount * length) + 2 * (amount * length)
  {
    MulMonotone(2 * PRECISION * x, 2 * PRECISION * PRECISION * elapsed + PRECISION * length, amount);
    MulMonotone(2 * PRECISION * PRECISION * elapsed, 2 * PRECISION * x + PRECISION * length + 2 * length, amount);
    assert amount * (2 * PRECISION * x) == 2 * PRECISION * (amount * x);
    assert amount * (2 * PRECISION * PRECISION * elapsed) == 2 * PRECISION * PRECISION * (amount * elapsed);
    assert amount * (PRECISION * length) == PRECISION * (amount * length);
    assert amount * (2 * length) == 2 * (amount * length);
  }
}
