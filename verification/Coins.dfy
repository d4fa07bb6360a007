/** Coin sets with one amount per denomination, and totals over the holders of coins.
    A denomination without an entry has amount zero. */
module Coins {
  import opened LegacyDec

  type Denom = string

  type Coins = map<Denom, nat>

  function AmountOf(c: Coins, d: Denom): nat {
    if d in c then c[d] else 0
  }

  datatype Coin = Coin(denom: Denom, amount: nat)

  /** A list of coins of different denominations, by denomination. */
  function FromList(cs: seq<Coin>): Coins {
    if cs == [] then map[] else FromList(cs[1..])[cs[0].denom := cs[0].amount]
  }

  lemma {:induction false} FromListAt(cs: seq<Coin>, d: Denom)
    requires forall i, j :: 0 <= i < j < |cs| ==> cs[i].denom != cs[j].denom
    ensures forall i :: 0 <= i < |cs| && cs[i].denom == d ==> AmountOf(FromList(cs), d) == cs[i].amount
    ensures (forall i :: 0 <= i < |cs| ==> cs[i].denom != d) ==> AmountOf(FromList(cs), d) == 0
  {
    if cs != [] {
      FromListAt(cs[1..], d);
      assert forall i :: 0 < i < |cs| ==> cs[i] == cs[1..][i - 1];
    }
  }

  const NONE: Coins := map[]

  predicate IsZero(c: Coins) { forall d :: d in c ==> c[d] == 0 }

  function Add(a: Coins, b: Coins): (r: Coins)
    ensures forall d :: AmountOf(r, d) == AmountOf(a, d) + AmountOf(b, d)
  {
    map d | d in a.Keys + b.Keys :: AmountOf(a, d) + AmountOf(b, d)
  }

  /** Whether `b` can be taken out of `a` without any amount going negative. */
  ghost predicate Covers(a: Coins, b: Coins) {
    forall d :: AmountOf(b, d) <= AmountOf(a, d)
  }

  /** The executable form of `Covers`. */
  predicate IsAllGTE(a: Coins, b: Coins)
    ensures IsAllGTE(a, b) <==> Covers(a, b)
  {
    var r := forall d :: d in b ==> b[d] <= AmountOf(a, d);
    assert r ==> Covers(a, b);
    assert !r ==> exists d :: d in b && AmountOf(b, d) > AmountOf(a, d);
    r
  }

  /** Subtraction panics when an amount would go negative; `requires` rules the panic out. */
  function Sub(a: Coins, b: Coins): (r: Coins)
    requires Covers(a, b)
    ensures forall d :: AmountOf(r, d) == AmountOf(a, d) - AmountOf(b, d)
  {
    map d | d in a && AmountOf(b, d) < a[d] :: a[d] - AmountOf(b, d)
  }

  /** Decimal coins share the representation: each amount is a decimal. */
  type DecCoins = Coins

  function FromCoins(c: Coins): (r: DecCoins)
    ensures forall d :: AmountOf(r, d) == FromInt(AmountOf(c, d))
  {
    map d | d in c :: FromInt(c[d])
  }

  function MulDecTruncate(c: DecCoins, f: Dec): (r: DecCoins)
    ensures forall d :: AmountOf(r, d) == MulTruncate(AmountOf(c, d), f)
  {
    assert forall d :: d !in c ==> MulTruncate(AmountOf(c, d), f) == 0;
    map d | d in c && MulTruncate(c[d], f) > 0 :: MulTruncate(c[d], f)
  }

  /** The whole part of every amount. */
  function TruncateDecimal(c: DecCoins): (r: Coins)
    ensures forall d :: AmountOf(r, d) == Floor(AmountOf(c, d), PRECISION)
  {
    map d | d in c && Floor(c[d], PRECISION) > 0 :: Floor(c[d], PRECISION)
  }

  /** Accounts and validators, by name. */
  type Holder = string

  type Holdings = map<Holder, Coins>

  /** What `k` holds; a holder without an entry holds nothing. */
  function Held(m: Holdings, k: Holder): Coins {
    if k in m then m[k] else NONE
  }

  /** Gives `k` the holdings `c`. */
  function Put(m: Holdings, k: Holder, c: Coins): (r: Holdings)
    ensures forall j :: Held(r, j) == if j == k then c else Held(m, j)
  {
    m[k := c]
  }

  /** Moves `c` from one holder to another. */
  function Move(m: Holdings, from: Holder, to: Holder, c: Coins): (r: Holdings)
    requires from != to && Covers(Held(m, from), c)
    ensures Held(r, from) == Sub(Held(m, from), c)
    ensures Held(r, to) == Add(Held(m, to), c)
    ensures forall a :: a != from && a != to ==> Held(r, a) == Held(m, a)
  {
    Put(Put(m, from, Sub(Held(m, from), c)), to, Add(Held(m, to), c))
  }

  /** The sum of all entries. */
  ghost function Sum(m: map<Holder, nat>): nat
    decreases m.Keys
  {
    if m.Keys == {} then 0 else
      var k :| k in m.Keys;
      m[k] + Sum(m - {k})
  }

  function Entry(m: map<Holder, nat>, k: Holder): nat {
    if k in m then m[k] else 0
  }

  lemma {:induction false} SumForget(m: map<Holder, nat>, k: Holder)
    ensures Sum(m) == Entry(m, k) + Sum(m - {k})
    decreases m.Keys
  {
    if k in m {
      var k' :| k' in m.Keys && Sum(m) == m[k'] + Sum(m - {k'});
      if k' != k {
        SumForget(m - {k'}, k);
        SumForget(m - {k}, k');
        assert m - {k} - {k'} == m - {k'} - {k};
      }
    } else {
      assert m - {k} == m;
    }
  }

  /** The sum depends on the values only, not on which zero entries are stored. */
  lemma {:induction false} SumSame(m: map<Holder, nat>, m': map<Holder, nat>)
    requires forall k :: Entry(m, k) == Entry(m', k)
    ensures Sum(m) == Sum(m')
    decreases m.Keys + m'.Keys
  {
    var keys := m.Keys + m'.Keys;
    if keys == {} {
      assert m.Keys <= keys && m'.Keys <= keys;
    } else {
      var k :| k in keys;
      SumForget(m, k);
      SumForget(m', k);
      forall j ensures Entry(m - {k}, j) == Entry(m' - {k}, j) {
        assert Entry(m, j) == Entry(m', j);
      }
      assert (m - {k}).Keys + (m' - {k}).Keys == keys - {k};
      assert Entry(m, k) == Entry(m', k);
      SumSame(m - {k}, m' - {k});
    }
  }

  function Column(m: Holdings, d: Denom): map<Holder, nat> {
    map k | k in m :: AmountOf(m[k], d)
  }

  /** The amount of `d` over all holders. */
  ghost function Total(m: Holdings, d: Denom): nat { Sum(Column(m, d)) }

  /** Giving `k` new holdings moves the total by the difference. */
  lemma TotalUpdate(m: Holdings, k: Holder, c: Coins, d: Denom)
    ensures Total(Put(m, k, c), d) == Total(m, d) - AmountOf(Held(m, k), d) + AmountOf(c, d)
  {
    var col, col' := Column(m, d), Column(Put(m, k, c), d);
    SumForget(col, k);
    SumForget(col', k);
    assert col - {k} == col' - {k};
  }

  lemma TotalSame(m: Holdings, m': Holdings, d: Denom)
    requires forall k :: AmountOf(Held(m, k), d) == AmountOf(Held(m', k), d)
    ensures Total(m, d) == Total(m', d)
  {
    forall k ensures Entry(Column(m, d), k) == Entry(Column(m', d), k) {
      assert AmountOf(Held(m, k), d) == AmountOf(Held(m', k), d);
    }
    SumSame(Column(m, d), Column(m', d));
  }

  lemma MoveAmount(m: Holdings, from: Holder, to: Holder, c: Coins, a: Holder, d: Denom)
    requires from != to && Covers(Held(m, from), c)
    ensures AmountOf(Held(Move(m, from, to, c), a), d) ==
            if a == from then AmountOf(Held(m, a), d) - AmountOf(c, d)
            else if a == to then AmountOf(Held(m, a), d) + AmountOf(c, d)
            else AmountOf(Held(m, a), d)
  {
  }

  /** A move conserves the total. */
  lemma TotalMove(m: Holdings, from: Holder, to: Holder, c: Coins, d: Denom)
    requires from != to && Covers(Held(m, from), c)
    ensures Total(Move(m, from, to, c), d) == Total(m, d)
  {
    var m1 := Put(m, from, Sub(Held(m, from), c));
    TotalUpdate(m, from, Sub(Held(m, from), c), d);
    TotalUpdate(m1, to, Add(Held(m, to), c), d);
  }
}
