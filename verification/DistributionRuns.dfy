/** What holds of the ledger over whole runs of the chain, and what one allocation
    guarantees to validators and to the community pool. */
module DistributionRuns {
  import opened LegacyDec
  import opened Coins
  import opened Allocation
  import opened Distribution

  datatype Event =
    | Mint(coins: Coins)                       // inflation, minted into the fee collector
    | PayFee(from: Holder, coins: Coins)       // a fee paid out of some other account
    | NewBlock(block: Block)
    | ExportScraps(operators: seq<Holder>)

  /** A block whose BeginBlock fails is not committed. */
  ghost predicate Next(l: Ledger, e: Event, l': Ledger) {
    match e
    case Mint(coins) =>
      l' == l.(bank := Put(l.bank, FEE_COLLECTOR, Add(Held(l.bank, FEE_COLLECTOR), coins)))
    case PayFee(from, coins) =>
      && from !in {FEE_COLLECTOR, POA, DISTRIBUTION}
      && Covers(Held(l.bank, from), coins)
      && l' == l.(bank := Move(l.bank, from, FEE_COLLECTOR, coins))
    case NewBlock(b) =>
      && b.Valid()
      && if Rejected(l, b) then l' == l else BlockDone(l, l', b)
    case ExportScraps(operators) =>
      ScrapsDonated(l, l', operators)
  }

  ghost predicate Run(ls: seq<Ledger>, es: seq<Event>) {
    |ls| == |es| + 1 && forall i :: 0 <= i < |es| ==> Next(ls[i], es[i], ls[i + 1])
  }

  /** The distribution account holds exactly what validators and the community are owed. */
  ghost predicate Solvent(l: Ledger) {
    forall d :: FromInt(AmountOf(Held(l.bank, DISTRIBUTION), d)) ==
                Total(l.outstanding, d) + AmountOf(l.communityPool, d)
  }

  // ----- Totals -----

  /** Crediting every operator adds all that was paid to the total owed. */
  lemma {:induction false} SumCredit(m: map<Holder, nat>, m': map<Holder, nat>, vals: seq<Validator>, slice: Dec, bonded: nat)
    requires forall op :: Entry(m', op) == Entry(m, op) + PaidTo(op, vals, slice, bonded)
    ensures Sum(m') == Sum(m) + Paid(vals, slice, bonded)
    decreases |vals|
  {
    if vals == [] {
      forall op ensures Entry(m', op) == Entry(m, op) {
        assert PaidTo(op, vals, slice, bonded) == 0;
      }
      SumSame(m, m');
    } else {
      var init, v := vals[..|vals| - 1], vals[|vals| - 1];
      var m1 := Bump(m, v.operator, Reward(slice, v.tokens, bonded));
      forall op ensures Entry(m', op) == Entry(m1, op) + PaidTo(op, init, slice, bonded) {
        assert Entry(m', op) == Entry(m, op) + PaidTo(op, vals, slice, bonded);
      }
      SumCredit(m1, m', init, slice, bonded);
    }
  }

  /** Adds `x` to one entry. */
  ghost function Bump(m: map<Holder, nat>, k: Holder, x: nat): (r: map<Holder, nat>)
    ensures forall j :: Entry(r, j) == Entry(m, j) + if j == k then x else 0
    ensures Sum(r) == Sum(m) + x
  {
    var r := m[k := Entry(m, k) + x];
    SumForget(m, k);
    SumForget(r, k);
    assert m - {k} == r - {k};
    r
  }

  lemma ColumnEntry(m: Holdings, k: Holder, d: Denom)
    ensures Entry(Column(m, d), k) == AmountOf(Held(m, k), d)
  {
  }

  lemma RewardedTotal(l: Ledger, l': Ledger, b: Block, d: Denom)
    requires b.Valid() && Rewarded(l, l', b)
    ensures Total(l'.outstanding, d) ==
            Total(l.outstanding, d) + Paid(b.vals, ValidatorSlice(l, b, d), Bonded(b.vals))
  {
    var m, m' := Column(l.outstanding, d), Column(l'.outstanding, d);
    var slice := ValidatorSlice(l, b, d);
    forall op ensures Entry(m', op) == Entry(m, op) + PaidTo(op, b.vals, slice, Bonded(b.vals)) {
      ColumnEntry(l.outstanding, op, d);
      ColumnEntry(l'.outstanding, op, d);
      assert AmountOf(Held(l'.outstanding, op), d) ==
             AmountOf(Held(l.outstanding, op), d) + PaidTo(op, b.vals, slice, Bonded(b.vals));
    }
    SumCredit(m, m', b.vals, slice, Bonded(b.vals));
  }

  /** Splitting one entry between two others conserves the sum. */
  lemma SumSplit(m: map<Holder, nat>, m': map<Holder, nat>, from: Holder, p: Holder, q: Holder, x: nat, y: nat)
    requires from != p && p != q && q != from && Entry(m, from) == x + y
    requires forall a :: Entry(m', a) ==
               if a == from then 0 else Entry(m, a) + if a == p then x else if a == q then y else 0
    ensures Sum(m') == Sum(m)
  {
    var refilled, shared := Bump(m', from, x + y), Bump(Bump(m, p, x), q, y);
    forall a ensures Entry(refilled, a) == Entry(shared, a) { }
    SumSame(refilled, shared);
  }

  /** A sweep only moves coins. */
  lemma SweepConserves(bank: Holdings, bank': Holdings, d: Denom)
    requires FeesSwept(bank, bank')
    ensures Total(bank', d) == Total(bank, d)
  {
    var m, m' := Column(bank, d), Column(bank', d);
    var x, y := PoaShare(Entry(m, FEE_COLLECTOR)), StakingShare(Entry(m, FEE_COLLECTOR));
    forall a ensures Entry(m', a) ==
      if a == FEE_COLLECTOR then 0 else Entry(m, a) + if a == POA then x else if a == DISTRIBUTION then y else 0
    {
      ColumnEntry(bank, FEE_COLLECTOR, d);
      ColumnEntry(bank, a, d);
      ColumnEntry(bank', a, d);
      assert AmountOf(Held(bank', a), d) == BalanceAfterSweep(bank, a, d);
    }
    SumSplit(m, m', FEE_COLLECTOR, POA, DISTRIBUTION, x, y);
  }

  // ----- Every run keeps the ledger solvent and conserves supply -----

  lemma AllocationKeepsSolvency(l: Ledger, l': Ledger, b: Block)
    requires b.Valid() && Allocated(l, l', b) && Solvent(l)
    ensures Solvent(l')
  {
    forall d ensures FromInt(AmountOf(Held(l'.bank, DISTRIBUTION), d)) ==
                     Total(l'.outstanding, d) + AmountOf(l'.communityPool, d)
    {
      RewardedTotal(l, l', b, d);
      assert AmountOf(Held(l'.bank, DISTRIBUTION), d) == BalanceAfterSweep(l.bank, DISTRIBUTION, d);
      assert FromInt(AmountOf(Held(l.bank, DISTRIBUTION), d)) == Total(l.outstanding, d) + AmountOf(l.communityPool, d);
    }
  }

  lemma DonationKeepsSolvency(l: Ledger, l': Ledger, operators: seq<Holder>)
    requires ScrapsDonated(l, l', operators) && Solvent(l)
    ensures Solvent(l')
  {
    forall d ensures FromInt(AmountOf(Held(l'.bank, DISTRIBUTION), d)) ==
                     Total(l'.outstanding, d) + AmountOf(l'.communityPool, d)
    {
      assert PoolAndRewards(l', d) == PoolAndRewards(l, d);
    }
  }

  lemma StepKeepsSolvency(l: Ledger, e: Event, l': Ledger)
    requires Next(l, e, l') && Solvent(l)
    ensures Solvent(l')
  {
    match e
    case Mint(coins) =>
      assert Held(l'.bank, DISTRIBUTION) == Held(l.bank, DISTRIBUTION);
    case PayFee(from, coins) =>
      assert Held(l'.bank, DISTRIBUTION) == Held(l.bank, DISTRIBUTION);
    case NewBlock(b) =>
      if !Rejected(l, b) && b.height > 1 {
        AllocationKeepsSolvency(l, l', b);
      }
    case ExportScraps(operators) =>
      DonationKeepsSolvency(l, l', operators);
  }

  lemma {:induction false} RunsAreSolvent(ls: seq<Ledger>, es: seq<Event>, n: nat)
    requires Run(ls, es) && Solvent(ls[0]) && n < |ls|
    ensures Solvent(ls[n])
  {
    if n > 0 {
      RunsAreSolvent(ls, es, n - 1);
      StepKeepsSolvency(ls[n - 1], es[n - 1], ls[n]);
    }
  }

  /** The coins of `d` minted in the first `n` events. */
  function Minted(es: seq<Event>, n: nat, d: Denom): nat
    requires n <= |es|
  {
    if n == 0 then 0
    else Minted(es, n - 1, d) + if es[n - 1].Mint? then AmountOf(es[n - 1].coins, d) else 0
  }

  lemma StepConservesSupply(l: Ledger, e: Event, l': Ledger, d: Denom)
    requires Next(l, e, l')
    ensures Total(l'.bank, d) == Total(l.bank, d) + if e.Mint? then AmountOf(e.coins, d) else 0
  {
    match e
    case Mint(coins) =>
      TotalUpdate(l.bank, FEE_COLLECTOR, Add(Held(l.bank, FEE_COLLECTOR), coins), d);
    case PayFee(from, coins) =>
      TotalMove(l.bank, from, FEE_COLLECTOR, coins, d);
    case NewBlock(b) =>
      if !Rejected(l, b) && b.height > 1 {
        SweepConserves(l.bank, l'.bank, d);
      }
    case ExportScraps(operators) =>
  }

  /** Nothing but minting changes the supply of any denomination. */
  lemma {:induction false} RunsConserveSupply(ls: seq<Ledger>, es: seq<Event>, n: nat, d: Denom)
    requires Run(ls, es) && n < |ls|
    ensures Total(ls[n].bank, d) == Total(ls[0].bank, d) + Minted(es, n, d)
  {
    if n > 0 {
      RunsConserveSupply(ls, es, n - 1, d);
      StepConservesSupply(ls[n - 1], es[n - 1], ls[n], d);
    }
  }

  // ----- The POA share over a run -----

  /** Whether the event is a block that allocates. */
  predicate Allocates(l: Ledger, e: Event) {
    e.NewBlock? && e.block.height > 1 && !Rejected(l, e.block)
  }

  /** The allocating blocks that found fees of the denomination. */
  function PayingBlocks(ls: seq<Ledger>, es: seq<Event>, n: nat, d: Denom): nat
    requires n <= |es| && n < |ls|
  {
    if n == 0 then 0
    else PayingBlocks(ls, es, n - 1, d) + if Allocates(ls[n - 1], es[n - 1]) && Fees(ls[n - 1], d) > 0 then 1 else 0
  }

  /** The fees that allocating blocks found in the fee collector. */
  function FeesTaken(ls: seq<Ledger>, es: seq<Event>, n: nat, d: Denom): nat
    requires n <= |es| && n < |ls|
  {
    if n == 0 then 0
    else FeesTaken(ls, es, n - 1, d) + if Allocates(ls[n - 1], es[n - 1]) then Fees(ls[n - 1], d) else 0
  }

  lemma PoaStep(l: Ledger, e: Event, l': Ledger, d: Denom)
    requires Next(l, e, l')
    ensures AmountOf(Held(l'.bank, POA), d) ==
            AmountOf(Held(l.bank, POA), d) + if Allocates(l, e) then PoaShare(Fees(l, d)) else 0
    ensures Allocates(l, e) ==> Fees(l', d) == 0
  {
    if Allocates(l, e) {
      assert AmountOf(Held(l'.bank, POA), d) == BalanceAfterSweep(l.bank, POA, d);
      assert AmountOf(Held(l'.bank, FEE_COLLECTOR), d) == BalanceAfterSweep(l.bank, FEE_COLLECTOR, d);
    }
  }

  /** Over a run, POA falls short of 15% of all fees by less than one coin for each block
      that shared fees out. */
  lemma {:induction false} RunsPayPoa(ls: seq<Ledger>, es: seq<Event>, n: nat, d: Denom)
    requires Run(ls, es) && n < |ls|
    ensures var credit := AmountOf(Held(ls[n].bank, POA), d) - AmountOf(Held(ls[0].bank, POA), d);
            0 <= 15 * FeesTaken(ls, es, n, d) - 100 * credit <= 99 * PayingBlocks(ls, es, n, d)
  {
    if n > 0 {
      RunsPayPoa(ls, es, n - 1, d);
      PoaStep(ls[n - 1], es[n - 1], ls[n], d);
    }
  }

  // ----- What one allocation guarantees -----

  lemma SliceAndTax(share: nat, tax: Dec)
    requires tax <= PRECISION
    ensures Slice(share, tax) + share * tax == FromInt(share)
  {
    assert share * (PRECISION - tax) == share * PRECISION - share * tax;
  }

  /** The community pool gains its exact tax and, on top, only truncation dust. */
  lemma CommunityPoolGain(l: Ledger, l': Ledger, b: Block, d: Denom)
    requires b.Valid() && Allocated(l, l', b) && Bonded(b.vals) > 0
    ensures var share, n := StakingShare(Fees(l, d)), |b.vals|;
            var gain := AmountOf(l'.communityPool, d) - AmountOf(l.communityPool, d);
            n >= 1 && share * b.tax <= gain < share * b.tax + n + (n - 1) * share
  {
    var share := StakingShare(Fees(l, d));
    DustBound(b.vals, share, b.tax);
    PaidWithinSlice(b.vals, Slice(share, b.tax));
    SliceAndTax(share, b.tax);
    assert AmountOf(l'.communityPool, d) == AmountOf(l.communityPool, d) + FromInt(share)
                                            - Paid(b.vals, ValidatorSlice(l, b, d), Bonded(b.vals));
  }

  /** With nothing bonded the community pool takes the whole staking share. */
  lemma NoStakeNoRewards(l: Ledger, l': Ledger, b: Block, d: Denom)
    requires b.Valid() && Allocated(l, l', b) && Bonded(b.vals) == 0
    ensures AmountOf(l'.communityPool, d) == AmountOf(l.communityPool, d) + FromInt(StakingShare(Fees(l, d)))
    ensures Total(l'.outstanding, d) == Total(l.outstanding, d)
  {
    NothingBonded(b.vals, ValidatorSlice(l, b, d));
    RewardedTotal(l, l', b, d);
    assert AmountOf(l'.communityPool, d) == AmountOf(l.communityPool, d) + FromInt(StakingShare(Fees(l, d)))
                                            - Paid(b.vals, ValidatorSlice(l, b, d), Bonded(b.vals));
  }

  ghost predicate DistinctOperators(vals: seq<Validator>) {
    forall i, j :: 0 <= i < j < |vals| ==> vals[i].operator != vals[j].operator
  }

  lemma {:induction false} PaidOnce(vals: seq<Validator>, i: nat, slice: Dec, bonded: nat)
    requires DistinctOperators(vals) && i < |vals|
    ensures PaidTo(vals[i].operator, vals, slice, bonded) == Reward(slice, vals[i].tokens, bonded)
  {
    var n := |vals| - 1;
    if i == n {
      PaidNever(vals[i].operator, vals[..n], slice, bonded);
    } else {
      PaidOnce(vals[..n], i, slice, bonded);
    }
  }

  lemma {:induction false} PaidNever(op: Holder, vals: seq<Validator>, slice: Dec, bonded: nat)
    requires forall v :: v in vals ==> v.operator != op
    ensures PaidTo(op, vals, slice, bonded) == 0
  {
    if vals != [] {
      PaidNever(op, vals[..|vals| - 1], slice, bonded);
    }
  }

  function Gain(l: Ledger, l': Ledger, op: Holder, d: Denom): int {
    AmountOf(Held(l'.outstanding, op), d) - AmountOf(Held(l.outstanding, op), d)
  }

  /** More stake never earns less; equal stake, taken both ways round, earns the same. */
  lemma RewardsAreFair(l: Ledger, l': Ledger, b: Block, i: nat, j: nat, d: Denom)
    requires b.Valid() && Allocated(l, l', b) && DistinctOperators(b.vals)
    requires i < |b.vals| && j < |b.vals| && b.vals[i].tokens <= b.vals[j].tokens
    ensures 0 <= Gain(l, l', b.vals[i].operator, d) <= Gain(l, l', b.vals[j].operator, d)
  {
    var slice, bonded := ValidatorSlice(l, b, d), Bonded(b.vals);
    PaidOnce(b.vals, i, slice, bonded);
    PaidOnce(b.vals, j, slice, bonded);
    RewardMonotone(slice, b.vals[i].tokens, b.vals[j].tokens, bonded);
  }

  /** The order of the validators changes no balance, no reward and no pool amount. */
  lemma AllocationIsOrderFree(l: Ledger, l1: Ledger, l2: Ledger, b1: Block, b2: Block)
    requires b1.Valid() && b2.Valid() && b1.tax == b2.tax
    requires multiset(b1.vals) == multiset(b2.vals)
    requires Allocated(l, l1, b1) && Allocated(l, l2, b2)
    ensures forall a, d :: AmountOf(Held(l1.bank, a), d) == AmountOf(Held(l2.bank, a), d)
    ensures forall op, d :: AmountOf(Held(l1.outstanding, op), d) == AmountOf(Held(l2.outstanding, op), d)
    ensures forall d :: AmountOf(l1.communityPool, d) == AmountOf(l2.communityPool, d)
  {
    forall op, d ensures AmountOf(Held(l1.outstanding, op), d) == AmountOf(Held(l2.outstanding, op), d) {
      OrderFree(b1.vals, b2.vals, ValidatorSlice(l, b1, d));
    }
    forall d ensures AmountOf(l1.communityPool, d) == AmountOf(l2.communityPool, d) {
      OrderFree(b1.vals, b2.vals, ValidatorSlice(l, b1, d));
    }
  }

  /** When the export visits everyone who is owed something, nothing stays outstanding and
      the community pool owns the whole distribution account. */
  lemma ExportEmptiesRewards(l: Ledger, l': Ledger, operators: seq<Holder>, d: Denom)
    requires ScrapsDonated(l, l', operators) && Solvent(l)
    requires forall op :: op in l.outstanding ==> op in operators
    ensures Total(l'.outstanding, d) == 0
    ensures AmountOf(l'.communityPool, d) == FromInt(AmountOf(Held(l'.bank, DISTRIBUTION), d))
  {
    forall op ensures AmountOf(Held(l'.outstanding, op), d) == AmountOf(Held(map[], op), d) { }
    TotalSame(l'.outstanding, map[], d);
    DonationKeepsSolvency(l, l', operators);
  }
}
