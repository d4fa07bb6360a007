/** The distribution module's BeginBlock (app/distrwrapper) and the scrap donation of the
    zero-height export (app/export.go), over one mutable ledger. */
module Distribution {
  import opened LegacyDec
  import opened Coins
  import opened Allocation
  import opened Wrappers

  const FEE_COLLECTOR: Holder := "fee_collector"
  const POA: Holder := "poa"
  const DISTRIBUTION: Holder := "distribution"

  /** Bank balances in whole coins; rewards owed to validators and the community pool in decimals. */
  datatype Ledger = Ledger(bank: Holdings, outstanding: Holdings, communityPool: DecCoins)

  datatype Error = InsufficientFunds | TransferRefused | FeePoolUnread | ValidatorsUnread | TaxUnread | RewardRejected | FeePoolUnwritten

  /** Which keeper calls fail during one block; a transfer may be refused by the bank although
      the funds are there. */
  datatype Faults = Faults(poaTransfer: bool, shareTransfer: bool, feePoolGet: bool, firstPass: bool, taxGet: bool, secondPass: bool,
                           rejected: set<Holder>, feePoolSet: bool)

  /** What one block's BeginBlock reads from the other keepers. Both passes over the bonded
      validators see the same list. */
  datatype Block = Block(height: int, vals: seq<Validator>, tax: Dec, faults: Faults) {
    /** The community tax is a fraction: the parameter's validation keeps it in [0, 1]. */
    predicate Valid() { tax <= PRECISION }

    /** The error an allocation of the non-zero `fees` ends with. */
    function Failure(fees: Coins): Option<Error> {
      if TransferFails(fees, faults) then Some(TransferRefused)
      else if faults.feePoolGet then Some(FeePoolUnread)
      else if faults.firstPass then Some(ValidatorsUnread)
      else if Bonded(vals) == 0 then
        if faults.feePoolSet then Some(FeePoolUnwritten) else None
      else if faults.taxGet then Some(TaxUnread)
      else if faults.secondPass then Some(ValidatorsUnread)
      else if exists v :: v in vals && v.operator in faults.rejected then Some(RewardRejected)
      else if faults.feePoolSet then Some(FeePoolUnwritten)
      else None
    }
  }

  /** One of the two transfers out of the fee collector is refused; the first is made only if
      POA's share of some denomination is at least one coin. */
  predicate TransferFails(fees: Coins, faults: Faults) {
    (faults.poaTransfer && exists d :: d in fees && PoaShare(fees[d]) > 0) || faults.shareTransfer
  }

  /** POA is due at least one coin of some denomination. */
  ghost predicate PoaIsDue(fees: Coins) { exists d :: d in fees && 15 * fees[d] >= 100 }

  lemma PoaIsDueIff(fees: Coins)
    ensures PoaIsDue(fees) <==> exists d :: d in fees && PoaShare(fees[d]) > 0
  {
    if d :| d in fees && 15 * fees[d] >= 100 {
      assert PoaShare(fees[d]) > 0;
    }
  }

  /** An allocation fails exactly when a keeper call that it makes fails: the POA transfer is
      made only if POA is due something, and the tax, the second pass and the credits only
      matter with tokens bonded. */
  lemma FailsIff(b: Block, fees: Coins)
    ensures var f := b.faults;
            b.Failure(fees).Some? <==>
            || (f.poaTransfer && PoaIsDue(fees)) || f.shareTransfer || f.feePoolGet || f.firstPass || f.feePoolSet
            || (Bonded(b.vals) > 0 &&
                (f.taxGet || f.secondPass || exists v :: v in b.vals && v.operator in f.rejected))
  {
    PoaIsDueIff(fees);
  }

  /** The error is that of the first call to fail, in the order in which the code makes them. */
  lemma FirstErrorIsReported(b: Block, fees: Coins)
    ensures var f, r := b.faults, b.Failure(fees);
            var transfers := (f.poaTransfer && PoaIsDue(fees)) || f.shareTransfer;
            var before := transfers || f.feePoolGet || f.firstPass;
            var bonded := Bonded(b.vals) > 0;
            var rejects := exists v :: v in b.vals && v.operator in f.rejected;
            && (r == Some(TransferRefused) <==> transfers)
            && (r == Some(FeePoolUnread) <==> !transfers && f.feePoolGet)
            && (r == Some(ValidatorsUnread) <==>
                  || (!transfers && !f.feePoolGet && f.firstPass)
                  || (!before && bonded && !f.taxGet && f.secondPass))
            && (r == Some(TaxUnread) <==> !before && bonded && f.taxGet)
            && (r == Some(RewardRejected) <==> !before && bonded && !f.taxGet && !f.secondPass && rejects)
            && (r == Some(FeePoolUnwritten) <==>
                  !before && !(bonded && (f.taxGet || f.secondPass || rejects)) && f.feePoolSet)
            && r != Some(InsufficientFunds)
  {
    PoaIsDueIff(fees);
  }

  /** A block whose BeginBlock returns an error, which is not committed. */
  predicate Rejected(l: Ledger, b: Block) {
    b.height > 1 && !IsZero(Held(l.bank, FEE_COLLECTOR)) && b.Failure(Held(l.bank, FEE_COLLECTOR)).Some?
  }

  function Fees(l: Ledger, d: Denom): nat { AmountOf(Held(l.bank, FEE_COLLECTOR), d) }

  /** The validators' slice of the fees in `d`. */
  function ValidatorSlice(l: Ledger, b: Block, d: Denom): Dec
    requires b.Valid()
  {
    Slice(StakingShare(Fees(l, d)), b.tax)
  }

  // ----- What an allocation means, denomination by denomination -----

  /** The fee collector is emptied into the POA account (15%, rounded down) and the
      distribution account (the rest); no other balance changes. */
  ghost predicate FeesSwept(bank: Holdings, bank': Holdings) {
    forall a, d :: AmountOf(Held(bank', a), d) == BalanceAfterSweep(bank, a, d)
  }

  function BalanceAfterSweep(bank: Holdings, a: Holder, d: Denom): nat {
    var fees := AmountOf(Held(bank, FEE_COLLECTOR), d);
    AfterTransfers(bank, a, PoaShare(fees), StakingShare(fees), d)
  }

  /** Every operator is owed its rewards on top of what it was owed before. */
  ghost predicate Rewarded(l: Ledger, l': Ledger, b: Block)
    requires b.Valid()
  {
    forall op, d :: AmountOf(Held(l'.outstanding, op), d) ==
      AmountOf(Held(l.outstanding, op), d) + PaidTo(op, b.vals, ValidatorSlice(l, b, d), Bonded(b.vals))
  }

  /** The community pool takes all of the staking share that no validator got. */
  ghost predicate PoolGrown(l: Ledger, l': Ledger, b: Block)
    requires b.Valid()
  {
    forall d :: AmountOf(l'.communityPool, d) ==
      AmountOf(l.communityPool, d) + FromInt(StakingShare(Fees(l, d)))
      - Paid(b.vals, ValidatorSlice(l, b, d), Bonded(b.vals))
  }

  ghost predicate Allocated(l: Ledger, l': Ledger, b: Block)
    requires b.Valid()
  {
    FeesSwept(l.bank, l'.bank) && Rewarded(l, l', b) && PoolGrown(l, l', b)
  }

  /** A block's effect: nothing up to height 1, an allocation afterwards. */
  ghost predicate BlockDone(l: Ledger, l': Ledger, b: Block)
    requires b.Valid()
  {
    if b.height > 1 then Allocated(l, l', b) else l' == l
  }

  // ----- The arithmetic of the code meets the arithmetic of the specification -----

  /** The POA share as the code computes it. */
  method PoaCoins(fees: Coins) returns (r: Coins)
    ensures forall d :: AmountOf(r, d) == PoaShare(AmountOf(fees, d))
  {
    r := TruncateDecimal(MulDecTruncate(FromCoins(fees), POA_FRACTION));
    forall d ensures AmountOf(r, d) == PoaShare(AmountOf(fees, d)) {
      PoaShareExact(AmountOf(fees, d));
    }
  }

  /** `r` is what a validator with `tokens` out of `bonded` earns of the staking share. */
  ghost predicate IsReward(r: DecCoins, share: Coins, tax: Dec, tokens: nat, bonded: nat)
    requires tax <= PRECISION
  {
    forall d :: AmountOf(r, d) == Reward(Slice(AmountOf(share, d), tax), tokens, bonded)
  }

  /** One validator's reward as the code computes it. */
  method RewardCoins(share: Coins, tax: Dec, tokens: nat, bonded: nat) returns (r: DecCoins)
    requires tax <= PRECISION && bonded > 0
    ensures IsReward(r, share, tax, tokens, bonded)
  {
    WholeQuotient(tokens, bonded);
    var powerFraction := QuoTruncate(FromInt(tokens), FromInt(bonded));
    r := MulDecTruncate(MulDecTruncate(FromCoins(share), FromInt(1) - tax), powerFraction);
    forall d ensures AmountOf(r, d) == Reward(Slice(AmountOf(share, d), tax), tokens, bonded) {
      WholeProduct(AmountOf(share, d), FromInt(1) - tax);
    }
  }

  // ----- The second pass over the validators, as a relation on its variables -----

  ghost predicate RemainingAfter(share: Coins, remaining: DecCoins, vals: seq<Validator>, tax: Dec, bonded: nat)
    requires tax <= PRECISION
  {
    forall d :: AmountOf(remaining, d) ==
      FromInt(AmountOf(share, d)) - Paid(vals, Slice(AmountOf(share, d), tax), bonded)
  }

  ghost predicate OwedAfter(share: Coins, owed: Holdings, owed': Holdings, vals: seq<Validator>, tax: Dec, bonded: nat)
    requires tax <= PRECISION
  {
    forall op, d :: AmountOf(Held(owed', op), d) ==
      AmountOf(Held(owed, op), d) + PaidTo(op, vals, Slice(AmountOf(share, d), tax), bonded)
  }

  /** `remaining` always covers the next reward, so the subtraction does not panic. */
  lemma RemainingCovers(share: Coins, remaining: DecCoins, reward: DecCoins, vals: seq<Validator>, i: nat, tax: Dec)
    requires tax <= PRECISION && i < |vals| && IsReward(reward, share, tax, vals[i].tokens, Bonded(vals))
    requires RemainingAfter(share, remaining, vals[..i], tax, Bonded(vals))
    ensures Covers(remaining, reward)
  {
    forall d ensures AmountOf(reward, d) <= AmountOf(remaining, d) {
      var amount := AmountOf(share, d);
      var slice := Slice(amount, tax);
      assert vals[..i + 1][..i] == vals[..i];
      PrefixPaidWithin(vals, i + 1, slice, Bonded(vals));
      PaidWithinSlice(vals, slice);
      MulMonotone(PRECISION - tax, PRECISION, amount);
    }
  }

  lemma RemainingStep(share: Coins, remaining: DecCoins, reward: DecCoins, vals: seq<Validator>, i: nat, tax: Dec, bonded: nat)
    requires tax <= PRECISION && i < |vals| && IsReward(reward, share, tax, vals[i].tokens, bonded)
    requires RemainingAfter(share, remaining, vals[..i], tax, bonded) && Covers(remaining, reward)
    ensures RemainingAfter(share, Sub(remaining, reward), vals[..i + 1], tax, bonded)
  {
    assert vals[..i + 1][..i] == vals[..i];
  }

  /** AllocateTokensToValidator, as far as what is owed goes. */
  function Credited(owed: Holdings, op: Holder, reward: DecCoins): Holdings {
    Put(owed, op, Add(Held(owed, op), reward))
  }

  lemma OwedStep(share: Coins, owed: Holdings, owed': Holdings, reward: DecCoins, vals: seq<Validator>, i: nat, tax: Dec, bonded: nat)
    requires tax <= PRECISION && i < |vals| && IsReward(reward, share, tax, vals[i].tokens, bonded)
    requires OwedAfter(share, owed, owed', vals[..i], tax, bonded)
    ensures OwedAfter(share, owed, Credited(owed', vals[i].operator, reward), vals[..i + 1], tax, bonded)
  {
    assert vals[..i + 1][..i] == vals[..i];
  }

  /** After `i` validators: who is owed what, and what remains. */
  ghost predicate PassedOver(i: nat, share: Coins, owed: Holdings, owed': Holdings, remaining: DecCoins, b: Block)
    requires b.Valid() && i <= |b.vals|
  {
    && RemainingAfter(share, remaining, b.vals[..i], b.tax, Bonded(b.vals))
    && OwedAfter(share, owed, owed', b.vals[..i], b.tax, Bonded(b.vals))
  }

  /** The pass stopped at the first validator whose credit is rejected, and all before it were
      credited. */
  ghost predicate CreditedBeforeRejection(share: Coins, owed: Holdings, owed': Holdings, b: Block)
    requires b.Valid()
  {
    exists i :: 0 <= i < |b.vals| && b.vals[i].operator in b.faults.rejected
                && (forall j :: 0 <= j < i ==> b.vals[j].operator !in b.faults.rejected)
                && OwedAfter(share, owed, owed', b.vals[..i], b.tax, Bonded(b.vals))
  }

  lemma PassStarts(share: Coins, owed: Holdings, b: Block)
    requires b.Valid()
    ensures PassedOver(0, share, owed, owed, FromCoins(share), b)
  {
    forall op, d ensures PaidTo(op, [], Slice(AmountOf(share, d), b.tax), Bonded(b.vals)) == 0 { }
  }

  lemma PassStep(i: nat, share: Coins, owed: Holdings, owed': Holdings, remaining: DecCoins, reward: DecCoins, b: Block)
    requires b.Valid() && i < |b.vals| && PassedOver(i, share, owed, owed', remaining, b)
    requires IsReward(reward, share, b.tax, b.vals[i].tokens, Bonded(b.vals))
    ensures Covers(remaining, reward)
    ensures PassedOver(i + 1, share, owed, Credited(owed', b.vals[i].operator, reward), Sub(remaining, reward), b)
  {
    RemainingCovers(share, remaining, reward, b.vals, i, b.tax);
    RemainingStep(share, remaining, reward, b.vals, i, b.tax, Bonded(b.vals));
    OwedStep(share, owed, owed', reward, b.vals, i, b.tax, Bonded(b.vals));
  }

  // ----- The sweep -----

  lemma PoaShareIsZeroIff(fees: Coins, poaShare: Coins)
    requires forall d :: AmountOf(poaShare, d) == PoaShare(AmountOf(fees, d))
    ensures IsZero(poaShare) <==> !exists d :: d in fees && PoaShare(fees[d]) > 0
  {
    if d :| d in fees && PoaShare(fees[d]) > 0 {
      assert AmountOf(poaShare, d) > 0;
    } else {
      forall d | d in poaShare ensures poaShare[d] == 0 {
        assert AmountOf(poaShare, d) == PoaShare(AmountOf(fees, d));
        assert d in fees ==> !(PoaShare(fees[d]) > 0);
      }
    }
  }

  /** With fees to share there is always something left for the stakers. */
  lemma ShareIsNonZero(fees: Coins, share: Coins)
    requires !IsZero(fees)
    requires forall d :: AmountOf(share, d) == StakingShare(AmountOf(fees, d))
    ensures !IsZero(share)
  {
    var d :| d in fees && fees[d] != 0;
    assert AmountOf(share, d) == StakingShare(AmountOf(fees, d));
  }

  /** The POA transfer, which is made only when it is not empty. */
  ghost predicate PoaPaid(bank: Holdings, bank1: Holdings, poaShare: Coins) {
    forall a, d :: AmountOf(Held(bank1, a), d) ==
      if a == FEE_COLLECTOR then AmountOf(Held(bank, a), d) - AmountOf(poaShare, d)
      else if a == POA then AmountOf(Held(bank, a), d) + AmountOf(poaShare, d)
      else AmountOf(Held(bank, a), d)
  }

  lemma PayPoa(bank: Holdings, bank1: Holdings, poaShare: Coins)
    requires Covers(Held(bank, FEE_COLLECTOR), poaShare)
    requires bank1 == if IsZero(poaShare) then bank else Move(bank, FEE_COLLECTOR, POA, poaShare)
    ensures PoaPaid(bank, bank1, poaShare)
  {
    if IsZero(poaShare) {
      forall d ensures AmountOf(poaShare, d) == 0 { }
    } else {
      forall a, d { MoveAmount(bank, FEE_COLLECTOR, POA, poaShare, a, d); }
    }
  }

  /** What the fee collector then holds is the staking share; moving it completes the sweep. */
  lemma PayShare(bank: Holdings, bank1: Holdings, poaShare: Coins, share: Coins)
    requires PoaPaid(bank, bank1, poaShare)
    requires forall d :: AmountOf(poaShare, d) == PoaShare(AmountOf(Held(bank, FEE_COLLECTOR), d))
    requires forall d :: AmountOf(share, d) == AmountOf(Held(bank, FEE_COLLECTOR), d) - AmountOf(poaShare, d)
    ensures Covers(Held(bank1, FEE_COLLECTOR), share)
    ensures FeesSwept(bank, Move(bank1, FEE_COLLECTOR, DISTRIBUTION, share))
  {
    assert Covers(Held(bank1, FEE_COLLECTOR), share);
    var bank2 := Move(bank1, FEE_COLLECTOR, DISTRIBUTION, share);
    forall a, d ensures AmountOf(Held(bank2, a), d) == BalanceAfterSweep(bank, a, d) {
      MoveAmount(bank1, FEE_COLLECTOR, DISTRIBUTION, share, a, d);
      DistinctAccounts();
    }
  }

  lemma DistinctAccounts()
    ensures FEE_COLLECTOR != POA && POA != DISTRIBUTION && DISTRIBUTION != FEE_COLLECTOR
  {
    assert |FEE_COLLECTOR| == 13 && |POA| == 3 && |DISTRIBUTION| == 12;
  }

  /** A balance once the fee collector is empty, POA got `poa` and distribution got `share`. */
  function AfterTransfers(bank: Holdings, a: Holder, poa: nat, share: nat, d: Denom): nat {
    if a == FEE_COLLECTOR then 0
    else AmountOf(Held(bank, a), d) + if a == POA then poa else if a == DISTRIBUTION then share else 0
  }

  class Module {
    var bank: Holdings
    var outstanding: Holdings
    var communityPool: DecCoins

    ghost function Abs(): Ledger
      reads this
    {
      Ledger(bank, outstanding, communityPool)
    }

    /** Moves coins between module accounts; fails, changing nothing, when the bank refuses the
        transfer or the sender is short. */
    method SendCoinsFromModuleToModule(from: Holder, to: Holder, coins: Coins, refused: bool) returns (err: Option<Error>)
      requires from != to
      modifies this`bank
      ensures err == if refused then Some(TransferRefused)
                     else if Covers(old(Held(bank, from)), coins) then None
                     else Some(InsufficientFunds)
      ensures err.Some? ==> bank == old(bank)
      ensures err.None? ==> bank == Move(old(bank), from, to, coins)
    {
      if refused {
        err := Some(TransferRefused);
      } else if IsAllGTE(Held(bank, from), coins) {
        bank := Move(bank, from, to, coins);
        err := None;
      } else {
        err := Some(InsufficientFunds);
      }
    }

    /** Empties the fee collector into the POA and distribution accounts (steps 1 and 2 of
        the allocation). Neither transfer fails for lack of funds. */
    method SweepFees(fees: Coins, faults: Faults) returns (err: Option<Error>, share: Coins)
      requires fees == Held(bank, FEE_COLLECTOR) && !IsZero(fees)
      modifies this`bank
      ensures err == if TransferFails(fees, faults) then Some(TransferRefused) else None
      ensures err.None? ==> FeesSwept(old(bank), bank) && !IsZero(share)
      ensures err.None? ==> forall d :: AmountOf(share, d) == StakingShare(AmountOf(fees, d))
    {
      share := NONE;
      var poaShare := PoaCoins(fees);
      PoaShareIsZeroIff(fees, poaShare);
      if !IsZero(poaShare) {
        err := SendCoinsFromModuleToModule(FEE_COLLECTOR, POA, poaShare, faults.poaTransfer);
        if err.Some? { return; }
      }
      share := Sub(fees, poaShare);
      if IsZero(share) {
        // the code would return here, leaving the share where it is
        ShareIsNonZero(fees, share);
        assert false;
      }
      PayPoa(old(bank), bank, poaShare);
      PayShare(old(bank), bank, poaShare, share);
      err := SendCoinsFromModuleToModule(FEE_COLLECTOR, DISTRIBUTION, share, faults.shareTransfer);
    }

    method TotalBondedTokens(vals: seq<Validator>) returns (total: nat)
      ensures total == Bonded(vals)
    {
      total := 0;
      for i := 0 to |vals|
        invariant total == Bonded(vals[..i])
      {
        assert vals[..i + 1][..i] == vals[..i];
        total := total + vals[i].tokens;
      }
      assert vals[..|vals|] == vals;
    }

    /** One step of the second pass; `owed` is what was owed when the pass began. */
    method RewardValidator(i: nat, share: Coins, before: DecCoins, b: Block, bonded: nat, ghost owed: Holdings)
      returns (remaining: DecCoins)
      requires b.Valid() && i < |b.vals| && bonded == Bonded(b.vals) && bonded > 0
      requires PassedOver(i, share, owed, outstanding, before, b)
      modifies this`outstanding
      ensures PassedOver(i + 1, share, owed, outstanding, remaining, b)
    {
      var reward := RewardCoins(share, b.tax, b.vals[i].tokens, bonded);
      PassStep(i, share, owed, outstanding, before, reward, b);
      outstanding := Credited(outstanding, b.vals[i].operator, reward);
      remaining := Sub(before, reward);
    }

    /** The second pass: credits every validator and reports what is left of the share. */
    method RewardValidators(share: Coins, b: Block, bonded: nat) returns (err: Option<Error>, remaining: DecCoins)
      requires b.Valid() && bonded == Bonded(b.vals) && bonded > 0
      modifies this`outstanding
      ensures err.Some? <==> exists v :: v in b.vals && v.operator in b.faults.rejected
      ensures err.Some? ==> err == Some(RewardRejected) && CreditedBeforeRejection(share, old(outstanding), outstanding, b)
      ensures err.None? ==> RemainingAfter(share, remaining, b.vals, b.tax, bonded)
      ensures err.None? ==> OwedAfter(share, old(outstanding), outstanding, b.vals, b.tax, bonded)
    {
      remaining := FromCoins(share);
      err := None;
      PassStarts(share, outstanding, b);
      var i := 0;
      while i < |b.vals|
        invariant 0 <= i <= |b.vals|
        invariant forall j :: 0 <= j < i ==> b.vals[j].operator !in b.faults.rejected
        invariant PassedOver(i, share, old(outstanding), outstanding, remaining, b)
      {
        if b.vals[i].operator in b.faults.rejected {
          assert b.vals[i] in b.vals;
          err := Some(RewardRejected);
          return;
        }
        remaining := RewardValidator(i, share, remaining, b, bonded, old(outstanding));
        i := i + 1;
      }
      assert b.vals[..i] == b.vals;
    }

    method AllocateTokens(b: Block) returns (err: Option<Error>)
      requires b.Valid()
      modifies this
      ensures err == if IsZero(old(Held(bank, FEE_COLLECTOR))) then None else b.Failure(old(Held(bank, FEE_COLLECTOR)))
      ensures err.Some? ==> communityPool == old(communityPool)
      ensures err.None? ==> Allocated(old(Abs()), Abs(), b)
    {
      var fees := Held(bank, FEE_COLLECTOR);
      if IsZero(fees) {
        NoFees(Abs(), b);
        return None;
      }
      var share;
      err, share := SweepFees(fees, b.faults);
      if err.Some? { return; }
      if b.faults.feePoolGet { return Some(FeePoolUnread); }
      var pool := communityPool;
      if b.faults.firstPass { return Some(ValidatorsUnread); }
      var bonded := TotalBondedTokens(b.vals);
      if bonded == 0 {
        if b.faults.feePoolSet { return Some(FeePoolUnwritten); }
        communityPool := Add(pool, FromCoins(share));
        NothingToReward(old(Abs()), Abs(), b);
        return None;
      }
      if b.faults.taxGet { return Some(TaxUnread); }
      if b.faults.secondPass { return Some(ValidatorsUnread); }
      var remaining;
      err, remaining := RewardValidators(share, b, bonded);
      if err.Some? { return; }
      if b.faults.feePoolSet { return Some(FeePoolUnwritten); }
      communityPool := Add(pool, remaining);
    }

    method BeginBlock(b: Block) returns (err: Option<Error>)
      requires b.Valid()
      modifies this
      ensures err == if b.height > 1 && !IsZero(old(Held(bank, FEE_COLLECTOR))) then b.Failure(old(Held(bank, FEE_COLLECTOR))) else None
      ensures err.Some? <==> Rejected(old(Abs()), b)
      ensures err.None? ==> BlockDone(old(Abs()), Abs(), b)
    {
      if b.height > 1 {
        err := AllocateTokens(b);
      } else {
        err := None;
      }
    }

    /** The export pass: each validator's outstanding rewards go to the community pool, and
        the creation hook then resets the validator's rewards. */
    method DonateScraps(operators: seq<Holder>)
      modifies this`outstanding, this`communityPool
      ensures ScrapsDonated(old(Abs()), Abs(), operators)
    {
      for i := 0 to |operators|
        invariant ScrapsDonated(old(Abs()), Abs(), operators[..i])
      {
        ghost var before := Abs();
        var op := operators[i];
        var scraps := Held(outstanding, op);
        communityPool := Add(communityPool, scraps);
        outstanding := Put(outstanding, op, NONE);
        ClearStep(old(outstanding), before.outstanding, operators, i);
        DonationKeepsSum(before, op);
      }
      assert operators[..|operators|] == operators;
    }
  }

  lemma NoFees(l: Ledger, b: Block)
    requires b.Valid() && IsZero(Held(l.bank, FEE_COLLECTOR))
    ensures Allocated(l, l, b)
  {
    NoFeesToSweep(l.bank);
    NoFeesToPay(l, b);
  }

  lemma NoFeesToSweep(bank: Holdings)
    requires IsZero(Held(bank, FEE_COLLECTOR))
    ensures FeesSwept(bank, bank)
    ensures forall d :: AmountOf(Held(bank, FEE_COLLECTOR), d) == 0
  {
  }

  lemma NoFeesToPay(l: Ledger, b: Block)
    requires b.Valid() && forall d :: Fees(l, d) == 0
    ensures Rewarded(l, l, b) && PoolGrown(l, l, b)
  {
    forall op, d ensures PaidTo(op, b.vals, ValidatorSlice(l, b, d), Bonded(b.vals)) == 0 {
      assert ValidatorSlice(l, b, d) == 0;
      NothingShared(op, b.vals, Bonded(b.vals));
    }
    forall d ensures Paid(b.vals, ValidatorSlice(l, b, d), Bonded(b.vals)) == 0 {
      assert ValidatorSlice(l, b, d) == 0;
      PaidWithinSlice(b.vals, 0);
    }
  }

  lemma {:induction false} NothingShared(op: Holder, vals: seq<Validator>, bonded: nat)
    ensures PaidTo(op, vals, 0, bonded) == 0
  {
    if vals != [] {
      NothingShared(op, vals[..|vals| - 1], bonded);
    }
  }

  lemma NothingToReward(l: Ledger, l': Ledger, b: Block)
    requires b.Valid() && Bonded(b.vals) == 0
    requires l'.outstanding == l.outstanding
    ensures Rewarded(l, l', b)
    ensures forall d :: Paid(b.vals, ValidatorSlice(l, b, d), Bonded(b.vals)) == 0
  {
    forall d ensures Paid(b.vals, ValidatorSlice(l, b, d), Bonded(b.vals)) == 0 {
      NothingBonded(b.vals, ValidatorSlice(l, b, d));
    }
    forall op, d ensures PaidTo(op, b.vals, ValidatorSlice(l, b, d), Bonded(b.vals)) == 0 {
      NothingBonded(b.vals, ValidatorSlice(l, b, d));
    }
  }

  // ----- The scrap donation -----

  /** The listed operators end with nothing outstanding, the others keep theirs, the bank is
      untouched, and pool plus outstanding rewards is what it was. */
  ghost predicate ScrapsDonated(l: Ledger, l': Ledger, operators: seq<Holder>) {
    l'.bank == l.bank && RewardsCleared(l.outstanding, l'.outstanding, operators) && PoolAndRewardsKept(l, l')
  }

  ghost predicate RewardsCleared(owed: Holdings, owed': Holdings, operators: seq<Holder>) {
    forall op :: Held(owed', op) == if op in operators then NONE else Held(owed, op)
  }

  ghost predicate PoolAndRewardsKept(l: Ledger, l': Ledger) {
    forall d :: PoolAndRewards(l', d) == PoolAndRewards(l, d)
  }

  ghost function PoolAndRewards(l: Ledger, d: Denom): Dec {
    AmountOf(l.communityPool, d) + Total(l.outstanding, d)
  }

  lemma ClearStep(owed: Holdings, owed1: Holdings, operators: seq<Holder>, i: nat)
    requires i < |operators| && RewardsCleared(owed, owed1, operators[..i])
    ensures RewardsCleared(owed, Put(owed1, operators[i], NONE), operators[..i + 1])
  {
    assert operators[..i + 1] == operators[..i] + [operators[i]];
  }

  lemma DonationKeepsSum(l: Ledger, op: Holder)
    ensures PoolAndRewardsKept(l, Ledger(l.bank, Put(l.outstanding, op, NONE), Add(l.communityPool, Held(l.outstanding, op))))
  {
    forall d { TotalUpdate(l.outstanding, op, NONE, d); }
  }
}
