/** The vesting account that holds airdrop grants (x/claim/vesting): each grant vests on its
    own line, and new grants are added while old ones run. */
module VestingAccount {
  import opened Wrappers
  import opened LegacyDec
  import opened Coins
  import opened Vesting

  datatype Period = Period(start: int64, length: int64, amount: seq<Coin>) {
    function End(): int64 { Add64(start, length) }

    function Grant(d: Denom): nat { AmountOf(FromList(amount), d) }

    /** What this grant has vested of `d`. */
    function VestedOf(t: int64, d: Denom): nat { VestedAt(t, start, length, Grant(d)) }

    /** A grant whose times are not negative and whose end fits 64 bits; it may have length
        zero, as the grants of free claims have. */
    predicate Plain() { start >= 0 && length >= 0 && start + length <= MAX_INT64 }
  }

  datatype Account = Account(periods: seq<Period>, endTime: int64, original: Coins)

  function Max64(i: int64, j: int64): int64 { if i > j then i else j }

  // ----- Sums over the grants -----

  function Granted(ps: seq<Period>, d: Denom): nat {
    if ps == [] then 0 else Granted(ps[..|ps| - 1], d) + ps[|ps| - 1].Grant(d)
  }

  function GrantsVested(ps: seq<Period>, t: int64, d: Denom): nat {
    if ps == [] then 0 else GrantsVested(ps[..|ps| - 1], t, d) + ps[|ps| - 1].VestedOf(t, d)
  }

  function LatestEnd(ps: seq<Period>): int64 {
    if ps == [] then 0 else Max64(LatestEnd(ps[..|ps| - 1]), ps[|ps| - 1].End())
  }

  /** What the account says has vested: nothing up to the start of its first grant,
      everything from its end time on. */
  function VestedOf(a: Account, t: int64, d: Denom): nat {
    if a.periods == [] then 0
    else if t <= a.periods[0].start then 0
    else if t >= a.endTime then AmountOf(a.original, d)
    else GrantsVested(a.periods, t, d)
  }

  /** The account's total is the sum of its grants. */
  ghost predicate Funded(a: Account) {
    forall d :: AmountOf(a.original, d) == Granted(a.periods, d)
  }

  ghost predicate WellBuilt(a: Account) { Funded(a) && a.endTime == LatestEnd(a.periods) }

  // ----- The code -----

  /** Vesting runs at `t`: neither guard of GetVestedCoins applies. */
  predicate Running(a: Account, t: int64) {
    a.periods != [] && a.periods[0].start < t < a.endTime
  }

  /** A grant whose amount does not fit 64 bits is being converted. */
  predicate Overflows(p: Period, t: int64) {
    InProgress(t, p.start, p.length) && exists c :: c in p.amount && c.amount > MAX_INT64
  }

  predicate ConversionPanics(a: Account, t: int64) {
    Running(a, t) && exists p :: p in a.periods && Overflows(p, t)
  }

  lemma OneMoreGrant(ps: seq<Period>, i: nat, t: int64, sum: Coins, vested: Coins)
    requires i < |ps| && forall d :: AmountOf(sum, d) == GrantsVested(ps[..i], t, d)
    requires forall d :: AmountOf(vested, d) == ps[i].VestedOf(t, d)
    ensures forall d :: AmountOf(Add(sum, vested), d) == GrantsVested(ps[..i + 1], t, d)
  {
    assert ps[..i + 1][..i] == ps[..i];
    forall d ensures AmountOf(Add(sum, vested), d) == GrantsVested(ps[..i + 1], t, d) {
      assert AmountOf(sum, d) == GrantsVested(ps[..i], t, d);
    }
  }

  class StridePeriodicVestingAccount {
    var periods: seq<Period>
    /** Whether the base account, which holds the next two fields, is there at all. */
    var hasBase: bool
    var endTime: int64
    var original: Coins

    ghost function Abs(): Account
      reads this
    {
      Account(periods, endTime, original)
    }

    /** Without periods the code makes an account that has no base account. */
    constructor (original: Coins, periods: seq<Period>)
      ensures hasBase <==> periods != []
      ensures forall i :: 0 <= i < |periods| ==> periods[i].End() <= endTime
      ensures endTime == 0 || exists i :: 0 <= i < |periods| && periods[i].End() == endTime
      ensures Abs() == if periods == [] then Account([], 0, NONE) else Account(periods, LatestEnd(periods), original)
    {
      this.periods, this.hasBase, this.endTime := periods, periods != [], 0;
      this.original := if periods == [] then NONE else original;
      new;
      for i := 0 to |periods|
        invariant this.periods == periods && endTime == LatestEnd(periods[..i])
        invariant hasBase <==> periods != []
        invariant this.original == if periods == [] then NONE else original
      {
        assert periods[..i + 1][..i] == periods[..i];
        endTime := Max64(endTime, periods[i].End());
      }
      assert periods[..|periods|] == periods;
      forall i | 0 <= i < |periods| ensures periods[i].End() <= endTime {
        LatestEndBounds(periods, i);
      }
      LatestEndAttained(periods);
    }

    /** Adds a grant; panics exactly when there is no base account. */
    method AddNewGrant(p: Period) returns (panicked: bool)
      modifies this
      ensures panicked <==> !old(hasBase)
      ensures hasBase == old(hasBase) && periods == old(periods) + [p]
      ensures !panicked ==> Abs() == WithGrant(old(Abs()), p)
      ensures !panicked ==> endTime >= old(endTime) && endTime >= p.End() && endTime in {old(endTime), p.End()}
      ensures !panicked ==> forall d :: AmountOf(original, d) == AmountOf(old(original), d) + p.Grant(d)
    {
      periods := periods + [p];
      if !hasBase {
        return true;
      }
      endTime := Max64(endTime, p.End());
      original := Add(original, FromList(p.amount));
      panicked := false;
    }

    /** The vested coins; None when the code panics: on a missing base account, once the first
        period has started, or on converting an amount. */
    method GetVestedCoins(t: int64) returns (r: Option<Coins>)
      ensures r.None? <==> if hasBase then ConversionPanics(Abs(), t) else periods != [] && t > periods[0].start
      ensures r.Some? ==> forall d :: AmountOf(r.value, d) == VestedOf(Abs(), t, d)
    {
      var vestedCoins: Coins := NONE;
      if |periods| == 0 {
        return Some(vestedCoins);
      } else if t <= periods[0].start {
        return Some(vestedCoins);
      } else if !hasBase {
        return None;
      } else if t >= endTime {
        return Some(original);
      }
      for i := 0 to |periods|
        invariant forall p :: p in periods[..i] ==> !Overflows(p, t)
        invariant forall d :: AmountOf(vestedCoins, d) == GrantsVested(periods[..i], t, d)
      {
        var p := periods[i];
        var vested := GetVestedCoinsAt(t, p.start, p.length, p.amount);
        if vested.Panicked? {
          assert p in periods && Overflows(p, t);
          return None;
        }
        OneMoreGrant(periods, i, t, vestedCoins, FromList(vested.coins));
        vestedCoins := Add(vestedCoins, FromList(vested.coins));
      }
      assert periods[..|periods|] == periods;
      r := Some(vestedCoins);
    }

    /** The coins still vesting; None when the code panics: on a missing base account, on a
        conversion, or when more has vested than the total. */
    method GetVestingCoins(t: int64) returns (r: Option<Coins>)
      ensures r.None? <==> !hasBase || ConversionPanics(Abs(), t) ||
                           exists d :: VestedOf(Abs(), t, d) > AmountOf(original, d)
      ensures r.Some? ==> forall d :: AmountOf(r.value, d) == AmountOf(original, d) - VestedOf(Abs(), t, d)
    {
      if !hasBase {
        return None;
      }
      var vested := GetVestedCoins(t);
      if vested.None? {
        return None;
      }
      assert Covers(original, vested.value) <==> forall d :: VestedOf(Abs(), t, d) <= AmountOf(original, d);
      if !IsAllGTE(original, vested.value) {
        return None;
      }
      r := Some(Sub(original, vested.value));
    }
  }

  // ----- Building an account -----

  function WithGrant(a: Account, p: Period): Account {
    Account(a.periods + [p], Max64(a.endTime, p.End()), Add(a.original, FromList(p.amount)))
  }

  function WithGrants(a: Account, ps: seq<Period>): Account {
    if ps == [] then a else WithGrant(WithGrants(a, ps[..|ps| - 1]), ps[|ps| - 1])
  }

  lemma GrantKeepsAccountWellBuilt(a: Account, p: Period)
    requires WellBuilt(a)
    ensures WellBuilt(WithGrant(a, p))
  {
    assert (a.periods + [p])[..|a.periods|] == a.periods;
    forall d ensures AmountOf(WithGrant(a, p).original, d) == Granted(a.periods + [p], d) {
      assert AmountOf(a.original, d) == Granted(a.periods, d);
    }
  }

  /** Every account that starts funded and grows by grants stays well built. */
  lemma {:induction false} GrantsKeepAccountWellBuilt(a: Account, ps: seq<Period>)
    requires WellBuilt(a)
    ensures WellBuilt(WithGrants(a, ps))
    ensures WithGrants(a, ps).periods == a.periods + ps
  {
    if ps != [] {
      var init := ps[..|ps| - 1];
      GrantsKeepAccountWellBuilt(a, init);
      GrantKeepsAccountWellBuilt(WithGrants(a, init), ps[|ps| - 1]);
      assert ps == init + [ps[|ps| - 1]];
    }
  }

  // ----- Bounds and monotonicity -----

  lemma {:induction false} GrantsVestedFacts(ps: seq<Period>, t: int64, t': int64, d: Denom)
    requires t <= t'
    ensures GrantsVested(ps, t, d) <= GrantsVested(ps, t', d) <= Granted(ps, d)
  {
    if ps != [] {
      var p := ps[|ps| - 1];
      GrantsVestedFacts(ps[..|ps| - 1], t, t', d);
      VestedMonotone(t, t', p.start, p.length, p.Grant(d));
      VestedWithinGrant(t', p.start, p.length, p.Grant(d));
    }
  }

  /** No funded account vests more than its total, at any time and for any grants. */
  lemma VestedWithinOriginal(a: Account, t: int64, d: Denom)
    requires Funded(a)
    ensures VestedOf(a, t, d) <= AmountOf(a.original, d)
  {
    GrantsVestedFacts(a.periods, t, t, d);
    assert AmountOf(a.original, d) == Granted(a.periods, d);
  }

  /** What an account has vested never shrinks as time passes, across both of its guards. */
  lemma AccountVestsMonotonically(a: Account, t: int64, t': int64, d: Denom)
    requires Funded(a) && t <= t'
    ensures VestedOf(a, t, d) <= VestedOf(a, t', d)
  {
    GrantsVestedFacts(a.periods, t, t', d);
    VestedWithinOriginal(a, t, d);
  }

  // ----- When the account agrees with the sum of its grants -----

  ghost predicate AgreesAt(a: Account, t: int64) {
    forall d :: VestedOf(a, t, d) == GrantsVested(a.periods, t, d)
  }

  /** The first time at which the account counts as fully vested. */
  function FullTime(a: Account): int64
    requires a.periods != [] && a.periods[0].start < MAX_INT64
  {
    Max64(a.endTime, a.periods[0].start + 1)
  }

  /** At `first` the grant has vested nothing of its amount `m`: it has not started, or it
      is so early in it that the amount rounds to zero. */
  predicate NothingYet(p: Period, first: int64, m: nat) {
    m == 0 || !Started(first, p.start, p.length) ||
    (InProgress(first, p.start, p.length) && 2 * (m * Portion(first - p.start, p.length)) <= PRECISION)
  }

  /** A grant with an amount runs from a time before `full`, and not backwards. */
  predicate StartsBefore(p: Period, full: int64, m: nat) {
    m == 0 || (0 <= p.start < full && 0 <= p.length)
  }

  /** The condition on the grants under which the guards are harmless. */
  ghost predicate GrantsInOrder(a: Account) {
    a.periods != [] ==>
      var first := a.periods[0].start;
      && (forall i, d :: 0 <= i < |a.periods| ==> NothingYet(a.periods[i], first, a.periods[i].Grant(d)))
      && (first < MAX_INT64 ==>
            forall i, d :: 0 <= i < |a.periods| ==> StartsBefore(a.periods[i], FullTime(a), a.periods[i].Grant(d)))
  }

  lemma RoundsToZero(x: nat)
    ensures ChopRound(x) == 0 <==> 2 * x <= PRECISION
  {
  }

  lemma NothingYetIff(p: Period, first: int64, d: Denom)
    ensures p.VestedOf(first, d) == 0 <==> NothingYet(p, first, p.Grant(d))
  {
    var m := p.Grant(d);
    if InProgress(first, p.start, p.length) {
      RoundsToZero(m * Portion(first - p.start, p.length));
    }
  }

  lemma StartsBeforeIff(p: Period, full: int64, d: Denom)
    requires full >= 0 && full >= p.End()
    ensures p.VestedOf(full, d) == p.Grant(d) <==> StartsBefore(p, full, p.Grant(d))
  {
  }

  lemma {:induction false} NothingVestedIff(ps: seq<Period>, t: int64, d: Denom)
    ensures GrantsVested(ps, t, d) == 0 <==> forall i :: 0 <= i < |ps| ==> ps[i].VestedOf(t, d) == 0
  {
    if ps != [] {
      NothingVestedIff(ps[..|ps| - 1], t, d);
    }
  }

  lemma {:induction false} AllVestedIff(ps: seq<Period>, t: int64, d: Denom)
    ensures GrantsVested(ps, t, d) == Granted(ps, d) <==> forall i :: 0 <= i < |ps| ==> ps[i].VestedOf(t, d) == ps[i].Grant(d)
  {
    if ps != [] {
      var init, p := ps[..|ps| - 1], ps[|ps| - 1];
      AllVestedIff(init, t, d);
      GrantsVestedFacts(init, t, t, d);
      VestedWithinGrant(t, p.start, p.length, p.Grant(d));
    }
  }

  lemma {:induction false} LatestEndBounds(ps: seq<Period>, i: nat)
    ensures LatestEnd(ps) >= 0
    ensures i < |ps| ==> ps[i].End() <= LatestEnd(ps)
  {
    if ps != [] {
      LatestEndBounds(ps[..|ps| - 1], i);
    }
  }

  lemma {:induction false} LatestEndAttained(ps: seq<Period>)
    ensures LatestEnd(ps) == 0 || exists i :: 0 <= i < |ps| && ps[i].End() == LatestEnd(ps)
  {
    if ps != [] {
      var init := ps[..|ps| - 1];
      LatestEndAttained(init);
      if LatestEnd(ps) == ps[|ps| - 1].End() {
      } else if i :| 0 <= i < |init| && init[i].End() == LatestEnd(init) {
        assert ps[i] == init[i];
      }
    }
  }

  /** Up to the first start the account agrees with its grants exactly when none of them has
      vested anything by then. */
  lemma AgreesEarlyIff(a: Account)
    requires a.periods != []
    ensures (forall t: int64 :: t <= a.periods[0].start ==> AgreesAt(a, t)) <==>
            forall i, d :: 0 <= i < |a.periods| ==> NothingYet(a.periods[i], a.periods[0].start, a.periods[i].Grant(d))
  {
    var first := a.periods[0].start;
    if forall t: int64 :: t <= first ==> AgreesAt(a, t) {
      assert AgreesAt(a, first);
      forall i, d | 0 <= i < |a.periods| ensures NothingYet(a.periods[i], first, a.periods[i].Grant(d)) {
        assert VestedOf(a, first, d) == GrantsVested(a.periods, first, d);
        NothingVestedIff(a.periods, first, d);
        NothingYetIff(a.periods[i], first, d);
      }
    }
    if forall i, d :: 0 <= i < |a.periods| ==> NothingYet(a.periods[i], first, a.periods[i].Grant(d)) {
      forall t: int64 | t <= first ensures AgreesAt(a, t) {
        forall d ensures VestedOf(a, t, d) == GrantsVested(a.periods, t, d) {
          forall i | 0 <= i < |a.periods| ensures a.periods[i].VestedOf(first, d) == 0 {
            assert NothingYet(a.periods[i], first, a.periods[i].Grant(d));
            NothingYetIff(a.periods[i], first, d);
          }
          NothingVestedIff(a.periods, first, d);
          GrantsVestedFacts(a.periods, t, first, d);
        }
      }
    }
  }

  /** After the first start it agrees with them exactly when all have vested fully as soon as
      the account counts as fully vested. */
  lemma AgreesLateIff(a: Account)
    requires WellBuilt(a) && a.periods != [] && a.periods[0].start < MAX_INT64
    ensures (forall t: int64 :: t > a.periods[0].start ==> AgreesAt(a, t)) <==>
            forall i, d :: 0 <= i < |a.periods| ==> StartsBefore(a.periods[i], FullTime(a), a.periods[i].Grant(d))
  {
    var first, full := a.periods[0].start, FullTime(a);
    if forall t: int64 :: t > first ==> AgreesAt(a, t) {
      assert AgreesAt(a, full);
      forall i, d | 0 <= i < |a.periods| ensures StartsBefore(a.periods[i], full, a.periods[i].Grant(d)) {
        assert VestedOf(a, full, d) == GrantsVested(a.periods, full, d) && AmountOf(a.original, d) == Granted(a.periods, d);
        AllVestedIff(a.periods, full, d);
        LatestEndBounds(a.periods, i);
        StartsBeforeIff(a.periods[i], full, d);
      }
    }
    if forall i, d :: 0 <= i < |a.periods| ==> StartsBefore(a.periods[i], full, a.periods[i].Grant(d)) {
      forall t: int64 | t > first ensures AgreesAt(a, t) {
        forall d ensures VestedOf(a, t, d) == GrantsVested(a.periods, t, d) {
          forall i | 0 <= i < |a.periods| ensures a.periods[i].VestedOf(full, d) == a.periods[i].Grant(d) {
            assert StartsBefore(a.periods[i], full, a.periods[i].Grant(d));
            LatestEndBounds(a.periods, i);
            StartsBeforeIff(a.periods[i], full, d);
          }
          AllVestedIff(a.periods, full, d);
          assert AmountOf(a.original, d) == Granted(a.periods, d);
          if t >= full {
            GrantsVestedFacts(a.periods, full, t, d);
          }
        }
      }
    }
  }

  /** The account equals the sum of its grants at all times exactly when its grants are in
      order: those with an amount have vested nothing when the first starts, and start before
      the account counts as fully vested. */
  lemma AgreesIffGrantsInOrder(a: Account)
    requires WellBuilt(a)
    ensures (forall t: int64 :: AgreesAt(a, t)) <==> GrantsInOrder(a)
  {
    if a.periods == [] {
      assert forall t: int64 :: AgreesAt(a, t);
    } else {
      AgreesEarlyIff(a);
      if a.periods[0].start < MAX_INT64 {
        AgreesLateIff(a);
      }
    }
  }

  // ----- Accounts as claims make them -----

  /** Grants as claims make them: none starts before the first, and some, those of free
      claims, have length zero. */
  ghost predicate Orderly(a: Account) {
    && WellBuilt(a) && a.periods != []
    && forall i :: 0 <= i < |a.periods| ==> a.periods[i].Plain() && a.periods[0].start <= a.periods[i].start
  }

  /** The amount of `d` in grants that start and end at `t`. */
  function InstantGrants(ps: seq<Period>, t: int64, d: Denom): nat {
    if ps == [] then 0
    else
      var p := ps[|ps| - 1];
      InstantGrants(ps[..|ps| - 1], t, d) + if p.length == 0 && p.start == t then p.Grant(d) else 0
  }

  /** What the account counts too early: at its end time, after the first start, it already
      includes the grants of length zero that start then. */
  function CountedEarly(a: Account, t: int64, d: Denom): nat {
    if a.periods != [] && a.periods[0].start < t && t == a.endTime then InstantGrants(a.periods, t, d) else 0
  }

  lemma {:induction false} GrantsAtTheirEnds(ps: seq<Period>, first: int64, end: int64, t: int64, d: Denom)
    requires forall i :: 0 <= i < |ps| ==> ps[i].Plain() && first <= ps[i].start
    requires LatestEnd(ps) <= end <= t
    ensures GrantsVested(ps, first, d) == 0
    ensures GrantsVested(ps, end, d) + InstantGrants(ps, end, d) == Granted(ps, d)
    ensures t > end ==> GrantsVested(ps, t, d) == Granted(ps, d)
  {
    if ps != [] {
      var p := ps[|ps| - 1];
      assert p.Plain() && first <= p.start;
      GrantsAtTheirEnds(ps[..|ps| - 1], first, end, t, d);
    }
  }

  /** An orderly account vests, at every time, the sum of its grants and what it counts early. */
  lemma OrderlyAccountVests(a: Account, t: int64, d: Denom)
    requires Orderly(a)
    ensures VestedOf(a, t, d) == GrantsVested(a.periods, t, d) + CountedEarly(a, t, d)
  {
    var first := a.periods[0].start;
    GrantsAtTheirEnds(a.periods, first, a.endTime, Max64(t, a.endTime), d);
    assert AmountOf(a.original, d) == Granted(a.periods, d);
    if t <= first {
      GrantsVestedFacts(a.periods, t, first, d);
    }
  }

  lemma {:induction false} InstantGrantsPositive(ps: seq<Period>, t: int64, d: Denom)
    ensures InstantGrants(ps, t, d) > 0 <==>
            exists i :: 0 <= i < |ps| && ps[i].length == 0 && ps[i].start == t && ps[i].Grant(d) > 0
  {
    if ps != [] {
      var init, p := ps[..|ps| - 1], ps[|ps| - 1];
      InstantGrantsPositive(init, t, d);
      if InstantGrants(init, t, d) > 0 {
        var i :| 0 <= i < |init| && init[i].length == 0 && init[i].start == t && init[i].Grant(d) > 0;
        assert ps[i] == init[i];
      }
      assert forall i :: 0 <= i < |init| ==> ps[i] == init[i];
    }
  }

  /** A funded grant of length zero starts at `t`. */
  ghost predicate InstantGrantAt(ps: seq<Period>, t: int64) {
    exists i, d :: 0 <= i < |ps| && ps[i].length == 0 && ps[i].start == t && ps[i].Grant(d) > 0
  }

  /** So it disagrees with its grants only at its end time, and only when a funded grant of
      length zero starts right then and not with the first grant. */
  lemma OrderlyAccountAgreesIff(a: Account, t: int64)
    requires Orderly(a)
    ensures AgreesAt(a, t) <==> !(a.periods[0].start < t == a.endTime && InstantGrantAt(a.periods, t))
  {
    if AgreesAt(a, t) && a.periods[0].start < t == a.endTime && InstantGrantAt(a.periods, t) {
      var i, d :| 0 <= i < |a.periods| && a.periods[i].length == 0 && a.periods[i].start == t && a.periods[i].Grant(d) > 0;
      InstantGrantsPositive(a.periods, t, d);
      OrderlyAccountVests(a, t, d);
      assert false;
    }
    if !(a.periods[0].start < t == a.endTime && InstantGrantAt(a.periods, t)) {
      forall d ensures VestedOf(a, t, d) == GrantsVested(a.periods, t, d) {
        OrderlyAccountVests(a, t, d);
        InstantGrantsPositive(a.periods, t, d);
      }
    }
  }

  // ----- Adding a grant to an orderly account -----

  /** What a new grant is counted with before it vests: all of it, if it has length zero and
      starts at what is then the account's end time, after the first start. */
  function NewGrantEarly(a: Account, p: Period, t: int64, d: Denom): nat {
    if a.periods != [] && a.periods[0].start < t && p.length == 0 && p.start == t && t >= a.endTime then p.Grant(d) else 0
  }

  /** What a new grant makes the account stop counting early, by moving its end time. */
  function NoLongerEarly(a: Account, p: Period, t: int64, d: Denom): nat {
    if p.End() > a.endTime then CountedEarly(a, t, d) else 0
  }

  lemma {:induction false} NoInstantGrantAfterEnd(ps: seq<Period>, t: int64, d: Denom)
    requires LatestEnd(ps) < t
    ensures InstantGrants(ps, t, d) == 0
  {
    if ps != [] {
      NoInstantGrantAfterEnd(ps[..|ps| - 1], t, d);
    }
  }

  lemma CountedEarlyWithGrant(a: Account, p: Period, t: int64, d: Denom)
    requires Orderly(a) && p.Plain()
    ensures CountedEarly(WithGrant(a, p), t, d) == CountedEarly(a, t, d) - NoLongerEarly(a, p, t, d) + NewGrantEarly(a, p, t, d)
  {
    var a' := WithGrant(a, p);
    assert a'.periods[..|a.periods|] == a.periods && a'.periods[0] == a.periods[0];
    if t > a.endTime {
      NoInstantGrantAfterEnd(a.periods, t, d);
    }
  }

  /** A new grant adds its own vested part at every time, but for the two instants at which
      an account counts grants of length zero early: a new one is counted in full at once if
      it is the account's end, and one that was counted so no longer is if the end moves. */
  lemma GrantAddsItsShare(a: Account, p: Period, t: int64, d: Denom)
    requires Orderly(a) && p.Plain() && a.periods[0].start <= p.start
    ensures Orderly(WithGrant(a, p))
    ensures VestedOf(WithGrant(a, p), t, d) ==
            VestedOf(a, t, d) + p.VestedOf(t, d) + NewGrantEarly(a, p, t, d) - NoLongerEarly(a, p, t, d)
  {
    var a' := WithGrant(a, p);
    GrantKeepsAccountWellBuilt(a, p);
    assert a'.periods[..|a.periods|] == a.periods && a'.periods[0] == a.periods[0];
    OrderlyAccountVests(a, t, d);
    OrderlyAccountVests(a', t, d);
    CountedEarlyWithGrant(a, p, t, d);
  }

  /** A free claim made after the first grant ended is counted as vested at once, and no
      longer when another claim of the same moment moves the end. */
  lemma FreeClaimCountedEarly()
    ensures var coin := [Coin("ustrd", 1)];
            var a := WithGrant(Account([], 0, NONE), Period(10, 5, coin));
            var free, later := Period(20, 0, coin), Period(20, 5, coin);
            && Orderly(a) && VestedOf(a, 20, "ustrd") == 1 && free.VestedOf(20, "ustrd") == 0
            && VestedOf(WithGrant(a, free), 20, "ustrd") == 2
            && VestedOf(WithGrant(WithGrant(a, free), later), 20, "ustrd") == 1
  {
    var coin := [Coin("ustrd", 1)];
    var empty := Account([], 0, NONE);
    var first, free, later := Period(10, 5, coin), Period(20, 0, coin), Period(20, 5, coin);
    var a := WithGrant(empty, first);
    OneCoin("ustrd", 1, "ustrd");
    assert WellBuilt(empty);
    GrantKeepsAccountWellBuilt(empty, first);
    assert [] + [first] == [first];
    GrantAddsItsShare(a, free, 20, "ustrd");
    GrantAddsItsShare(WithGrant(a, free), later, 20, "ustrd");
    var b := WithGrant(a, free);
    assert b.periods == [first, free] && b.periods[..1] == [first] && [first][..0] == [];
    assert InstantGrants([first], 20, "ustrd") == 0;
  }

  lemma OneCoin(denom: Denom, amount: nat, d: Denom)
    ensures AmountOf(FromList([Coin(denom, amount)]), d) == if d == denom then amount else 0
  {
    assert [Coin(denom, amount)][1..] == [];
  }

  /** A grant added with an earlier start than the first one is hidden until that start: the
      account reports nothing while its grants have vested something. */
  lemma EarlierGrantIsHidden(a: Account, p: Period, t: int64, d: Denom)
    requires a.periods != [] && t <= a.periods[0].start && p.VestedOf(t, d) > 0
    ensures p.start < a.periods[0].start
    ensures VestedOf(WithGrant(a, p), t, d) == 0 < GrantsVested(WithGrant(a, p).periods, t, d)
  {
    var ps := WithGrant(a, p).periods;
    assert ps[0] == a.periods[0] && ps[..|ps| - 1] == a.periods;
  }
}
