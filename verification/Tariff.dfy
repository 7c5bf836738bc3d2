/** Minute tariff of a session: cost of minutes, charge of a tick, and how many
    minutes a wallet still covers. Money is in grosz, the rate in grosz an hour. */
module Tariff {
  import opened Basics

  /** Cost of the first `m` minutes, rounded up to a whole grosz. */
  function CostForMinutes(rate: int, m: int): (cost: int)
    ensures rate <= 0 || m <= 0 ==> cost == 0
    ensures rate > 0 && m >= 0 ==> rate * m <= 60 * cost < rate * m + 60
  {
    if rate <= 0 || m <= 0 then 0 else (rate * m + 59) / 60
  }

  /** Charge for `add` more minutes when `already` minutes have been paid. */
  function ChargeDelta(rate: int, already: int, add: int): int {
    if add <= 0 then 0 else CostForMinutes(rate, already + add) - CostForMinutes(rate, already)
  }

  lemma ChargeIsNonNegative(rate: int, already: nat, add: int)
    ensures ChargeDelta(rate, already, add) >= 0
  {
    if rate > 0 && add > 0 {
      assert rate * (already + add) == rate * already + rate * add;
      assert rate * add > 0;
    }
  }

  /** What rounding up has already collected beyond the paid minutes, in
      sixtieths of a grosz. */
  function Prepaid(rate: int, already: nat): (v: int)
    ensures 0 <= v < 60
  {
    if rate <= 0 then 0 else 60 * CostForMinutes(rate, already) - rate * already
  }

  /** Charging twice in a row charges as much as charging once: rounding never
      drifts. */
  lemma ChargeAdds(rate: int, already: nat, first: nat, second: nat)
    ensures ChargeDelta(rate, already, first) + ChargeDelta(rate, already + first, second)
         == ChargeDelta(rate, already, first + second)
  {
  }

  /** Any slicing of the minutes charges exactly the cost of their total. */
  lemma {:induction false} NoDrift(rate: int, already: nat, slices: seq<nat>)
    ensures SlicedCharge(rate, already, slices) == ChargeDelta(rate, already, TotalMinutes(slices))
    decreases |slices|
  {
    if slices != [] {
      NoDrift(rate, already + slices[0], slices[1..]);
      ChargeAdds(rate, already, slices[0], TotalMinutes(slices[1..]));
    }
  }

  function TotalMinutes(slices: seq<nat>): nat {
    if slices == [] then 0 else slices[0] + TotalMinutes(slices[1..])
  }

  function SlicedCharge(rate: int, already: nat, slices: seq<nat>): int
    decreases |slices|
  {
    if slices == [] then 0
    else ChargeDelta(rate, already, slices[0]) + SlicedCharge(rate, already + slices[0], slices[1..])
  }

  /** Sixty minutes cost exactly the hourly rate, wherever in the session they fall. */
  lemma AnyHourCostsTheRate(rate: nat, already: nat)
    ensures ChargeDelta(rate, already, 60) == rate
  {
    assert rate * (already + 60) == rate * already + 60 * rate;
  }

  /** Wallet and prepaid remainder together, in sixtieths of a grosz. */
  function Funds(wallet: nat, rate: int, already: nat): nat {
    60 * wallet + Prepaid(rate, already)
  }

  /** A wallet covers `add` minutes exactly when its funds cover them without any
      rounding. */
  lemma CoversIff(wallet: nat, rate: int, already: nat, add: nat)
    requires rate > 0
    ensures ChargeDelta(rate, already, add) <= wallet <==> add <= MostMinutes(wallet, rate, already)
  {
    assert rate * (already + add) == rate * already + rate * add;
    var before, after := CostForMinutes(rate, already), CostForMinutes(rate, already + add);
    if add > 0 {
      assert after <= wallet + before <==> rate * (already + add) <= 60 * (wallet + before);
    }
    QuotientBound(Funds(wallet, rate, already), rate, add);
  }

  /** The most minutes that the funds can cover. */
  function MostMinutes(wallet: nat, rate: int, already: nat): nat
    requires rate > 0
  {
    Funds(wallet, rate, already) / rate
  }

  lemma QuotientBound(funds: nat, rate: int, k: nat)
    requires rate > 0
    ensures rate * k <= funds <==> k <= funds / rate
  {
    var q := funds / rate;
    if k <= q {
      assert rate * k <= rate * q;
    } else {
      assert rate * (q + 1) <= rate * k;
    }
  }

  /** Paying `add` minutes uses up exactly `rate * add` sixtieths of the wallet
      and the prepaid remainder together. */
  lemma PayingConserves(wallet: int, rate: int, already: nat, add: nat)
    requires rate > 0
    ensures 60 * (wallet - ChargeDelta(rate, already, add)) + Prepaid(rate, already + add)
         == 60 * wallet + Prepaid(rate, already) - rate * add
  {
    assert rate * (already + add) == rate * already + rate * add;
  }

  /** Minutes that the wallet still covers, as the billing job estimates them:
      one minute above the plain quotient, or the quotient itself. */
  function AffordableMinutes(wallet: int, rate: int, already: nat): (m: nat) {
    if wallet <= 0 || rate <= 0 then 0
    else
      var quotient := wallet * 60 / rate;
      if ChargeDelta(rate, already, quotient + 1) > wallet then quotient else quotient + 1
  }

  /** The countdown loop of the billing job: it steps down at most once. */
  method MinutesAffordable(wallet: int, rate: int, already: nat) returns (m: nat)
    ensures m == AffordableMinutes(wallet, rate, already)
    ensures wallet >= 0 ==> ChargeDelta(rate, already, m) <= wallet
  {
    if wallet <= 0 || rate <= 0 {
      return 0;
    }
    var quotient := wallet * 60 / rate;
    m := quotient + 1;
    QuotientCovered(wallet, rate, already);
    while m > 0 && ChargeDelta(rate, already, m) > wallet
      invariant quotient <= m <= quotient + 1
      invariant m == quotient ==> ChargeDelta(rate, already, quotient + 1) > wallet
    {
      m := m - 1;
    }
  }

  lemma QuotientCovered(wallet: nat, rate: int, already: nat)
    requires rate > 0
    ensures wallet * 60 / rate <= MostMinutes(wallet, rate, already)
    ensures ChargeDelta(rate, already, wallet * 60 / rate) <= wallet
  {
    QuotientBound(wallet * 60, rate, wallet * 60 / rate);
    QuotientBound(Funds(wallet, rate, already), rate, wallet * 60 / rate);
    CoversIff(wallet, rate, already, wallet * 60 / rate);
  }

  lemma AffordableIsCovered(wallet: nat, rate: int, already: nat)
    ensures ChargeDelta(rate, already, AffordableMinutes(wallet, rate, already)) <= wallet
  {
    if wallet > 0 && rate > 0 {
      QuotientCovered(wallet, rate, already);
    }
  }

  /** No larger number of minutes is covered. */
  ghost predicate IsLargestCovered(wallet: nat, rate: int, already: nat, m: nat) {
    && ChargeDelta(rate, already, m) <= wallet
    && forall k: nat :: k > m ==> ChargeDelta(rate, already, k) > wallet
  }

  lemma LargestCoveredIff(wallet: nat, rate: int, already: nat, m: nat)
    requires rate > 0
    ensures IsLargestCovered(wallet, rate, already, m) <==> m == MostMinutes(wallet, rate, already)
  {
    var most := MostMinutes(wallet, rate, already);
    CoversIff(wallet, rate, already, m);
    CoversIff(wallet, rate, already, most);
    forall k: nat | k > most ensures ChargeDelta(rate, already, k) > wallet {
      CoversIff(wallet, rate, already, k);
    }
  }

  /** Exactly when the estimate is the true maximum: the part of a minute left in
      the wallet, plus the prepaid remainder, must stay below two minutes. */
  lemma AffordableExactIff(wallet: nat, rate: int, already: nat)
    requires rate > 0 && wallet > 0
    ensures IsLargestCovered(wallet, rate, already, AffordableMinutes(wallet, rate, already))
       <==> wallet * 60 % rate + Prepaid(rate, already) < 2 * rate
  {
    var m := AffordableMinutes(wallet, rate, already);
    var quotient, part := wallet * 60 / rate, wallet * 60 % rate;
    var most := MostMinutes(wallet, rate, already);
    assert m == Min(most, quotient + 1) by {
      CoversIff(wallet, rate, already, quotient + 1);
      QuotientCovered(wallet, rate, already);
    }
    assert most <= quotient + 1 <==> part + Prepaid(rate, already) < 2 * rate by {
      QuotientBound(Funds(wallet, rate, already), rate, quotient + 2);
      TwoMinutesOver(wallet, rate, quotient, part);
    }
    LargestCoveredIff(wallet, rate, already, m);
  }

  lemma TwoMinutesOver(wallet: nat, rate: int, quotient: int, part: int)
    requires rate > 0 && quotient == wallet * 60 / rate && part == wallet * 60 % rate
    ensures rate * (quotient + 2) == wallet * 60 - part + 2 * rate
  {
    assert wallet * 60 == rate * quotient + part;
  }

  /** From 60 grosz an hour the estimate is always the true maximum. */
  lemma AffordableExact(wallet: nat, rate: int, already: nat)
    requires rate >= 60 && wallet > 0
    ensures IsLargestCovered(wallet, rate, already, AffordableMinutes(wallet, rate, already))
  {
    AffordableExactIff(wallet, rate, already);
  }

  /** When the estimate is what the funds cover, an empty wallet included. */
  lemma AffordableIsMostIff(wallet: nat, rate: int, already: nat)
    requires rate > 0
    ensures AffordableMinutes(wallet, rate, already) <= MostMinutes(wallet, rate, already)
    ensures AffordableMinutes(wallet, rate, already) == MostMinutes(wallet, rate, already)
       <==> wallet * 60 % rate + Prepaid(rate, already) < if wallet > 0 then 2 * rate else rate
  {
    hide ChargeDelta, Prepaid, CostForMinutes;
    var m := AffordableMinutes(wallet, rate, already);
    AffordableIsCovered(wallet, rate, already);
    CoversIff(wallet, rate, already, m);
    if wallet > 0 {
      AffordableExactIff(wallet, rate, already);
      LargestCoveredIff(wallet, rate, already, m);
    } else {
      QuotientBound(Funds(wallet, rate, already), rate, 1);
    }
  }

  lemma AffordableIsMost(wallet: nat, rate: int, already: nat)
    requires rate >= 60
    ensures AffordableMinutes(wallet, rate, already) == MostMinutes(wallet, rate, already)
  {
    AffordableIsMostIff(wallet, rate, already);
  }

  /** Below that it can fall short: one grosz at one grosz an hour, one minute
      already paid, covers 119 more minutes; the estimate says 61. */
  lemma AffordableFallsShort()
    ensures AffordableMinutes(1, 1, 1) == 61
    ensures ChargeDelta(1, 1, 119) <= 1
  {
  }

  /** Minutes a tick pays with money out of `due` minutes: all of them, or what
      the wallet covers. */
  function PaidMinutes(wallet: int, rate: int, already: nat, due: nat): nat {
    if ChargeDelta(rate, already, due) > wallet then AffordableMinutes(wallet, rate, already) else due
  }

  /** Of a session that has not paid yet, no due minute is paid exactly when the wallet
      does not hold the price of one. */
  lemma NothingPaidIff(wallet: nat, rate: int, due: nat)
    requires due > 0
    ensures PaidMinutes(wallet, rate, 0, due) == 0 <==> rate > 0 && wallet < CostForMinutes(rate, 1)
  {
    hide MostMinutes;
    if rate > 0 {
      CoversIff(wallet, rate, 0, due);
      CoversIff(wallet, rate, 0, 1);
      if wallet > 0 {
        QuotientBound(wallet * 60, rate, 1);
      }
    }
  }

  /** From 60 grosz an hour a tick pays as many of the due minutes as the wallet
      and the prepaid remainder can cover. */
  lemma PaidIsMost(wallet: nat, rate: int, already: nat, due: nat)
    requires rate >= 60
    ensures PaidMinutes(wallet, rate, already, due)
         == Min(due, MostMinutes(wallet, rate, already))
  {
    CoversIff(wallet, rate, already, due);
    AffordableIsMost(wallet, rate, already);
  }

  /** Whatever the rate, the minutes paid are within the wallet. */
  lemma PaidIsCovered(wallet: nat, rate: int, already: nat, due: nat)
    ensures 0 <= ChargeDelta(rate, already, PaidMinutes(wallet, rate, already, due)) <= wallet
  {
    AffordableIsCovered(wallet, rate, already);
    ChargeIsNonNegative(rate, already, PaidMinutes(wallet, rate, already, due));
  }

  /** Whatever the rate: no more minutes are paid than are due, the charge for them
      never exceeds the wallet, and the tick falls short exactly when not all due
      minutes were covered. From 60 grosz an hour it then pays all that is covered. */
  lemma PaidIsCharged(wallet: nat, rate: int, already: nat, due: nat)
    ensures var pay := PaidMinutes(wallet, rate, already, due);
      && pay <= due
      && 0 <= ChargeDelta(rate, already, pay) <= wallet
      && (ChargeDelta(rate, already, due) > wallet <==> pay < due)
      && (rate >= 60 ==> pay == Min(due, MostMinutes(wallet, rate, already)))
  {
    hide ChargeDelta, MostMinutes;
    PaidIsCovered(wallet, rate, already, due);
    PaidWithinDue(wallet, rate, already, due);
    if rate >= 60 {
      PaidIsMost(wallet, rate, already, due);
    }
  }

  lemma PaidWithinDue(wallet: int, rate: int, already: nat, due: nat)
    ensures PaidMinutes(wallet, rate, already, due) <= due
  {
    var m := AffordableMinutes(wallet, rate, already);
    if ChargeDelta(rate, already, due) > wallet && rate > 0 && wallet > 0 {
      CoversIff(wallet, rate, already, due);
      AffordableIsCovered(wallet, rate, already);
      CoversIff(wallet, rate, already, m);
    }
  }

  /** Forecast shown to the guest: coin minutes, package minutes and money. */
  method MinutesLeft(coinMinutes: int, packMinutes: int, wallet: int, rate: int, alreadyMoney: nat)
      returns (left: int)
    ensures left == coinMinutes + packMinutes + AffordableMinutes(wallet, rate, alreadyMoney)
  {
    var byMoney := MinutesAffordable(wallet, rate, alreadyMoney);
    left := coinMinutes + packMinutes + byMoney;
  }
}
