/** Settling a session up to a number of minutes: coin minutes first, then live
    packages of the zone, then the wallet; as far as the money goes. */
module Settlement {
  import opened Basics
  import opened Tariff
  import opened Packages
  import opened Wallet
  import opened Sessions

  datatype Verdict = Settled | HitZero | Gone | Refused

  datatype Outcome = Outcome(books: Books, verdict: Verdict)

  /** The packages a tick may draw from, listed in spending order. */
  function ListingFor(packs: seq<UserPackage>, user: nat, zone: Option<nat>, now: int): seq<Listed> {
    Listing(packs, LivePackagesFor(packs, user, zone, now))
  }

  function SettleMinutes(b: Books, zone: Option<nat>, now: int, target: int): Outcome {
    if target <= b.session.billed then Outcome(b, Settled)
    else
      var delta := target - b.session.billed;
      var useCoin := Min(delta, b.coinMinutes);
      var (packs, usePack) := if delta - useCoin > 0
        then Take(b.packs, ListingFor(b.packs, b.session.user, zone, now), delta - useCoin)
        else (b.packs, 0);
      Post(b, useCoin, packs, usePack, delta - useCoin - usePack)
  }

  /** The money part and the posting of a settlement with `due` minutes left to pay. */
  function Post(b: Books, useCoin: nat, packs: seq<UserPackage>, usePack: nat, due: nat): Outcome
    requires useCoin <= b.coinMinutes
  {
    var s := b.session;
    var hitZero := ChargeDelta(s.rate, s.money, due) > b.account.balance;
    var pay := PaidMinutes(b.account.balance, s.rate, s.money, due);
    var charge := ChargeDelta(s.rate, s.money, pay);
    if s.status != Active then Outcome(b, Gone)
    else
      var paid := if charge > 0 then WalletApply(b.account, Op(SessionSpend, -charge, s.id)) else Applied(b.account);
      if paid.Insufficient? then Outcome(b, Refused)
      else
        Outcome(
          Books(
            s.(billed := s.billed + useCoin + usePack + pay, coinUsed := s.coinUsed + useCoin,
               packUsed := s.packUsed + usePack, money := s.money + pay, charged := s.charged + charge),
            paid.account, b.coinMinutes - useCoin, packs),
          if hitZero then HitZero else Settled)
  }

  /** Settlement by a caller who read the counters earlier: it computes from his copy
      and writes the row from it, as if the row still held what he saw. Refused or
      too late, it leaves every row as it is. */
  function SettleFrom(b: Books, seen: Counters, zone: Option<nat>, now: int, target: int): Outcome {
    var r := SettleMinutes(b.(session := WithCounters(b.session, seen)), zone, now, target);
    if target <= seen.billed || r.verdict == Gone || r.verdict == Refused then Outcome(b, r.verdict) else r
  }

  function PostFrom(b: Books, seen: Counters, useCoin: nat, packs: seq<UserPackage>, usePack: nat, due: nat): Outcome
    requires useCoin <= b.coinMinutes
  {
    var r := Post(b.(session := WithCounters(b.session, seen)), useCoin, packs, usePack, due);
    if r.verdict == Gone || r.verdict == Refused then Outcome(b, r.verdict) else r
  }

  /** With the counters that the row holds it is the settlement itself. */
  lemma SettleFromStored(b: Books, zone: Option<nat>, now: int, target: int)
    ensures SettleFrom(b, CountersOf(b.session), zone, now, target) == SettleMinutes(b, zone, now, target)
  {
    assert WithCounters(b.session, CountersOf(b.session)) == b.session;
    GoneChangesNothing(b, zone, now, target);
    NeverRefused(b, zone, now, target);
  }

  /** The wallet is never asked for more than it holds. */
  lemma NeverRefused(b: Books, zone: Option<nat>, now: int, target: int)
    ensures SettleMinutes(b, zone, now, target).verdict != Refused
  {
    var s := b.session;
    forall due: nat
      ensures var charge := ChargeDelta(s.rate, s.money, PaidMinutes(b.account.balance, s.rate, s.money, due));
        charge <= 0 || charge <= b.account.balance
    {
      if b.account.balance >= 0 {
        AffordableIsCovered(b.account.balance, s.rate, s.money);
      }
    }
  }

  /** A settlement that finds the session closed changes nothing at all. */
  lemma GoneChangesNothing(b: Books, zone: Option<nat>, now: int, target: int)
    ensures b.session.status != Active || target <= b.session.billed ==> SettleMinutes(b, zone, now, target).books == b
    ensures SettleMinutes(b, zone, now, target).verdict == Gone
       <==> b.session.status != Active && target > b.session.billed
  {
    NeverRefused(b, zone, now, target);
  }

  /** The packages in spending order, empty ones included; none outside a zone. */
  function OrderFor(packs: seq<UserPackage>, user: nat, zone: Option<nat>, now: int): (order: seq<nat>)
    ensures IdsIn(packs, order)
  {
    if zone.None? then [] else SpendingOrder(packs, user, zone.value, now, |packs|)
  }

  lemma OrderForIsDistinct(packs: seq<UserPackage>, user: nat, zone: Option<nat>, now: int)
    ensures Distinct(OrderFor(packs, user, zone, now))
  {
    if zone.Some? {
      SpendingOrderIsComplete(packs, user, zone.value, now);
    }
  }

  /** Settlement with the packages drawn straight from the table. */
  function SettleInOrder(b: Books, order: seq<nat>, target: int): Outcome
    requires IdsIn(b.packs, order)
  {
    if target <= b.session.billed then Outcome(b, Settled)
    else
      var delta := target - b.session.billed;
      var useCoin := Min(delta, b.coinMinutes);
      var (packs, usePack) := Drain(b.packs, order, delta - useCoin);
      Post(b, useCoin, packs, usePack, delta - useCoin - usePack)
  }

  lemma FreshListingDrains(packs: seq<UserPackage>, user: nat, zone: Option<nat>, now: int, need: nat)
    ensures Take(packs, ListingFor(packs, user, zone, now), need)
         == Drain(packs, OrderFor(packs, user, zone, now), need)
  {
    var order := OrderFor(packs, user, zone, now);
    OrderForIsDistinct(packs, user, zone, now);
    FreshTakeIsDrain(packs, packs, order, need);
    if zone.None? {
      assert Listing(packs, NonEmpty(packs, order)) == [];
    }
  }

  lemma SettleIsInOrder(b: Books, zone: Option<nat>, now: int, target: int)
    ensures SettleMinutes(b, zone, now, target)
         == SettleInOrder(b, OrderFor(b.packs, b.session.user, zone, now), target)
  {
    hide Post, Take, Drain, ListingFor, OrderFor;
    if target > b.session.billed {
      var delta := target - b.session.billed;
      FreshListingDrains(b.packs, b.session.user, zone, now, delta - Min(delta, b.coinMinutes));
      TakeNothing(b.packs, ListingFor(b.packs, b.session.user, zone, now));
    }
  }

  /** The money part of a settlement. */
  lemma PostPays(b: Books, useCoin: nat, packs: seq<UserPackage>, usePack: nat, due: nat)
    requires b.session.status == Active && b.account.balance >= 0
    requires useCoin <= b.coinMinutes
    ensures var s := b.session;
      var r := Post(b, useCoin, packs, usePack, due);
      var pay := PaidMinutes(b.account.balance, s.rate, s.money, due);
      && r.books.packs == packs && r.books.coinMinutes == b.coinMinutes - useCoin
      && r.books.session == WithCounters(s, Counters(
           s.billed + useCoin + usePack + pay, s.coinUsed + useCoin, s.packUsed + usePack, s.money + pay,
           s.charged + ChargeDelta(s.rate, s.money, pay)))
      && r.books.account.balance == b.account.balance - ChargeDelta(s.rate, s.money, pay) >= 0
      && pay <= due
      && (s.rate >= 60 ==> pay == Min(due, MostMinutes(b.account.balance, s.rate, s.money)))
      && r.verdict == if pay < due then HitZero else Settled
  {
    hide ChargeDelta, PaidMinutes, MostMinutes;
    PaidIsCharged(b.account.balance, b.session.rate, b.session.money, due);
  }

  /** What a settlement takes from each source, exactly: coins before packages before
      money, each until it runs out; from 60 grosz an hour as many money minutes as
      the wallet covers. */
  lemma SettleTakes(b: Books, zone: Option<nat>, now: int, target: int)
    requires b.session.status == Active && b.account.balance >= 0
    requires target > b.session.billed
    ensures var order := OrderFor(b.packs, b.session.user, zone, now);
      var r := SettleMinutes(b, zone, now, target);
      var s := b.session;
      var delta := target - s.billed;
      var coin := Min(delta, b.coinMinutes);
      var pack := Min(delta - coin, SumLeft(b.packs, order));
      var due := delta - coin - pack;
      var pay := PaidMinutes(b.account.balance, s.rate, s.money, due);
      && r.books.session == WithCounters(s, Counters(
           s.billed + coin + pack + pay, s.coinUsed + coin, s.packUsed + pack, s.money + pay,
           s.charged + ChargeDelta(s.rate, s.money, pay)))
      && r.books.coinMinutes == b.coinMinutes - coin
      && r.books.packs == Drain(b.packs, order, delta - coin).0
      && SumBy(LeftOf, r.books.packs) == SumBy(LeftOf, b.packs) - pack
      && r.books.account.balance == b.account.balance - ChargeDelta(s.rate, s.money, pay) >= 0
      && pay <= due
      && (s.rate >= 60 ==> pay == Min(due, MostMinutes(b.account.balance, s.rate, s.money)))
      && r.verdict == if pay < due then HitZero else Settled
  {
    hide SettleMinutes, Post, Drain, OrderFor, ChargeDelta, MostMinutes, PaidMinutes;
    var delta := target - b.session.billed;
    var coin := Min(delta, b.coinMinutes);
    var drawn := SettleIsPost(b, zone, now, target);
    PostPays(b, coin, drawn.0, drawn.1, delta - coin - drawn.1);
  }

  lemma SettleIsPost(b: Books, zone: Option<nat>, now: int, target: int) returns (drawn: (seq<UserPackage>, nat))
    requires target > b.session.billed
    ensures var order := OrderFor(b.packs, b.session.user, zone, now);
      var delta := target - b.session.billed;
      var coin := Min(delta, b.coinMinutes);
      && drawn == Drain(b.packs, order, delta - coin)
      && drawn.1 == Min(delta - coin, SumLeft(b.packs, order))
      && SumBy(LeftOf, drawn.0) == SumBy(LeftOf, b.packs) - drawn.1
      && SettleMinutes(b, zone, now, target) == Post(b, coin, drawn.0, drawn.1, delta - coin - drawn.1)
  {
    hide SettleMinutes, Post, Drain;
    var order := OrderFor(b.packs, b.session.user, zone, now);
    var need := target - b.session.billed - Min(target - b.session.billed, b.coinMinutes);
    drawn := Drain(b.packs, order, need);
    SettleIsInOrder(b, zone, now, target);
    OrderForIsDistinct(b.packs, b.session.user, zone, now);
    DrainDraws(b.packs, order, need);
    FreshDrainConserves(b.packs, order, need);
  }

  lemma {:induction false} FreshDrainConserves(rows: seq<UserPackage>, order: seq<nat>, need: nat)
    requires IdsIn(rows, order)
    ensures SumBy(LeftOf, Drain(rows, order, need).0) == SumBy(LeftOf, rows) - Drain(rows, order, need).1
    decreases |order|
  {
    if order != [] {
      var take := Min(rows[order[0]].minutesLeft, need);
      var next := Withdraw(rows, order[0], take);
      SumByUpdate(LeftOf, rows, order[0], next[order[0]]);
      FreshDrainConserves(next, order[1..], need - take);
    }
  }

  /** The forecast shown to the guest: coin minutes, minutes of live packages of the
      zone, and the minutes his money affords. */
  function Forecast(b: Books, zone: Option<nat>, now: int): int {
    b.coinMinutes + SumLeft(b.packs, OrderFor(b.packs, b.session.user, zone, now))
      + AffordableMinutes(b.account.balance, b.session.rate, b.session.money)
  }

  /** Of so many minutes, those that neither coins nor packages cover. */
  function ForMoney(b: Books, zone: Option<nat>, now: int, minutes: nat): nat {
    Max(0, minutes - b.coinMinutes - SumLeft(b.packs, OrderFor(b.packs, b.session.user, zone, now)))
  }

  /** The wallet holds the price of what the other sources do not cover. */
  predicate Covered(b: Books, zone: Option<nat>, now: int, minutes: nat) {
    ChargeDelta(b.session.rate, b.session.money, ForMoney(b, zone, now, minutes)) <= b.account.balance
  }

  /** So many more minutes would be settled without the money running out. */
  predicate PaidInFull(b: Books, zone: Option<nat>, now: int, minutes: nat) {
    SettleMinutes(b, zone, now, b.session.billed + minutes).verdict == Settled
  }

  /** A settlement is paid in full exactly when the wallet covers the rest. */
  lemma SettledIff(b: Books, zone: Option<nat>, now: int, minutes: nat)
    requires b.session.status == Active && b.account.balance >= 0
    ensures PaidInFull(b, zone, now, minutes) <==> Covered(b, zone, now, minutes)
    ensures SettleMinutes(b, zone, now, b.session.billed + minutes).verdict == HitZero <==> !Covered(b, zone, now, minutes)
  {
    hide SettleMinutes, OrderFor, SumLeft, Drain, CostForMinutes, PaidMinutes;
    var s, wallet := b.session, b.account.balance;
    if minutes > 0 {
      SettleTakes(b, zone, now, s.billed + minutes);
      PaidIsCharged(wallet, s.rate, s.money, ForMoney(b, zone, now, minutes));
    } else {
      SettlingNothing(b, zone, now);
    }
  }

  /** As long as minutes are covered, fewer are. Whatever the rate, the forecast is
      covered. */
  lemma ForecastIsSafe(b: Books, zone: Option<nat>, now: int, minutes: nat)
    requires b.session.status == Active && b.account.balance >= 0 && minutes <= Forecast(b, zone, now)
    ensures PaidInFull(b, zone, now, minutes)
  {
    hide SettleMinutes, OrderFor, SumLeft, ChargeDelta, AffordableMinutes, MostMinutes, CostForMinutes;
    var s, wallet := b.session, b.account.balance;
    SettledIff(b, zone, now, minutes);
    if s.rate > 0 {
      AffordableIsMostIff(wallet, s.rate, s.money);
      CoversIff(wallet, s.rate, s.money, ForMoney(b, zone, now, minutes));
    } else {
      FreeCharge(s.rate, s.money, ForMoney(b, zone, now, minutes));
    }
  }

  lemma FreeCharge(rate: int, already: nat, add: nat)
    requires rate <= 0
    ensures ChargeDelta(rate, already, add) == 0
  {
  }

  /** The forecast is exact: settlements are paid in full up to it and not beyond. */
  ghost predicate ForecastExact(b: Books, zone: Option<nat>, now: int) {
    forall minutes: nat :: PaidInFull(b, zone, now, minutes) <==> minutes <= Forecast(b, zone, now)
  }

  /** The forecast is exact exactly when the affordability estimate is; so from 60
      grosz an hour always, and never for a session that costs nothing. */
  lemma ForecastIsExactIff(b: Books, zone: Option<nat>, now: int)
    requires b.session.status == Active && b.account.balance >= 0
    ensures var s, wallet := b.session, b.account.balance;
      ForecastExact(b, zone, now) <==>
        s.rate > 0 && wallet * 60 % s.rate + Prepaid(s.rate, s.money) < if wallet > 0 then 2 * s.rate else s.rate
    ensures b.session.rate >= 60 ==> ForecastExact(b, zone, now)
  {
    hide PaidInFull, OrderFor, SumLeft, ChargeDelta, AffordableMinutes, MostMinutes, CostForMinutes, Prepaid;
    var s, wallet := b.session, b.account.balance;
    var forecast := Forecast(b, zone, now);
    forall minutes: nat
      ensures PaidInFull(b, zone, now, minutes) <==>
        s.rate <= 0 || ForMoney(b, zone, now, minutes) <= MostMinutes(wallet, s.rate, s.money)
    {
      SettledIff(b, zone, now, minutes);
      if s.rate > 0 {
        CoversIff(wallet, s.rate, s.money, ForMoney(b, zone, now, minutes));
      } else {
        FreeCharge(s.rate, s.money, ForMoney(b, zone, now, minutes));
      }
    }
    if s.rate > 0 {
      AffordableIsMostIff(wallet, s.rate, s.money);
    }
    if s.rate >= 60 {
      AffordableIsMost(wallet, s.rate, s.money);
    }
    assert PaidInFull(b, zone, now, forecast + 1) <==>
      s.rate <= 0 || ForMoney(b, zone, now, forecast + 1) <= MostMinutes(wallet, s.rate, s.money);
  }

  lemma SettlingNothing(b: Books, zone: Option<nat>, now: int)
    ensures SettleMinutes(b, zone, now, b.session.billed) == Outcome(b, Settled)
  {
  }

  lemma {:induction false} DrainTouches(rows: seq<UserPackage>, order: seq<nat>, need: nat, i: nat)
    requires IdsIn(rows, order) && i < |rows| && i !in order
    ensures Drain(rows, order, need).0[i] == rows[i]
    decreases |order|
  {
    if order != [] {
      var take := Min(rows[order[0]].minutesLeft, need);
      DrainTouches(Withdraw(rows, order[0], take), order[1..], need - take, i);
    }
  }

  /** A settlement draws only from packages of this guest and of the zone he sits in,
      and never from a voided or expired one. */
  lemma DrawsOnlyOwnLivePackages(b: Books, zone: Option<nat>, now: int, target: int, i: nat)
    requires i < |b.packs|
    ensures var r := SettleMinutes(b, zone, now, target).books;
      && |r.packs| == |b.packs|
      && (r.packs[i] != b.packs[i] ==>
            zone.Some? && b.packs[i].zone == zone.value && b.packs[i].user == b.session.user && PackageLive(b.packs[i], now))
  {
    hide SettleMinutes, Drain, ChargeDelta, PaidMinutes;
    if target > b.session.billed {
      var drawn := SettleIsPost(b, zone, now, target);
      var order := OrderFor(b.packs, b.session.user, zone, now);
      var need := target - b.session.billed - Min(target - b.session.billed, b.coinMinutes);
      if zone.Some? {
        SpendingOrderIsComplete(b.packs, b.session.user, zone.value, now);
      }
      if i !in order {
        DrainTouches(b.packs, order, need, i);
      } else {
        EmptyStaysEmpty(b.packs, order, need, i);
      }
    } else {
      GoneChangesNothing(b, zone, now, target);
    }
  }

  /** A package of the guest and zone that a settlement may draw from at `now`. */
  predicate Usable(p: UserPackage, user: nat, zone: nat, now: int) {
    p.user == user && p.zone == zone && !p.voided && (p.expiresAt.None? || now < p.expiresAt.value)
  }

  /** If a settlement draws from package `j`, nothing is left in any usable package
      that expires sooner, or with it and was bought before it. */
  lemma DrawsSoonestThenOldest(b: Books, zone: nat, now: int, target: int, i: nat, j: nat)
    requires i < |b.packs| && j < |b.packs| && Usable(b.packs[i], b.session.user, zone, now)
    requires var p, q := b.packs[i], b.packs[j];
      || (p.expiresAt.Some? && (q.expiresAt.None? || p.expiresAt.value < q.expiresAt.value))
      || (p.expiresAt == q.expiresAt && p.createdAt < q.createdAt)
    ensures var r := SettleMinutes(b, Some(zone), now, target).books;
      && |r.packs| == |b.packs|
      && (r.packs[j].minutesLeft < b.packs[j].minutesLeft ==> r.packs[i].minutesLeft == 0)
  {
    hide SettleMinutes, Drain, ChargeDelta, PaidMinutes, InSpendingOrder, SumLeft, SpendingOrder;
    if target > b.session.billed {
      var drawn := SettleIsPost(b, Some(zone), now, target);
      var user, order := b.session.user, OrderFor(b.packs, b.session.user, Some(zone), now);
      var need := target - b.session.billed - Min(target - b.session.billed, b.coinMinutes);
      SpendingOrderIsComplete(b.packs, user, zone, now);
      DrainDraws(b.packs, order, need);
      if j in order {
        var at :| 0 <= at < |order| && order[at] == i;
        var bt :| 0 <= bt < |order| && order[bt] == j;
        StandsFirst(b.packs, order, at, bt);
        DrainInOrder(b.packs, order, need, at, bt);
      }
    } else {
      GoneChangesNothing(b, Some(zone), now, target);
    }
  }

  lemma {:induction false} EmptyStaysEmpty(rows: seq<UserPackage>, order: seq<nat>, need: nat, i: nat)
    requires IdsIn(rows, order) && i < |rows|
    ensures rows[i].minutesLeft == 0 ==> Drain(rows, order, need).0[i] == rows[i]
    decreases |order|
  {
    if order != [] {
      var take := Min(rows[order[0]].minutesLeft, need);
      EmptyStaysEmpty(Withdraw(rows, order[0], take), order[1..], need - take, i);
    }
  }

  /** The idle warning does not enter a settlement. */
  lemma WarningIsNotSettled(b: Books, zone: Option<nat>, now: int, target: int, warned: Option<int>)
    ensures var r := SettleMinutes(b, zone, now, target);
      SettleMinutes(b.(session := b.session.(afkWarnedAt := warned)), zone, now, target)
        == Outcome(r.books.(session := r.books.session.(afkWarnedAt := warned)), r.verdict)
  {
    hide Take, ListingFor, ChargeDelta, PaidMinutes;
  }
}
