/** The billing job may tick at any moments, be stopped and started again: when the
    session is finished, the guest has paid what a single final settlement takes. */
module Restart {
  import opened Basics
  import opened Tariff
  import opened Packages
  import opened Sessions
  import opened Settlement
  import opened SessionRun
  import opened Slicing
  import opened Playtime
  import opened SessionEnd
  import opened Grace

  /** What the guest has paid and what he has left. */
  ghost predicate SamePaid(a: Books, b: Books) {
    && CountersOf(a.session) == CountersOf(b.session)
    && (a.account.balance, a.coinMinutes, a.packs) == (b.account.balance, b.coinMinutes, b.packs)
  }

  /** The sessions are settled alike: same guest, rate, status and clock. */
  ghost predicate SameSitting(s: Session, t: Session) {
    && (s.user, s.rate, s.status) == (t.user, t.rate, t.status)
    && SameClock(s, t)
  }

  lemma SettleAlike(a: Books, b: Books, zone: Option<nat>, now: int, target: int)
    requires SamePaid(a, b) && (a.session.user, a.session.rate, a.session.status) == (b.session.user, b.session.rate, b.session.status)
    ensures SamePaid(SettleMinutes(a, zone, now, target).books, SettleMinutes(b, zone, now, target).books)
    ensures SettleMinutes(a, zone, now, target).verdict == SettleMinutes(b, zone, now, target).verdict
  {
    hide Take, ListingFor, ChargeDelta, PaidMinutes;
  }

  lemma {:induction false} DrainOfNothing(rows: seq<UserPackage>, order: seq<nat>, need: nat)
    requires IdsIn(rows, order) && SumLeft(rows, order) == 0
    ensures Drain(rows, order, need) == (rows, 0)
    decreases |order|
  {
    if order != [] {
      assert Withdraw(rows, order[0], 0) == rows;
      DrainOfNothing(rows, order[1..], need);
    }
  }

  /** Settling with nothing to pay from takes nothing. */
  lemma DrySettle(b: Books, zone: Option<nat>, now: int, target: int)
    requires b.session.status == Active && b.session.rate >= 60 && b.account.balance >= 0 && Forecast(b, zone, now) == 0
    ensures SamePaid(SettleMinutes(b, zone, now, target).books, b)
  {
    hide SettleMinutes, Drain, OrderFor, SumLeft, AffordableMinutes, MostMinutes, PaidMinutes, CostForMinutes;
    if target > b.session.billed {
      SettleTakes(b, zone, now, target);
      AffordableIsMost(b.account.balance, b.session.rate, b.session.money);
      DrainOfNothing(b.packs, OrderFor(b.packs, b.session.user, zone, now), target - b.session.billed);
    } else {
      GoneChangesNothing(b, zone, now, target);
    }
  }

  lemma FinishIsSettle(b: Books, zone: Option<nat>, now: int, reason: Reason)
    requires b.account.balance >= 0
    ensures SamePaid(FinishSession(b, zone, now, reason),
                     SettleMinutes(b, zone, now, EffectiveMinutesCeil(b.session, now)).books)
    ensures b.session.status != Active ==> SamePaid(FinishSession(b, zone, now, reason), b)
  {
    hide SettleMinutes;
    GoneChangesNothing(b, zone, now, EffectiveMinutesCeil(b.session, now));
  }

  lemma FinishAlike(a: Books, b: Books, zone: Option<nat>, now: int, reason: Reason)
    requires SamePaid(a, b) && SameSitting(a.session, b.session) && a.account.balance >= 0
    ensures SamePaid(FinishSession(a, zone, now, reason), FinishSession(b, zone, now, reason))
  {
    hide SettleMinutes, FinishSession;
    FinishIsSettle(a, zone, now, reason);
    FinishIsSettle(b, zone, now, reason);
    SettleAlike(a, b, zone, now, EffectiveMinutesCeil(b.session, now));
  }

  lemma DryFinish(b: Books, zone: Option<nat>, now: int, reason: Reason)
    requires b.session.status == Active && b.session.rate >= 60 && b.account.balance >= 0 && Forecast(b, zone, now) == 0
    ensures SamePaid(FinishSession(b, zone, now, reason), b)
  {
    hide SettleMinutes, FinishSession, Forecast;
    FinishIsSettle(b, zone, now, reason);
    DrySettle(b, zone, now, EffectiveMinutesCeil(b.session, now));
  }

  /** A session that plays, at a rate where slicing is safe, and if in grace then with
      nothing to pay from by the time it will be finished. */
  ghost predicate Steady(b: Books, zone: Option<nat>, now: int) {
    && Playing(b.session) && b.account.balance >= 0
    && (b.session.rate <= 0 || b.session.rate >= 60)
    && (b.session.zeroSince.Some? ==> b.session.rate >= 60 && Forecast(b, zone, now) == 0)
  }

  lemma SameLiveForecast(b: Books, zone: Option<nat>, now1: int, now2: int)
    requires SameLive(b, zone, now1, now2)
    ensures Forecast(b, zone, now1) == Forecast(b, zone, now2)
  {
  }

  lemma FreeNeverHitsZero(b: Books, zone: Option<nat>, now: int)
    requires b.session.status == Active && b.account.balance >= 0 && b.session.rate <= 0
    ensures SettleMinutes(b, zone, now, EffectiveElapsedMinutes(b.session, now)).verdict != HitZero
  {
    hide SettleMinutes, SumLeft, OrderFor;
    ZeroIff(b, zone, now);
    FreeCharge(b.session.rate, b.session.money, ForMoney(b, zone, now, DueMinutes(b.session, now)));
  }

  /** A tick whose settlement does not hit zero, or begins a grace. */
  lemma SettledTickThenFinish(b: Books, zone: Option<nat>, t: int, now: int, zero: Option<int>, reason: Reason)
    requires Steady(b, zone, now) && t <= now && SameLive(b, zone, t, now)
    ensures var x := SettleMinutes(b, zone, t, EffectiveElapsedMinutes(b.session, t)).books;
      var r := x.(session := x.session.(zeroSince := zero));
      && SamePaid(FinishSession(r, zone, now, reason), FinishSession(b, zone, now, reason))
      && SameSitting(r.session, b.session) && r.account.balance >= 0 && SamePurchases(b.packs, r.packs)
  {
    hide SettleMinutes, FinishSession, Forecast, SameLive;
    var e, end := EffectiveElapsedMinutes(b.session, t), EffectiveMinutesCeil(b.session, now);
    SettleFrame(b, zone, t, e);
    SettleTwiceIsOnce(b, zone, t, e, now, end);
    var x := SettleMinutes(b, zone, t, e).books;
    var r := x.(session := x.session.(zeroSince := zero));
    FinishIsSettle(x, zone, now, reason);
    FinishIsSettle(b, zone, now, reason);
    FinishAlike(r, x, zone, now, reason);
  }

  /** The money part of a tick does not change what finishing will have taken. */
  lemma MoneyThenFinish(b: Books, rules: Rules, at: Sight, now: int, reason: Reason)
    requires Steady(b, at.zone, now) && at.now <= now && SameLive(b, at.zone, at.now, now)
    ensures var r := BillMoney(b, rules, at);
      && SamePaid(FinishSession(r, at.zone, now, reason), FinishSession(b, at.zone, now, reason))
      && r.account.balance >= 0
      && (r.session.status == Active ==>
            Steady(r, at.zone, now) && SameSitting(r.session, b.session) && SamePurchases(b.packs, r.packs))
  {
    hide SettleMinutes, FinishSession, Forecast, SameLive, Covered, SamePurchases;
    var zone := at.zone;
    SameLiveForecast(b, zone, at.now, now);
    SamePurchasesSelf(b.packs);
    FinishLeaves(b, zone, at.now, Balance);
    if b.session.zeroSince.Some? {
      var r := FinishSession(b, zone, at.now, Balance);
      DryFinish(b, zone, at.now, Balance);
      DryFinish(b, zone, now, reason);
      FinishIsSettle(r, zone, now, reason);
    } else {
      var o := SettleMinutes(b, zone, at.now, EffectiveElapsedMinutes(b.session, at.now));
      SettledTickThenFinish(b, zone, at.now, now, None, reason);
      SettledTickThenFinish(b, zone, at.now, now, Some(at.now), reason);
      SettleFrame(b, zone, at.now, EffectiveElapsedMinutes(b.session, at.now));
      assert o.books.(session := o.books.session.(zeroSince := None)) == o.books;
      if o.verdict == HitZero {
        ZeroThenFinish(b, at, now, reason);
      }
    }
  }

  lemma FinishLeaves(b: Books, zone: Option<nat>, now: int, reason: Reason)
    requires b.session.status == Active && b.account.balance >= 0
    ensures var r := FinishSession(b, zone, now, reason);
      r.account.balance >= 0 && r.session.status == Completed
  {
    hide SettleMinutes;
    SettleFrame(b, zone, now, EffectiveMinutesCeil(b.session, now));
  }

  /** At zero, finishing at once and finishing later take the same: nothing more. */
  lemma ZeroThenFinish(b: Books, at: Sight, now: int, reason: Reason)
    requires Steady(b, at.zone, now) && at.now <= now && SameLive(b, at.zone, at.now, now)
    requires b.session.zeroSince.None?
    requires SettleMinutes(b, at.zone, at.now, EffectiveElapsedMinutes(b.session, at.now)).verdict == HitZero
    ensures var x := SettleMinutes(b, at.zone, at.now, EffectiveElapsedMinutes(b.session, at.now)).books;
      var zero := x.(session := x.session.(zeroSince := Some(at.now)));
      var r := FinishSession(zero, at.zone, at.now, Balance);
      && Steady(zero, at.zone, now)
      && SamePaid(FinishSession(r, at.zone, now, reason), FinishSession(b, at.zone, now, reason))
      && r.account.balance >= 0 && r.session.status == Completed
  {
    hide SettleMinutes, FinishSession, Forecast, SameLive, SamePurchases;
    var zone := at.zone;
    if b.session.rate <= 0 {
      FreeNeverHitsZero(b, zone, at.now);
    }
    var target := EffectiveElapsedMinutes(b.session, at.now);
    var x := SettleMinutes(b, zone, at.now, target).books;
    var zero := x.(session := x.session.(zeroSince := Some(at.now)));
    var r := FinishSession(zero, zone, at.now, Balance);
    SettledTickThenFinish(b, zone, at.now, now, Some(at.now), reason);
    ZeroLeavesNothing(b, zone, at.now, target);
    SameMeansSameForecast(x, zero, zone, at.now);
    ForecastShrinks(zero, zone, at.now, now);
    DryFinish(zero, zone, at.now, Balance);
    DryFinish(zero, zone, now, reason);
    FinishLeaves(zero, zone, at.now, Balance);
    FinishIsSettle(r, zone, now, reason);
  }

  function TickAll(b: Books, rules: Rules, ticks: seq<Sight>): Books
    decreases |ticks|
  {
    if ticks == [] then b else TickAll(BillSession(b, rules, ticks[0]), rules, ticks[1..])
  }

  /** Ticks of a session that is being played, at moments before its end, while no
      package expires and no booking is due. */
  ghost predicate Ordinary(b: Books, rules: Rules, ticks: seq<Sight>, zone: Option<nat>, now: int) {
    forall i :: 0 <= i < |ticks| ==>
      && ticks[i].zone == zone && ticks[i].now <= now && SameLive(b, zone, ticks[i].now, now)
      && !BookingDue(rules, ticks[i]) && !Away(rules, ticks[i])
  }

  lemma ClosedStaysClosed(b: Books, rules: Rules, ticks: seq<Sight>)
    requires b.session.status != Active
    ensures TickAll(b, rules, ticks) == b
    decreases |ticks|
  {
    hide BillRunning, FinishSession;
  }

  /** One ordinary tick. */
  lemma TickThenFinish(b: Books, rules: Rules, at: Sight, now: int, reason: Reason)
    requires Steady(b, at.zone, now) && at.now <= now && SameLive(b, at.zone, at.now, now)
    requires !BookingDue(rules, at) && !Away(rules, at)
    ensures var r := BillSession(b, rules, at);
      && SamePaid(FinishSession(r, at.zone, now, reason), FinishSession(b, at.zone, now, reason))
      && r.account.balance >= 0
      && (r.session.status == Active ==>
            Steady(r, at.zone, now) && r.session.user == b.session.user && SamePurchases(b.packs, r.packs))
  {
    hide BillMoney, BillSession, FinishSession, SamePurchases, OrderFor, AffordableMinutes;
    PlayedTickIsMoney(b, rules, at);
    var back := rules.afkStop > 0 && at.idle.Some? && at.idle.value <= AFK_BACK_IDLE_SEC;
    var c := b.(session := b.session.(afkWarnedAt := if back then None else b.session.afkWarnedAt));
    SameMeansSameForecast(b, c, at.zone, now);
    MoneyThenFinish(c, rules, at, now, reason);
    FinishAlike(c, b, at.zone, now, reason);
  }

  lemma SameLiveAfter(b: Books, r: Books, zone: Option<nat>, t: int, now: int)
    requires SameLive(b, zone, t, now) && r.session.user == b.session.user && SamePurchases(b.packs, r.packs)
    ensures SameLive(r, zone, t, now)
  {
    hide SamePurchases, SpendingOrder;
    if zone.Some? {
      SamePurchasesLength(b.packs, r.packs);
      OrderIgnoresLeft(b.packs, r.packs, b.session.user, zone.value, t, |b.packs|);
      OrderIgnoresLeft(b.packs, r.packs, b.session.user, zone.value, now, |b.packs|);
    }
  }

  lemma SamePurchasesLength(rows: seq<UserPackage>, rows': seq<UserPackage>)
    requires SamePurchases(rows, rows')
    ensures |rows| == |rows'|
  {
  }

  /** Whenever the job ticks, and however long it is stopped in between, finishing the
      session leaves the guest with what finishing alone would have left him: the same
      counters, coin minutes, packages and wallet, including when the money runs out
      midway and the job itself ends the session. */
  lemma {:induction false} AnyTicksThenFinish(b: Books, rules: Rules, ticks: seq<Sight>, zone: Option<nat>, now: int, reason: Reason)
    requires Steady(b, zone, now) && Ordinary(b, rules, ticks, zone, now)
    ensures SamePaid(FinishSession(TickAll(b, rules, ticks), zone, now, reason), FinishSession(b, zone, now, reason))
    decreases |ticks|
  {
    hide FinishSession, BillSession, Steady, SameLive, SamePurchases;
    if ticks != [] {
      var r := BillSession(b, rules, ticks[0]);
      SteadyIsActive(b, zone, now);
      TickThenFinish(b, rules, ticks[0], now, reason);
      if r.session.status != Active {
        ClosedStaysClosed(r, rules, ticks[1..]);
      } else {
        forall i | 0 <= i < |ticks[1..]| ensures SameLive(r, zone, ticks[1..][i].now, now) {
          assert SameLive(b, zone, ticks[i + 1].now, now);
          SameLiveAfter(b, r, zone, ticks[i + 1].now, now);
        }
        AnyTicksThenFinish(r, rules, ticks[1..], zone, now, reason);
      }
    }
  }

  lemma SteadyIsActive(b: Books, zone: Option<nat>, now: int)
    requires Steady(b, zone, now)
    ensures b.session.status == Active
  {
  }
}
