/** The grace at zero over whole runs: a guest in grace has nothing to pay from,
    unless something came to him since that does not end the grace. */
module Grace {
  import opened Basics
  import opened Tariff
  import opened Packages
  import opened PackageSales
  import opened Wallet
  import opened Sessions
  import opened Settlement
  import opened SessionRun
  import opened Slicing
  import opened Playtime
  import opened SessionEnd

  /** The guest can pay from the same means. */
  ghost predicate SameMeans(a: Books, b: Books) {
    && (a.session.user, a.session.rate, a.session.money) == (b.session.user, b.session.rate, b.session.money)
    && (a.coinMinutes, a.packs, a.account.balance) == (b.coinMinutes, b.packs, b.account.balance)
  }

  lemma SameMeansSameForecast(a: Books, b: Books, zone: Option<nat>, now: int)
    requires SameMeans(a, b)
    ensures Forecast(a, zone, now) == Forecast(b, zone, now)
  {
  }

  /** Time only takes packages away. */
  lemma ForecastShrinks(b: Books, zone: Option<nat>, now: int, later: int)
    requires now <= later
    ensures 0 <= Forecast(b, zone, later) <= Forecast(b, zone, now)
  {
    hide AffordableMinutes;
    if zone.Some? {
      var user := b.session.user;
      LivePackMinutes(b.packs, user, zone.value, now, |b.packs|);
      LivePackMinutes(b.packs, user, zone.value, later, |b.packs|);
      assert b.packs[..|b.packs|] == b.packs;
      SumByAtMost(LiveLeft(user, zone.value, later), LiveLeft(user, zone.value, now), b.packs);
    }
  }

  /** A payment or a refused one leaves no more to pay from. */
  lemma PayingShrinks(b: Books, op: Op, zone: Option<nat>, now: int)
    requires b.session.rate >= 60 && b.account.balance >= 0 && op.amount <= 0
    ensures Forecast(b.(account := Pay(b.account, op)), zone, now) <= Forecast(b, zone, now)
  {
    hide AffordableMinutes, MostMinutes, SumLeft, OrderFor;
    var s, balance := b.session, b.account.balance;
    var less := Pay(b.account, op).balance;
    AffordableIsMost(balance, s.rate, s.money);
    AffordableIsMost(less, s.rate, s.money);
    MoreFundsMoreMinutes(less, balance, s.rate, s.money);
  }

  lemma MoreFundsMoreMinutes(less: nat, more: nat, rate: int, already: nat)
    requires rate > 0 && less <= more
    ensures MostMinutes(less, rate, already) <= MostMinutes(more, rate, already)
  {
    var k := MostMinutes(less, rate, already);
    QuotientBound(Funds(less, rate, already), rate, k);
    QuotientBound(Funds(more, rate, already), rate, k);
  }

  /** A settlement that hits zero leaves nothing to pay from. */
  lemma ZeroLeavesNothing(b: Books, zone: Option<nat>, now: int, target: int)
    requires b.session.status == Active && b.session.rate >= 60 && b.account.balance >= 0
    ensures var r := SettleMinutes(b, zone, now, target);
      r.verdict == HitZero ==> Forecast(r.books, zone, now) == 0
  {
    hide SettleMinutes, Drain, SumLeft, ChargeDelta, MostMinutes, AffordableMinutes, PaidMinutes, OrderFor;
    NothingDueIsSettled(b, zone, now, target);
    if target > b.session.billed && SettleMinutes(b, zone, now, target).verdict == HitZero {
      var s, wallet := b.session, b.account.balance;
      var order := OrderFor(b.packs, s.user, zone, now);
      SettleTakes(b, zone, now, target);
      var r := SettleMinutes(b, zone, now, target).books;
      var pay := r.session.money - s.money;
      MostMinutesAfter(wallet, s.rate, s.money, pay);
      AffordableIsMost(r.account.balance, s.rate, r.session.money);
      NothingLeftInPackages(b.packs, s.user, zone, now, target - s.billed - b.coinMinutes);
    }
  }

  lemma NothingLeftInPackages(packs: seq<UserPackage>, user: nat, zone: Option<nat>, now: int, need: nat)
    ensures var order := OrderFor(packs, user, zone, now);
      var left := Drain(packs, order, need).0;
      need >= SumLeft(packs, order) ==> SumLeft(left, OrderFor(left, user, zone, now)) == 0
  {
    hide Drain, SumLeft, SpendingOrder;
    var order := OrderFor(packs, user, zone, now);
    OrderForIsDistinct(packs, user, zone, now);
    var left := Drain(packs, order, need).0;
    DrainDraws(packs, order, need);
    if zone.Some? {
      OrderIgnoresLeft(packs, left, user, zone.value, now, |packs|);
    }
    var more := SumLeft(left, order);
    DrainTwice(packs, order, need, more);
    DrainDraws(left, order, more);
    DrainDraws(packs, order, need + more);
  }

  // What one tick does.

  /** After a tick a session in grace has the means it had, or, if the grace has just
      begun, none. */
  ghost predicate GraceTick(b: Books, r: Books, zone: Option<nat>, now: int) {
    r.session.status == Active && r.session.zeroSince.Some? ==>
      if b.session.zeroSince.Some? then SameMeans(b, r) else Forecast(r, zone, now) == 0
  }

  lemma MoneyTick(b: Books, rules: Rules, at: Sight)
    requires b.session.status == Active && b.session.rate >= 60 && b.account.balance >= 0
    ensures GraceTick(b, BillMoney(b, rules, at), at.zone, at.now)
  {
    hide SettleMinutes, FinishSession, Forecast;
    FinishCloses(b, at.zone, at.now, Balance);
    var target := EffectiveElapsedMinutes(b.session, at.now);
    SettleFrame(b, at.zone, at.now, target);
    ZeroLeavesNothing(b, at.zone, at.now, target);
    var r := SettleMinutes(b, at.zone, at.now, target).books;
    var zero := r.(session := r.session.(zeroSince := Some(at.now)));
    FinishCloses(zero, at.zone, at.now, Balance);
    SameMeansSameForecast(r, zero, at.zone, at.now);
  }

  lemma RunningTick(b: Books, rules: Rules, at: Sight)
    requires b.session.status == Active && b.session.rate >= 60 && b.account.balance >= 0
    ensures GraceTick(b, BillRunning(b, rules, at), at.zone, at.now)
  {
    hide BillMoney, FinishSession, Forecast;
    var s := b.session;
    var warned := s.(afkWarnedAt := if s.afkWarnedAt.None? then Some(at.now) else s.afkWarnedAt);
    FinishCloses(b.(session := warned), at.zone, at.now, AfkStop);
    MoneyTick(b, rules, at);
    MoneyTick(b.(session := s.(afkWarnedAt := None)), rules, at);
  }

  lemma BillTick(b: Books, rules: Rules, at: Sight)
    requires b.session.status == Active && b.session.rate >= 60 && b.account.balance >= 0
    ensures GraceTick(b, BillSession(b, rules, at), at.zone, at.now)
  {
    hide BillRunning, FinishSession, Forecast;
    FinishCloses(b, at.zone, at.now, Booking);
    FinishCloses(b, at.zone, at.now, AfkStop);
    RunningTick(b, rules, at);
    RunningTick(b.(session := ResumePause(b.session, at.now)), rules, at);
  }

  // Runs.

  /** Something came to the guest in grace that did not end it: a package, another
      zone, or money that is not a deposit. */
  function Renewed(w: World, rules: Rules, e: Event, renewed: bool): bool {
    && w.books.session.zeroSince.Some?
    && Step(w, rules, e).books.session.zeroSince.Some?
    && (renewed || e.BuyPackage? || e.Move? || (e.PayOther? && e.sum > 0))
  }

  function RunRenewed(w: World, rules: Rules, events: seq<Event>, renewed: bool): bool
    decreases |events|
  {
    if events == [] then renewed
    else RunRenewed(Step(w, rules, events[0]), rules, events[1..], Renewed(w, rules, events[0], renewed))
  }

  /** A session in grace has nothing to pay from, unless renewed. */
  ghost predicate DryUnless(w: World, renewed: bool) {
    && WorldSound(w)
    && (w.books.session.status == Active ==> w.books.session.rate >= 60)
    && (w.books.session.status == Active && w.books.session.zeroSince.Some? && !renewed ==>
          Forecast(w.books, w.zone, w.now) == 0)
  }

  /** Seating, ready, pauses and payments leave rate and grace to the session. */
  lemma StepKeepsRate(b: Books, zone: Option<nat>, rules: Rules, e: Event)
    requires b.account.balance >= 0
    ensures var r := Effect(b, zone, rules, e).session;
      r.rate == b.session.rate && (r.status == Active ==> b.session.status == Active)
  {
    hide SettleMinutes, BillRunning, IssuePackage, Pay;
    FinishKeepsRate(b, zone, e.now);
    if e.Tick? {
      var at := Sight(e.now, zone, e.foreignBooking, e.idle);
      RunningKeepsRate(b, rules, at);
      RunningKeepsRate(b.(session := ResumePause(b.session, at.now)), rules, at);
    }
  }

  lemma FinishKeepsRate(b: Books, zone: Option<nat>, now: int)
    requires b.account.balance >= 0
    ensures forall reason :: FinishSession(b, zone, now, reason).session.rate == b.session.rate
    ensures forall target {:trigger SettleMinutes(b, zone, now, target)} ::
      var r := SettleMinutes(b, zone, now, target).books;
      r.session.rate == b.session.rate && r.account.balance >= 0
  {
    hide SettleMinutes;
    forall target ensures
      var r := SettleMinutes(b, zone, now, target).books;
      r.session.rate == b.session.rate && r.account.balance >= 0
    {
      SettleFrame(b, zone, now, target);
    }
  }

  lemma RunningKeepsRate(b: Books, rules: Rules, at: Sight)
    requires b.account.balance >= 0
    ensures BillRunning(b, rules, at).session.rate == b.session.rate
  {
    hide SettleMinutes, FinishSession;
    var s := b.session;
    var warned := s.(afkWarnedAt := if s.afkWarnedAt.None? then Some(at.now) else s.afkWarnedAt);
    FinishKeepsRate(b.(session := warned), at.zone, at.now);
    var c := b.(session := s.(afkWarnedAt := None));
    FinishKeepsRate(b, at.zone, at.now);
    FinishKeepsRate(c, at.zone, at.now);
    var target := EffectiveElapsedMinutes(s, at.now);
    var r1, r2 := SettleMinutes(b, at.zone, at.now, target).books, SettleMinutes(c, at.zone, at.now, target).books;
    FinishKeepsRate(r1.(session := r1.session.(zeroSince := Some(at.now))), at.zone, at.now);
    FinishKeepsRate(r2.(session := r2.session.(zeroSince := Some(at.now))), at.zone, at.now);
  }

  lemma StepKeepsDry(w: World, rules: Rules, e: Event, renewed: bool)
    requires DryUnless(w, renewed) && w.now <= e.now
    ensures DryUnless(Step(w, rules, e), Renewed(w, rules, e, renewed))
  {
    hide Effect, Forecast, ClockSound, ClockStep;
    var b := w.books;
    StepKeepsSound(w, rules, e);
    StepKeepsRate(b, w.zone, rules, e);
    ForecastShrinks(b, w.zone, w.now, e.now);
    if b.session.status == Active {
      EffectKeepsDry(b, w.zone, rules, e);
      ForecastShrinks(Effect(b, w.zone, rules, e), w.zone, e.now, e.now);
    }
  }

  /** An active session stays dry, in one step, or something came. */
  lemma EffectKeepsDry(b: Books, zone: Option<nat>, rules: Rules, e: Event)
    requires b.session.status == Active && b.session.rate >= 60 && b.account.balance >= 0
    ensures var r := Effect(b, zone, rules, e);
      r.session.status == Active && r.session.zeroSince.Some?
        && !(b.session.zeroSince.Some? && (e.BuyPackage? || e.Move? || (e.PayOther? && e.sum > 0))) ==>
        if b.session.zeroSince.Some? then Forecast(r, zone, e.now) <= Forecast(b, zone, e.now)
        else Forecast(r, zone, e.now) == 0
    ensures e.Move? ==> Effect(b, zone, rules, e) == b
  {
    hide BillSession, FinishSession, Forecast, IssuePackage, Pay, PauseBudgetLeft;
    var r := Effect(b, zone, rules, e);
    match e
    case Tick(now, foreignBooking, idle) =>
      BillTick(b, rules, Sight(now, zone, foreignBooking, idle));
      if SameMeans(b, r) {
        SameMeansSameForecast(b, r, zone, now);
      }
    case Finish(now, reason) => FinishCloses(b, zone, now, reason);
    case PayOther(now, kind, sum) => PayingShrinks(b, Op(kind, Min(sum, 0), 0), zone, now);
    case BuyPackage(_, _) =>
    case Move(_, _) =>
    case TopUp(_, _) =>
    case Redeem(_, _) =>
    case _ =>
      if SameMeans(b, r) {
        SameMeansSameForecast(b, r, zone, e.now);
      }
  }

  /** Over every run from 60 grosz an hour: an active session in grace has a forecast of
      zero, unless a package was bought, the guest was moved, or money other than a
      deposit came to him since the grace began. */
  lemma {:induction false} GraceMeansNothingLeft(w: World, rules: Rules, events: seq<Event>, renewed: bool)
    requires DryUnless(w, renewed) && InTime(w.now, events)
    ensures DryUnless(Run(w, rules, events), RunRenewed(w, rules, events, renewed))
    decreases |events|
  {
    hide DryUnless, Step;
    if events != [] {
      StepKeepsDry(w, rules, events[0], renewed);
      StepMovesClock(w, rules, events[0]);
      GraceMeansNothingLeft(Step(w, rules, events[0]), rules, events[1..], Renewed(w, rules, events[0], renewed));
    }
  }

  lemma StepMovesClock(w: World, rules: Rules, e: Event)
    ensures Step(w, rules, e).now == e.now
  {
    hide Effect;
  }

  /** So, from seating on, a tick that ends a session for want of money finds nothing
      to pay from, or less than is due; unless something came that did not end the grace. */
  lemma EndAtZeroIsTrue(id: nat, user: nat, rate: int, waitMin: int, zone: Option<nat>, now: int, account: Account,
                        coinMinutes: nat, packs: seq<UserPackage>, rules: Rules, events: seq<Event>, e: Event)
    requires rate >= 60 && account.balance >= 0 && e.Tick?
    requires var start := Seated(id, user, rate, waitMin, zone, now, account, coinMinutes, packs);
      InTime(now, events) && Run(start, rules, events).now <= e.now
    ensures var start := Seated(id, user, rate, waitMin, zone, now, account, coinMinutes, packs);
      var w := Run(start, rules, events);
      var s := ResumePause(w.books.session, e.now);
      w.books.session.status == Active && Step(w, rules, e).books.session.endedReason == Some(Balance)
        && Step(w, rules, e).books.session.status == Completed ==>
        || RunRenewed(start, rules, events, false)
        || (w.books.session.zeroSince.Some? && Forecast(w.books, w.zone, e.now) == 0)
        || DueMinutes(s, e.now) > Forecast(w.books, w.zone, e.now)
  {
    hide BillSession, Forecast, Covered, PaidInFull;
    var start := Seated(id, user, rate, waitMin, zone, now, account, coinMinutes, packs);
    var w := Run(start, rules, events);
    SeatedIsSound(id, user, rate, waitMin, zone, now, account, coinMinutes, packs);
    GraceMeansNothingLeft(start, rules, events, false);
    if w.books.session.status == Active {
      var at := Sight(e.now, w.zone, e.foreignBooking, e.idle);
      TickEndsOnlyJustified(w.books, rules, at);
      ForecastShrinks(w.books, w.zone, w.now, e.now);
      var resumed := w.books.(session := ResumePause(w.books.session, e.now));
      SettledIff(resumed, w.zone, e.now, DueMinutes(resumed.session, e.now));
      ForecastIsExactIff(resumed, w.zone, e.now);
      SameMeansSameForecast(resumed, w.books, w.zone, e.now);
    }
  }
}
