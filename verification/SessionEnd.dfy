/** When the billing job ends a session, and when it must not. */
module SessionEnd {
  import opened Basics
  import opened Tariff
  import opened Packages
  import opened PackageSales
  import opened Wallet
  import opened Sessions
  import opened Settlement
  import opened SessionRun
  import opened SessionLedger
  import opened Slicing

  /** Minutes played and not yet billed. */
  function DueMinutes(s: Session, now: int): nat {
    Max(0, EffectiveElapsedMinutes(s, now) - s.billed)
  }

  /** A session stops at zero: the grace that an earlier tick began is over, whatever
      the guest has come by since; or there is no grace and the minutes due are not
      covered by coins, packages and wallet. */
  predicate StopsAtZero(b: Books, rules: Rules, at: Sight) {
    if b.session.zeroSince.Some? then
      at.now - b.session.zeroSince.value >= rules.zeroGrace * 60
    else
      && rules.zeroGrace <= 0
      && !Covered(b, at.zone, at.now, DueMinutes(b.session, at.now))
  }

  /** Why a tick may close a session: a booking that is due; a guest who is away
      with no pause minutes left; a session that stops at zero. */
  ghost predicate Justified(b: Books, rules: Rules, at: Sight, reason: Reason) {
    match reason
    case Booking => BookingDue(rules, at)
    case AfkStop =>
      && !BookingDue(rules, at)
      && PauseBudgetLeft(b.session, rules.pauseLimit, at.now) == 0
      && (Away(rules, at) || (b.session.pausedAt.Some? && b.session.pausedBy == Some(Afk)))
    case Balance =>
      && !BookingDue(rules, at)
      && StopsAtZero(b.(session := ResumePause(b.session, at.now)), rules, at)
    case _ => false
  }

  /** The settlement of a tick hits zero exactly when the minutes due are not covered. */
  lemma ZeroIff(b: Books, zone: Option<nat>, now: int)
    requires b.session.status == Active && b.account.balance >= 0
    ensures SettleMinutes(b, zone, now, EffectiveElapsedMinutes(b.session, now)).verdict == HitZero
       <==> !Covered(b, zone, now, DueMinutes(b.session, now))
  {
    hide SettleMinutes, Covered;
    SettledIff(b, zone, now, DueMinutes(b.session, now));
    GoneChangesNothing(b, zone, now, EffectiveElapsedMinutes(b.session, now));
    NothingDueIsSettled(b, zone, now, EffectiveElapsedMinutes(b.session, now));
    assert EffectiveElapsedMinutes(b.session, now) > b.session.billed ==>
      b.session.billed + DueMinutes(b.session, now) == EffectiveElapsedMinutes(b.session, now);
    NothingDueIsCovered(b, zone, now);
  }

  lemma NothingDueIsSettled(b: Books, zone: Option<nat>, now: int, target: int)
    ensures target <= b.session.billed ==> SettleMinutes(b, zone, now, target).verdict == Settled
  {
  }

  lemma NothingDueIsCovered(b: Books, zone: Option<nat>, now: int)
    requires b.account.balance >= 0
    ensures Covered(b, zone, now, 0)
  {
    hide SumLeft, OrderFor;
  }

  lemma FinishCloses(b: Books, zone: Option<nat>, now: int, reason: Reason)
    requires b.account.balance >= 0
    ensures var r := FinishSession(b, zone, now, reason).session;
      b.session.status == Active ==> r.status == Completed && r.endedAt == Some(now) && r.endedReason == Some(reason)
  {
    hide SettleMinutes;
    SettleFrame(b, zone, now, EffectiveMinutesCeil(b.session, now));
  }

  lemma MoneyEnds(b: Books, rules: Rules, at: Sight)
    requires b.session.status == Active && b.account.balance >= 0
    ensures var r := BillMoney(b, rules, at).session;
      if StopsAtZero(b, rules, at)
      then r.status == Completed && r.endedAt == Some(at.now) && r.endedReason == Some(Balance)
      else r.status == Active
  {
    hide SettleMinutes, FinishSession, Covered;
    ZeroIff(b, at.zone, at.now);
    FinishCloses(b, at.zone, at.now, Balance);
    SettleFrame(b, at.zone, at.now, EffectiveElapsedMinutes(b.session, at.now));
    var r := SettleMinutes(b, at.zone, at.now, EffectiveElapsedMinutes(b.session, at.now)).books;
    FinishCloses(r.(session := r.session.(zeroSince := Some(at.now))), at.zone, at.now, Balance);
  }

  /** The warning column does not enter it. */
  lemma WarningIsNotMoney(b: Books, rules: Rules, at: Sight, warned: Option<int>)
    ensures StopsAtZero(b.(session := b.session.(afkWarnedAt := warned)), rules, at) == StopsAtZero(b, rules, at)
  {
    hide SumLeft, OrderFor, ChargeDelta;
  }

  lemma RunningEnds(b: Books, rules: Rules, at: Sight)
    requires b.session.status == Active && b.account.balance >= 0 && b.session.pausedAt.None?
    ensures var r := BillRunning(b, rules, at).session;
      if Away(rules, at) then
        if PauseBudgetLeft(b.session, rules.pauseLimit, at.now) == 0
        then r.status == Completed && r.endedAt == Some(at.now) && r.endedReason == Some(AfkStop)
        else r.status == Active && r.pausedAt == Some(at.now) && r.pausedBy == Some(Afk)
      else if StopsAtZero(b, rules, at)
      then r.status == Completed && r.endedAt == Some(at.now) && r.endedReason == Some(Balance)
      else r.status == Active
  {
    hide BillMoney, FinishSession, StopsAtZero;
    var s := b.session;
    var warned := s.(afkWarnedAt := if s.afkWarnedAt.None? then Some(at.now) else s.afkWarnedAt);
    FinishCloses(b.(session := warned), at.zone, at.now, AfkStop);
    MoneyEnds(b, rules, at);
    MoneyEnds(b.(session := s.(afkWarnedAt := None)), rules, at);
    WarningIsNotMoney(b, rules, at, None);
  }

  /** A tick that ends a session records the rule that ended it, and the rule applied. */
  lemma TickEndsOnlyJustified(b: Books, rules: Rules, at: Sight)
    requires b.session.status == Active && b.account.balance >= 0
    ensures var r := BillSession(b, rules, at).session;
      r.status != Active ==>
        && r.status == Completed && r.endedAt == Some(at.now) && r.endedReason.Some?
        && !SessionWaitingReady(b.session)
        && Justified(b, rules, at, r.endedReason.value)
  {
    hide BillRunning, FinishSession, StopsAtZero;
    FinishCloses(b, at.zone, at.now, Booking);
    FinishCloses(b, at.zone, at.now, AfkStop);
    if b.session.pausedAt.None? {
      RunningEnds(b, rules, at);
    } else {
      RunningEnds(b.(session := ResumePause(b.session, at.now)), rules, at);
      ResumeKeepsBudget(b.session, rules.pauseLimit, at.now);
    }
  }

  /** Ending a pause neither gives back nor costs pause minutes. */
  lemma ResumeKeepsBudget(s: Session, limitMin: int, now: int)
    ensures PauseBudgetLeft(ResumePause(s, now), limitMin, now) == PauseBudgetLeft(s, limitMin, now)
  {
  }

  /** A due booking frees the machine at the next tick, even from a pause. */
  lemma DueBookingEndsTheSession(b: Books, rules: Rules, at: Sight)
    requires b.session.status == Active && b.account.balance >= 0
    requires !SessionWaitingReady(b.session) && BookingDue(rules, at)
    ensures var r := BillSession(b, rules, at).session;
      r.status == Completed && r.endedAt == Some(at.now) && r.endedReason == Some(Booking)
  {
    FinishCloses(b, at.zone, at.now, Booking);
  }

  /** A running session with its guest at the keyboard and no booking due ends at a
      tick exactly when it stops at zero: at the end of a grace begun earlier, or with
      no grace when more is due than the forecast. */
  lemma PlayedSessionEndsIff(b: Books, rules: Rules, at: Sight)
    requires b.session.status == Active && b.account.balance >= 0
    requires !SessionWaitingReady(b.session) && b.session.pausedAt.None?
    requires !BookingDue(rules, at) && !Away(rules, at)
    ensures var s := b.session;
      var ends := BillSession(b, rules, at).session.status == Completed;
      && (ends <==> StopsAtZero(b, rules, at))
      && (s.rate >= 60 ==> (ends <==>
            if s.zeroSince.Some? then at.now - s.zeroSince.value >= rules.zeroGrace * 60
            else rules.zeroGrace <= 0 && DueMinutes(s, at.now) > Forecast(b, at.zone, at.now)))
  {
    hide BillRunning, Covered, Forecast, SettleMinutes;
    RunningEnds(b, rules, at);
    SettledIff(b, at.zone, at.now, DueMinutes(b.session, at.now));
    ForecastIsExactIff(b, at.zone, at.now);
  }

  // The grace outlives an empty wallet.

  const TwoMinutesGrace := Rules(2, 0, 0, 0)

  /** A guest without anything, playing at zone 1 for 60 grosz an hour since time 0. */
  const Penniless := Seated(0, 0, 60, 0, Some(1), 0, NewAccount, 0, [])

  /** Five hours of zone 1, paid at the counter. */
  const FiveHours := NewPackage(0, Offer(1, 300, 3000, 0), false, 61)

  const BoughtInGrace := Run(Penniless, TwoMinutesGrace, [Tick(60, None, None), BuyPackage(61, FiveHours)])

  lemma PennilessHitsZero()
    ensures Step(Penniless, TwoMinutesGrace, Tick(60, None, None)).books
         == Penniless.books.(session := Penniless.books.session.(zeroSince := Some(60)))
  {
    hide SettleMinutes;
    NothingToPayWith(Penniless.books, Some(1), 60);
    assert EffectiveElapsedMinutes(Penniless.books.session, 60) == 1;
  }

  lemma PackageComesInGrace()
    ensures BoughtInGrace.books
         == Penniless.books.(session := Penniless.books.session.(zeroSince := Some(60)), packs := [FiveHours])
  {
    hide Run, BillSession;
    PennilessHitsZero();
    RunOfTwo(Penniless, TwoMinutesGrace, Tick(60, None, None), BuyPackage(61, FiveHours));
  }

  lemma FiveHoursAreLive(now: int)
    ensures SumLeft([FiveHours], OrderFor([FiveHours], 0, Some(1), now)) == 300
  {
    hide Insert;
    LivePackMinutes([FiveHours], 0, 1, now, 1);
    SumByAppend(LiveLeft(0, 1, now), [], FiveHours);
    assert [FiveHours][..1] == [] + [FiveHours];
    assert LiveLeft(0, 1, now)(FiveHours) == 300;
  }

  /** Seated at zone 1 with nothing, at zero after a minute, the guest buys five hours
      of that zone; two minutes after the zero the session is closed for want of money,
      with five hours to pay from. */
  lemma GraceClosesAPaidSession()
    ensures var b := BoughtInGrace.books;
      && b.session.status == Active && b.session.zeroSince == Some(60)
      && Forecast(b, Some(1), 180) == 300
      && BillSession(b, TwoMinutesGrace, Sight(180, Some(1), None, None)).session.endedReason == Some(Balance)
  {
    hide BillRunning, FinishSession, SumLeft, OrderFor, Run, Covered;
    PackageComesInGrace();
    FiveHoursAreLive(180);
    RunningEnds(BoughtInGrace.books, TwoMinutesGrace, Sight(180, Some(1), None, None));
  }

  lemma RunOfTwo(w: World, rules: Rules, first: Event, second: Event)
    ensures Run(w, rules, [first, second]) == Step(Step(w, rules, first), rules, second)
  {
    hide Step;
    var next := Step(w, rules, first);
    assert [first, second][1..] == [second] && [second][1..] == [];
    assert Run(next, rules, [second]) == Run(Step(next, rules, second), rules, [second][1..]);
    assert Run(w, rules, [first, second]) == Run(next, rules, [first, second][1..]);
    assert Run(Step(next, rules, second), rules, []) == Step(next, rules, second);
  }

  lemma NothingToPayWith(b: Books, zone: Option<nat>, now: int)
    requires b.packs == [] && b.coinMinutes == 0 && b.account == NewAccount
    requires b.session.status == Active && b.session.rate == 60 && b.session.money == 0 && b.session.billed == 0
    ensures SettleMinutes(b, zone, now, 1) == Outcome(b, HitZero)
  {
    assert ListingFor(b.packs, b.session.user, zone, now) == [];
    assert Take(b.packs, [], 1) == (b.packs, 0);
  }

  /** While a guest is seated but not ready, and while the grace at zero runs, a
      tick takes nothing: no minute, no package, no grosz. */
  lemma WaitingAndGraceAreFree(b: Books, rules: Rules, at: Sight)
    requires b.session.status == Active
    requires SessionWaitingReady(b.session)
      || (b.session.zeroSince.Some? && b.session.pausedAt.None? && !BookingDue(rules, at) && !Away(rules, at)
          && !StopsAtZero(b, rules, at))
    ensures var r := BillSession(b, rules, at);
      && r.session.status == Active && r.session.billed == b.session.billed && r.session.charged == b.session.charged
      && (r.account, r.coinMinutes, r.packs) == (b.account, b.coinMinutes, b.packs)
  {
  }

  /** Waiting is free for ticks only: whoever ends a session that still waits for its
      guest settles it from the seating on. Nothing is taken exactly when no second has
      passed, or the guest has no coin minutes, no live package and not the price of a
      minute. */
  lemma FinishWhileWaitingIsFreeIff(b: Books, id: nat, user: nat, rate: int, seatedAt: int, waitMin: int,
                                    zone: Option<nat>, now: int, reason: Reason)
    requires b.session == Seat(id, user, rate, seatedAt, waitMin) && waitMin > 0 && b.account.balance >= 0
    ensures var r := FinishSession(b, zone, now, reason);
      && (r.session.billed == 0 <==>
            || now <= seatedAt
            || (b.coinMinutes == 0 && SumLeft(b.packs, OrderFor(b.packs, user, zone, now)) == 0
                && rate > 0 && b.account.balance < CostForMinutes(rate, 1)))
      && (r.session.billed == 0 ==>
            r.account.balance == b.account.balance && r.coinMinutes == b.coinMinutes
            && SumBy(LeftOf, r.packs) == SumBy(LeftOf, b.packs))
  {
    hide SettleMinutes, SumLeft, OrderFor, Drain, PaidMinutes, CostForMinutes, MostMinutes;
    var target := EffectiveMinutesCeil(b.session, now);
    assert target > 0 <==> now > seatedAt;
    if target > 0 {
      SettleTakes(b, zone, now, target);
      var coin := Min(target, b.coinMinutes);
      var pack := Min(target - coin, SumLeft(b.packs, OrderFor(b.packs, user, zone, now)));
      if target - coin - pack > 0 {
        NothingPaidIff(b.account.balance, rate, target - coin - pack);
      }
      NothingChargedForNothing(rate);
    } else {
      GoneChangesNothing(b, zone, now, target);
    }
  }

  lemma NothingChargedForNothing(rate: int)
    ensures ChargeDelta(rate, 0, 0) == 0
  {
  }

  /** Five minutes into a window of seven, at sixty zloty an hour, ending takes five
      zloty. */
  lemma FinishWhileWaitingCharges()
    ensures var b := Books(Seat(0, 0, 6000, 0, 7), Account(2000, [Entry(Deposit, 2000, 2000, 0)]), 0, []);
      var r := FinishSession(b, None, 300, Manual);
      SessionWaitingReady(b.session) && r.session.billed == 5 && r.account.balance == 1500
  {
    hide SettleMinutes;
    var b := Books(Seat(0, 0, 6000, 0, 7), Account(2000, [Entry(Deposit, 2000, 2000, 0)]), 0, []);
    assert EffectiveSeconds(b.session, 300) == 300;
    assert EffectiveMinutesCeil(b.session, 300) == 5;
    assert WithCounters(b.session, CountersOf(b.session)) == b.session;
    assert CostForMinutes(6000, 5) == 500;
    MoneySettles(b, CountersOf(b.session), None, 300, 5);
    SettleFromStored(b, None, 300, 5);
  }
}
