/** A tick as it is run: on a copy of the session that the sweep read, with conditional
    updates of the row, and with a clock of its own for finishing. */
module LateTick {
  import opened Basics
  import opened Tariff
  import opened Packages
  import opened Wallet
  import opened Sessions
  import opened Settlement
  import opened SessionRun
  import opened SessionLedger

  /** The final settlement by a caller who read the session earlier, and the closing of
      the row if it is still open. */
  function FinishFrom(b: Books, read: Session, zone: Option<nat>, now: int, reason: Reason): Books {
    var settled := SettleFrom(b, CountersOf(read), zone, now, EffectiveMinutesCeil(read, now)).books;
    settled.(session := Close(settled.session, now, reason))
  }

  /** The end of a pause: the total is computed from the copy, and written if the row is
      on pause. */
  function ResumeFrom(s: Session, read: Session, now: int): Session {
    if s.pausedAt.None? || read.pausedAt.None? then s
    else s.(pausedAt := None, pausedBy := None, pausedTotal := read.pausedTotal + (now - read.pausedAt.value))
  }

  /** One tick at `at.now` for a session read as `read`; should it finish the session,
      it reads the clock again as `end`. */
  function BillFrom(b: Books, read: Session, rules: Rules, at: Sight, end: int): Books {
    if read.status != Active then b
    else if SessionWaitingReady(read) then
      if at.now < read.readyDeadline.value then b
      else b.(session := ConfirmReady(b.session, read.readyDeadline.value))
    else if BookingDue(rules, at) then FinishFrom(b, read, at.zone, end, Booking)
    else if read.pausedAt.None? then RunningFrom(b, read, rules, at, end)
    else if read.pausedBy == Some(Afk) && at.idle.Some? && at.idle.value <= AFK_BACK_IDLE_SEC then
      RunningFrom(b.(session := ResumeFrom(b.session, read, at.now)), ResumePause(read, at.now), rules, at, end)
    else if PauseBudgetLeft(read, rules.pauseLimit, at.now) > 0 then b
    else if read.pausedBy == Some(Afk) then FinishFrom(b, read, at.zone, end, AfkStop)
    else RunningFrom(b.(session := ResumeFrom(b.session, read, at.now)), ResumePause(read, at.now), rules, at, end)
  }

  function RunningFrom(b: Books, read: Session, rules: Rules, at: Sight, end: int): Books {
    if Away(rules, at) then
      var warned := b.(session := b.session.(afkWarnedAt :=
        if read.afkWarnedAt.None? then Some(at.now) else b.session.afkWarnedAt));
      if rules.pauseLimit > 0 && PauseBudgetLeft(read, rules.pauseLimit, at.now) > 0 then
        warned.(session := StartPause(warned.session, at.now, Afk))
      else
        FinishFrom(warned, read, at.zone, end, AfkStop)
    else
      var back := rules.afkStop > 0 && at.idle.Some? && at.idle.value <= AFK_BACK_IDLE_SEC && read.afkWarnedAt.Some?;
      MoneyFrom(b.(session := b.session.(afkWarnedAt := if back then None else b.session.afkWarnedAt)), read, rules, at, end)
  }

  function MoneyFrom(b: Books, read: Session, rules: Rules, at: Sight, end: int): Books {
    if read.zeroSince.Some? then
      if at.now - read.zeroSince.value >= rules.zeroGrace * 60 then FinishFrom(b, read, at.zone, end, Balance) else b
    else
      var r := SettleFrom(b, CountersOf(read), at.zone, at.now, EffectiveElapsedMinutes(read, at.now));
      if r.verdict != HitZero then r.books
      else
        var zero := r.books.(session := r.books.session.(zeroSince := Some(at.now)));
        if rules.zeroGrace <= 0
        then FinishFrom(zero, WithCounters(read, CountersOf(zero.session)), at.zone, end, Balance)
        else zero
  }

  // With a fresh copy it is the tick itself.

  lemma FinishFromStored(b: Books, read: Session, zone: Option<nat>, now: int, reason: Reason)
    requires CountersOf(read) == CountersOf(b.session)
    requires EffectiveMinutesCeil(read, now) == EffectiveMinutesCeil(b.session, now)
    ensures FinishFrom(b, read, zone, now, reason) == FinishSession(b, zone, now, reason)
  {
    hide SettleFrom, SettleMinutes;
    SettleFromStored(b, zone, now, EffectiveMinutesCeil(b.session, now));
  }

  lemma MoneyFromStored(b: Books, read: Session, rules: Rules, at: Sight)
    requires read == b.session.(afkWarnedAt := read.afkWarnedAt)
    ensures MoneyFrom(b, read, rules, at, at.now) == BillMoney(b, rules, at)
  {
    hide SettleFrom, SettleMinutes, FinishFrom, FinishSession;
    FinishFromStored(b, read, at.zone, at.now, Balance);
    SettleFromStored(b, at.zone, at.now, EffectiveElapsedMinutes(read, at.now));
    SettleKeepsClock(b, at.zone, at.now, EffectiveElapsedMinutes(read, at.now));
    var r := SettleMinutes(b, at.zone, at.now, EffectiveElapsedMinutes(read, at.now)).books;
    var zero := r.(session := r.session.(zeroSince := Some(at.now)));
    FinishFromStored(zero, WithCounters(read, CountersOf(zero.session)), at.zone, at.now, Balance);
  }

  lemma SettleKeepsClock(b: Books, zone: Option<nat>, now: int, target: int)
    ensures var s := SettleMinutes(b, zone, now, target).books.session;
      s == WithCounters(b.session, CountersOf(s))
  {
    hide Take, ListingFor, ChargeDelta, PaidMinutes;
  }

  lemma RunningFromStored(b: Books, rules: Rules, at: Sight)
    ensures RunningFrom(b, b.session, rules, at, at.now) == BillRunning(b, rules, at)
  {
    hide MoneyFrom, BillMoney, FinishFrom, FinishSession;
    var s := b.session;
    var warned := b.(session := s.(afkWarnedAt := if s.afkWarnedAt.None? then Some(at.now) else s.afkWarnedAt));
    FinishFromStored(warned, s, at.zone, at.now, AfkStop);
    MoneyFromStored(b, s, rules, at);
    MoneyFromStored(b.(session := s.(afkWarnedAt := None)), s, rules, at);
    assert b.(session := s.(afkWarnedAt := s.afkWarnedAt)) == b;
  }

  /** A tick that has just read the row, and finishes without delay, is the tick of the
      session's life. */
  lemma BillFromStored(b: Books, rules: Rules, at: Sight)
    ensures BillFrom(b, b.session, rules, at, at.now) == BillSession(b, rules, at)
  {
    hide RunningFrom, BillRunning, FinishFrom, FinishSession;
    FinishFromStored(b, b.session, at.zone, at.now, Booking);
    FinishFromStored(b, b.session, at.zone, at.now, AfkStop);
    RunningFromStored(b, rules, at);
    RunningFromStored(b.(session := ResumePause(b.session, at.now)), rules, at);
  }

  // Whatever the copy, and however late.

  lemma FinishFromKeepsBalanced(b: Books, read: Session, zone: Option<nat>, now: int, reason: Reason)
    requires Balanced(b) && Sane(CountersOf(read), b.session.rate) && read.charged == b.session.charged
    ensures Balanced(FinishFrom(b, read, zone, now, reason))
  {
    hide Balanced, SettleFrom, Sane;
    SettleFromKeepsBalancedIff(b, CountersOf(read), zone, now, EffectiveMinutesCeil(read, now));
    var settled := SettleFrom(b, CountersOf(read), zone, now, EffectiveMinutesCeil(read, now)).books;
    BalancedIgnoresClock(settled, Close(settled.session, now, reason));
  }

  lemma SettledIsSane(b: Books)
    requires Balanced(b)
    ensures Sane(CountersOf(b.session), b.session.rate)
  {
    hide Explained;
  }

  lemma MoneyFromKeepsBalanced(b: Books, read: Session, rules: Rules, at: Sight, end: int)
    requires Balanced(b) && Sane(CountersOf(read), b.session.rate) && read.charged == b.session.charged
    ensures Balanced(MoneyFrom(b, read, rules, at, end))
  {
    hide Balanced, SettleFrom, Sane, FinishFrom;
    FinishFromKeepsBalanced(b, read, at.zone, end, Balance);
    SettleFromKeepsBalancedIff(b, CountersOf(read), at.zone, at.now, EffectiveElapsedMinutes(read, at.now));
    var r := SettleFrom(b, CountersOf(read), at.zone, at.now, EffectiveElapsedMinutes(read, at.now)).books;
    var zero := r.(session := r.session.(zeroSince := Some(at.now)));
    BalancedIgnoresClock(r, zero.session);
    SettledIsSane(zero);
    FinishFromKeepsBalanced(zero, WithCounters(read, CountersOf(zero.session)), at.zone, end, Balance);
  }

  lemma RunningFromKeepsBalanced(b: Books, read: Session, rules: Rules, at: Sight, end: int)
    requires Balanced(b) && Sane(CountersOf(read), b.session.rate) && read.charged == b.session.charged
    ensures Balanced(RunningFrom(b, read, rules, at, end))
  {
    hide Balanced, Sane, FinishFrom, MoneyFrom;
    var s := b.session;
    var warned := s.(afkWarnedAt := if read.afkWarnedAt.None? then Some(at.now) else s.afkWarnedAt);
    BalancedIgnoresClock(b, warned);
    BalancedIgnoresClock(b, StartPause(warned, at.now, Afk));
    FinishFromKeepsBalanced(b.(session := warned), read, at.zone, end, AfkStop);
    BalancedIgnoresClock(b, s.(afkWarnedAt := None));
    MoneyFromKeepsBalanced(b.(session := s.(afkWarnedAt := None)), read, rules, at, end);
    MoneyFromKeepsBalanced(b, read, rules, at, end);
    assert b.(session := s.(afkWarnedAt := s.afkWarnedAt)) == b;
  }

  /** A tick on an old copy keeps the session's ledger as long as nothing was charged
      since the copy was read, whatever else has changed. */
  lemma BillFromKeepsBalanced(b: Books, read: Session, rules: Rules, at: Sight, end: int)
    requires Balanced(b) && Sane(CountersOf(read), b.session.rate) && read.charged == b.session.charged
    ensures Balanced(BillFrom(b, read, rules, at, end))
  {
    hide Balanced, Sane, FinishFrom, RunningFrom;
    var s := b.session;
    FinishFromKeepsBalanced(b, read, at.zone, end, Booking);
    FinishFromKeepsBalanced(b, read, at.zone, end, AfkStop);
    RunningFromKeepsBalanced(b, read, rules, at, end);
    if read.readyDeadline.Some? {
      BalancedIgnoresClock(b, ConfirmReady(s, read.readyDeadline.value));
    }
    var resumed := ResumeFrom(s, read, at.now);
    BalancedIgnoresClock(b, resumed);
    RunningFromKeepsBalanced(b.(session := resumed), ResumePause(read, at.now), rules, at, end);
  }

  /** The verdict on the grace is the copy's. A session read in grace is closed exactly
      when the grace it was read with is over: a deposit that came after the reading,
      and has ended the grace on the row, does not save it. */
  lemma LateVerdictIff(b: Books, read: Session, rules: Rules, at: Sight, end: int)
    requires b.session.status == Active
    requires read.status == Active && !SessionWaitingReady(read) && read.pausedAt.None? && read.zeroSince.Some?
    requires !BookingDue(rules, at) && !Away(rules, at)
    ensures BillFrom(b, read, rules, at, end).session.status == Completed
       <==> at.now - read.zeroSince.value >= rules.zeroGrace * 60
  {
    hide SettleFrom;
    var back := rules.afkStop > 0 && at.idle.Some? && at.idle.value <= AFK_BACK_IDLE_SEC && read.afkWarnedAt.Some?;
    var c := b.(session := b.session.(afkWarnedAt := if back then None else b.session.afkWarnedAt));
    SettleFromKeepsStatus(c, CountersOf(read), at.zone, end, EffectiveMinutesCeil(read, end));
  }

  lemma SettleFromKeepsStatus(b: Books, seen: Counters, zone: Option<nat>, now: int, target: int)
    ensures SettleFrom(b, seen, zone, now, target).books.session.status == b.session.status
  {
    hide SettleMinutes;
    SettleKeepsClock(b.(session := WithCounters(b.session, seen)), zone, now, target);
  }
}
