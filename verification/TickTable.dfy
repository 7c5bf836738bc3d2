/** What every step of a session's life writes, situation by situation, in the columns
    of the row: ticks of the billing job, seating, buttons, money that comes. */
module TickTable {
  import opened Basics
  import opened Packages
  import opened PackageSales
  import opened Wallet
  import opened Sessions
  import opened Settlement
  import opened SessionRun
  import opened LateTick
  import opened Slicing
  import opened Playtime
  import opened SessionEnd

  // Seating and finishing.

  /** A guest is seated with empty counters; with a ready window he is waited for until
      so many minutes from now. */
  lemma SeatingWrites(id: nat, user: nat, rate: int, now: int, waitMin: int)
    ensures var s := Seat(id, user, rate, now, waitMin);
      && (s.id, s.user, s.rate, s.status, s.startedAt) == (id, user, rate, Active, now)
      && s.readyDeadline == (if waitMin > 0 then Some(now + 60 * waitMin) else None)
      && CountersOf(s) == Counters(0, 0, 0, 0, 0)
      && s.endedAt == None && s.readyAt == None && s.endedReason == None
      && s.pausedAt == None && s.pausedBy == None && s.pausedTotal == 0
      && s.afkWarnedAt == None && s.zeroSince == None
  {
  }

  /** Seconds played by `now`, as a row or a copy of it shows them. */
  function Played(s: Session, now: int): int {
    var paused := s.pausedTotal + match s.pausedAt case Some(p) => now - p case None => 0;
    var seconds := now - s.startedAt - if paused < 0 then 0 else paused;
    if seconds < 0 then 0 else seconds
  }

  /** Finishing settles to the minutes played, a begun minute included, from the copy,
      and closes the row with time and reason if it is still open. */
  lemma FinishWrites(b: Books, read: Session, zone: Option<nat>, now: int, reason: Reason, minutes: int)
    requires minutes * 60 - 60 < Played(read, now) <= minutes * 60
    ensures var settled := SettleFrom(b, CountersOf(read), zone, now, minutes).books;
      var s := settled.session;
      FinishFrom(b, read, zone, now, reason) ==
        if s.status == Active
        then settled.(session := s.(status := Completed, endedAt := Some(now), endedReason := Some(reason)))
        else settled
  {
    hide SettleFrom;
    assert EffectiveMinutesCeil(read, now) == minutes;
  }

  // The tick, on a copy of the row and the row itself.

  /** Before the deadline a tick leaves a waiting session alone; from the deadline on it
      confirms it, as of the deadline. */
  lemma WaitingTick(b: Books, read: Session, rules: Rules, at: Sight, end: int, deadline: int)
    requires read.status == Active && read.readyDeadline == Some(deadline) && read.readyAt == None
    ensures BillFrom(b, read, rules, at, end) ==
      if at.now < deadline then b
      else b.(session := b.session.(readyAt := Some(deadline), startedAt := deadline,
                                    pausedAt := None, pausedBy := None, pausedTotal := 0))
  {
  }

  /** A confirmed session is finished when the start of a foreign booking is no more
      than the lock ahead. */
  lemma BookedTick(b: Books, read: Session, rules: Rules, at: Sight, end: int, start: int)
    requires read.status == Active && (read.readyDeadline == None || read.readyAt != None)
    requires at.foreignBooking == Some(start) && start - at.now <= rules.bookingLock * 60
    ensures BillFrom(b, read, rules, at, end) == FinishFrom(b, read, at.zone, end, Booking)
  {
    hide FinishFrom, RunningFrom;
  }

  /** Confirmed, open, and no booking within the lock. */
  predicate Unbooked(read: Session, rules: Rules, at: Sight) {
    && read.status == Active && (read.readyDeadline == None || read.readyAt != None)
    && (at.foreignBooking == None || rules.bookingLock * 60 < at.foreignBooking.value - at.now)
  }

  /** The guest is at the machine: the sensor has seen him within fifteen seconds. */
  predicate Back(at: Sight) {
    at.idle.Some? && at.idle.value <= 15
  }

  predicate IdleTooLong(rules: Rules, at: Sight) {
    rules.afkStop > 0 && at.idle.Some? && rules.afkStop * 60 <= at.idle.value
  }

  /** The row after its pause was lifted at `now`, the total taken from the copy. */
  function Lifted(s: Session, read: Session, paused: int, now: int): Session {
    if s.pausedAt == None then s
    else s.(pausedAt := None, pausedBy := None, pausedTotal := read.pausedTotal + (now - paused))
  }

  /** The row with its idle warning cleared, if the copy shows one and the guest is back. */
  function Unwarned(s: Session, read: Session, rules: Rules, at: Sight): Session {
    if rules.afkStop > 0 && Back(at) && read.afkWarnedAt != None then s.(afkWarnedAt := None) else s
  }

  /** The guest of an idle pause is back: the pause is lifted, counted in full, and the
      tick goes on to the money. */
  lemma BackFromIdleTick(b: Books, read: Session, rules: Rules, at: Sight, end: int, paused: int)
    requires Unbooked(read, rules, at) && read.pausedAt == Some(paused) && read.pausedBy == Some(Afk) && Back(at)
    ensures BillFrom(b, read, rules, at, end) ==
      MoneyFrom(
        b.(session := Unwarned(Lifted(b.session, read, paused, at.now), read, rules, at)),
        read.(pausedAt := None, pausedBy := None, pausedTotal := read.pausedTotal + (at.now - paused)),
        rules, at, end)
  {
    hide MoneyFrom, FinishFrom;
    var lifted := Lifted(b.session, read, paused, at.now);
    assert lifted.(afkWarnedAt := lifted.afkWarnedAt) == lifted;
  }

  /** Any other pause goes on, with nothing written, while less than the limit is used. */
  lemma PauseGoesOnTick(b: Books, read: Session, rules: Rules, at: Sight, end: int, paused: int)
    requires Unbooked(read, rules, at) && read.pausedAt == Some(paused)
    requires !(read.pausedBy == Some(Afk) && Back(at))
    requires 0 < rules.pauseLimit * 60 && read.pausedTotal + (at.now - paused) < rules.pauseLimit * 60
    ensures BillFrom(b, read, rules, at, end) == b
  {
    hide FinishFrom, RunningFrom;
  }

  /** An idle pause at its limit ends the session; a guest's pause is lifted, and the
      session ends after all if he is away, or goes on to the money. */
  lemma PauseIsUsedUpTick(b: Books, read: Session, rules: Rules, at: Sight, end: int, paused: int)
    requires Unbooked(read, rules, at) && read.pausedAt == Some(paused)
    requires !(read.pausedBy == Some(Afk) && Back(at))
    requires rules.pauseLimit <= 0 || rules.pauseLimit * 60 <= read.pausedTotal + (at.now - paused)
    ensures var lifted := b.(session := Lifted(b.session, read, paused, at.now));
      var copy := read.(pausedAt := None, pausedBy := None, pausedTotal := read.pausedTotal + (at.now - paused));
      var warned := if read.afkWarnedAt == None then Some(at.now) else b.session.afkWarnedAt;
      BillFrom(b, read, rules, at, end) ==
        if read.pausedBy == Some(Afk) then FinishFrom(b, read, at.zone, end, AfkStop)
        else if IdleTooLong(rules, at) then
          FinishFrom(lifted.(session := lifted.session.(afkWarnedAt := warned)), copy, at.zone, end, AfkStop)
        else MoneyFrom(lifted.(session := Unwarned(lifted.session, read, rules, at)), copy, rules, at, end)
  {
    hide MoneyFrom, FinishFrom;
    var lifted := Lifted(b.session, read, paused, at.now);
    assert lifted.(afkWarnedAt := lifted.afkWarnedAt) == lifted;
  }

  /** A guest who plays and is idle too long is warned once and put on pause, if pauses
      are allowed and the limit is not used up; otherwise the session ends. */
  lemma IdleTick(b: Books, read: Session, rules: Rules, at: Sight, end: int)
    requires Unbooked(read, rules, at) && read.pausedAt == None && IdleTooLong(rules, at)
    ensures var s := b.session.(afkWarnedAt := if read.afkWarnedAt == None then Some(at.now) else b.session.afkWarnedAt);
      BillFrom(b, read, rules, at, end) ==
        if rules.pauseLimit > 0 && read.pausedTotal < rules.pauseLimit * 60 then
          b.(session := if s.status == Active && s.pausedAt == None
                        then s.(pausedAt := Some(at.now), pausedBy := Some(Afk)) else s)
        else FinishFrom(b.(session := s), read, at.zone, end, AfkStop)
  {
    hide MoneyFrom, FinishFrom;
  }

  /** A guest who plays and is there goes on to the money. */
  lemma PlayingTick(b: Books, read: Session, rules: Rules, at: Sight, end: int)
    requires Unbooked(read, rules, at) && read.pausedAt == None && !IdleTooLong(rules, at)
    ensures BillFrom(b, read, rules, at, end)
         == MoneyFrom(b.(session := Unwarned(b.session, read, rules, at)), read, rules, at, end)
  {
    hide MoneyFrom, FinishFrom;
    assert b.session.(afkWarnedAt := b.session.afkWarnedAt) == b.session;
  }

  /** The money: in grace nothing until its minutes are over, and then the end; otherwise
      the whole minutes played are settled, and at zero the grace begins, or the session
      ends if there is none. */
  lemma MoneyTickWrites(b: Books, read: Session, rules: Rules, at: Sight, end: int, minutes: int)
    requires minutes * 60 <= Played(read, at.now) < minutes * 60 + 60
    ensures var r := SettleFrom(b, CountersOf(read), at.zone, at.now, minutes);
      var zero := r.books.(session := r.books.session.(zeroSince := Some(at.now)));
      MoneyFrom(b, read, rules, at, end) ==
        if read.zeroSince.Some? then
          if rules.zeroGrace * 60 <= at.now - read.zeroSince.value
          then FinishFrom(b, read, at.zone, end, Balance) else b
        else if r.verdict != HitZero then r.books
        else if rules.zeroGrace > 0 then zero
        else FinishFrom(zero, WithCounters(read, CountersOf(r.books.session)), at.zone, end, Balance)
  {
    hide SettleFrom, FinishFrom;
    assert EffectiveElapsedMinutes(read, at.now) == minutes;
  }

  // The tick that has just read the row.

  /** When the guest of an idle pause is back at the machine, the pause is over after the
      tick, and its seconds are added to the total; the session is settled at this tick
      to what it has played. */
  lemma BackFromIdle(b: Books, rules: Rules, at: Sight, paused: int)
    requires Unbooked(b.session, rules, at) && b.account.balance >= 0
    requires b.session.pausedAt == Some(paused) && b.session.pausedBy == Some(Afk) && Back(at)
    ensures var total := b.session.pausedTotal + (at.now - paused);
      var lifted := b.(session := b.session.(pausedAt := None, pausedBy := None, pausedTotal := total));
      var r := BillSession(b, rules, at);
      var settled := SettleMinutes(lifted, at.zone, at.now, Played(lifted.session, at.now) / 60);
      && r.session.pausedAt == None && r.session.pausedBy == None && r.session.pausedTotal == total
      && (b.session.zeroSince == None ==> exists warned :: r == AfterSettling(settled, warned, rules, at))
  {
    hide MoneyFrom, BillFrom, BillMoney, SettleMinutes, AfterSettling, BillSession;
    var s := b.session;
    var lifted := b.(session := s.(pausedAt := None, pausedBy := None, pausedTotal := s.pausedTotal + (at.now - paused)));
    var ready := lifted.(session := Unwarned(lifted.session, s, rules, at));
    BillFromStored(b, rules, at);
    BackFromIdleTick(b, s, rules, at, at.now, paused);
    MoneyFromStored(ready, lifted.session, rules, at);
    MoneyKeepsPause(ready, rules, at);
    MoneyKeepsPause(lifted, rules, at);
    if s.zeroSince == None {
      MoneySettlesPlayedMinutes(lifted, rules, at, ready.session.afkWarnedAt);
      assert EffectiveElapsedMinutes(lifted.session, at.now) == Played(lifted.session, at.now) / 60;
    }
  }

  lemma MoneyKeepsPause(b: Books, rules: Rules, at: Sight)
    requires b.account.balance >= 0
    ensures var r := BillMoney(b, rules, at).session;
      (r.pausedAt, r.pausedBy, r.pausedTotal) == (b.session.pausedAt, b.session.pausedBy, b.session.pausedTotal)
  {
    hide SettleMinutes;
    var r := SettleMinutes(b, at.zone, at.now, EffectiveElapsedMinutes(b.session, at.now)).books;
    SettleFrame(b, at.zone, at.now, EffectiveElapsedMinutes(b.session, at.now));
    SettleFrame(b, at.zone, at.now, EffectiveMinutesCeil(b.session, at.now));
    var zero := r.(session := r.session.(zeroSince := Some(at.now)));
    SettleFrame(zero, at.zone, at.now, EffectiveMinutesCeil(zero.session, at.now));
  }

  /** A session on pause is still on pause after a tick exactly when no booking is due,
      it is not an idle pause whose guest is back, and less than the limit is used. */
  lemma StaysPausedIff(b: Books, rules: Rules, at: Sight, paused: int)
    requires b.session.status == Active && (b.session.readyDeadline == None || b.session.readyAt != None)
    requires b.session.pausedAt == Some(paused) && b.account.balance >= 0
    ensures var r := BillSession(b, rules, at);
      r.session.status == Active && r.session.pausedAt.Some? <==>
        && Unbooked(b.session, rules, at)
        && !(b.session.pausedBy == Some(Afk) && Back(at))
        && 0 < rules.pauseLimit * 60 && b.session.pausedTotal + (at.now - paused) < rules.pauseLimit * 60
  {
    hide MoneyFrom, BillFrom, BillMoney, SettleMinutes, BillSession, FinishFrom, FinishSession;
    var s := b.session;
    BillFromStored(b, rules, at);
    FinishFromStored(b, s, at.zone, at.now, Booking);
    FinishCloses(b, at.zone, at.now, Booking);
    FinishFromStored(b, s, at.zone, at.now, AfkStop);
    FinishCloses(b, at.zone, at.now, AfkStop);
    if !Unbooked(s, rules, at) {
      BookedTick(b, s, rules, at, at.now, at.foreignBooking.value);
    } else if s.pausedBy == Some(Afk) && Back(at) {
      BackFromIdle(b, rules, at, paused);
    } else if 0 < rules.pauseLimit * 60 && s.pausedTotal + (at.now - paused) < rules.pauseLimit * 60 {
      PauseGoesOnTick(b, s, rules, at, at.now, paused);
    } else {
      PauseIsUsedUpTick(b, s, rules, at, at.now, paused);
      UsedUpIsNotPaused(b, rules, at, paused);
    }
  }

  lemma UsedUpIsNotPaused(b: Books, rules: Rules, at: Sight, paused: int)
    requires b.session.status == Active && b.session.pausedAt == Some(paused) && b.account.balance >= 0
    ensures var s := b.session;
      var lifted := b.(session := Lifted(s, s, paused, at.now));
      var copy := s.(pausedAt := None, pausedBy := None, pausedTotal := s.pausedTotal + (at.now - paused));
      var warned := lifted.(session := lifted.session.(afkWarnedAt := if s.afkWarnedAt == None then Some(at.now) else s.afkWarnedAt));
      && FinishFrom(warned, copy, at.zone, at.now, AfkStop).session.status == Completed
      && MoneyFrom(lifted.(session := Unwarned(lifted.session, s, rules, at)), copy, rules, at, at.now).session.pausedAt == None
  {
    hide MoneyFrom, FinishFrom, FinishSession, BillMoney;
    var s := b.session;
    var lifted := b.(session := Lifted(s, s, paused, at.now));
    var copy := s.(pausedAt := None, pausedBy := None, pausedTotal := s.pausedTotal + (at.now - paused));
    var warned := lifted.(session := lifted.session.(afkWarnedAt := if s.afkWarnedAt == None then Some(at.now) else s.afkWarnedAt));
    FinishFromStored(warned, copy, at.zone, at.now, AfkStop);
    FinishCloses(warned, at.zone, at.now, AfkStop);
    var ready := lifted.(session := Unwarned(lifted.session, s, rules, at));
    MoneyFromStored(ready, copy, rules, at);
    MoneyKeepsPause(ready, rules, at);
  }

  // Buttons and money.

  /** The ready button starts the clock of a session that waits, and does nothing else. */
  lemma ReadyWrites(b: Books, zone: Option<nat>, rules: Rules, now: int)
    ensures var s := b.session;
      Effect(b, zone, rules, Ready(now)) ==
        if s.status == Active && s.readyDeadline != None && s.readyAt == None
        then b.(session := s.(readyAt := Some(now), startedAt := now, pausedAt := None, pausedBy := None, pausedTotal := 0))
        else b
  {
  }

  /** A guest pauses a confirmed, running session if pauses are allowed and less than the
      limit is used; he resumes any pause, which is counted in full. */
  lemma PauseButtonsWrite(b: Books, zone: Option<nat>, rules: Rules, now: int)
    ensures var s := b.session;
      && Effect(b, zone, rules, GuestPause(now)) ==
           (if rules.pauseLimit > 0 && s.status == Active && s.pausedAt == None
               && (s.readyDeadline == None || s.readyAt != None) && s.pausedTotal < rules.pauseLimit * 60
            then b.(session := s.(pausedAt := Some(now), pausedBy := Some(Guest))) else b)
      && Effect(b, zone, rules, GuestResume(now)) ==
           (match s.pausedAt
            case Some(p) =>
              if s.status == Active
              then b.(session := s.(pausedAt := None, pausedBy := None, pausedTotal := s.pausedTotal + (now - p))) else b
            case None => b)
  {
  }

  /** Staff cancel the seat of a session that waits, and finish any open one. */
  lemma ClosingButtonsWrite(b: Books, zone: Option<nat>, rules: Rules, now: int, reason: Reason)
    ensures var s := b.session;
      && Effect(b, zone, rules, CancelSeat(now)) ==
           (if s.status == Active && s.readyDeadline != None && s.readyAt == None
            then b.(session := s.(status := Cancelled, endedAt := Some(now), endedReason := Some(SeatCancel))) else b)
      && Effect(b, zone, rules, Finish(now, reason)) ==
           (if s.status == Active then FinishFrom(b, s, zone, now, reason) else b)
  {
    hide FinishFrom, FinishSession;
    FinishFromStored(b, b.session, zone, now, reason);
  }

  /** A deposit and redeemed minutes reach the guest and end the grace of an open session. */
  lemma MoneyThatComesWrites(b: Books, zone: Option<nat>, rules: Rules, now: int, grosz: nat, minutes: nat)
    requires b.account.balance >= 0
    ensures var balance := b.account.balance + grosz;
      var s := if b.session.status == Active then b.session.(zeroSince := None) else b.session;
      && Effect(b, zone, rules, TopUp(now, grosz))
           == b.(session := s, account := Account(balance, b.account.journal + [Entry(Deposit, grosz, balance, 0)]))
      && Effect(b, zone, rules, SessionRun.Redeem(now, minutes)) == b.(session := s, coinMinutes := b.coinMinutes + minutes)
  {
  }

  /** A package is sold as at the counter; another payment or refund is applied or refused
      whole; neither touches the session. A move changes only where an open session sits. */
  lemma OtherStepsWrite(w: World, rules: Rules, now: int, pack: UserPackage, kind: Kind, sum: int, zone: Option<nat>)
    requires kind != SessionSpend
    ensures var b := w.books;
      var (account, packs) := IssuePackage(b.account, b.packs, pack);
      && Step(w, rules, BuyPackage(now, pack)) == w.(books := b.(account := account, packs := packs), now := now)
      && Step(w, rules, PayOther(now, kind, sum)) == w.(now := now, books := b.(account :=
           if b.account.balance + sum >= 0
           then Account(b.account.balance + sum, b.account.journal + [Entry(kind, sum, b.account.balance + sum, 0)])
           else b.account))
      && Step(w, rules, Move(now, zone)) == w.(now := now, zone := if b.session.status == Active then zone else w.zone)
  {
    hide IssuePackage;
  }
}
