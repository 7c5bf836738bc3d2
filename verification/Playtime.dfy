/** Whose time is billed: the seconds a session actually played since its
    confirmation, without its pauses, and how long those pauses can get. */
module Playtime {
  import opened Basics
  import opened Packages
  import opened Wallet
  import opened Sessions
  import opened Settlement
  import opened SessionRun
  import opened Slicing

  predicate Playing(s: Session) {
    s.status == Active && !SessionWaitingReady(s) && s.pausedAt.None?
  }

  predicate Waiting(s: Session) {
    s.status == Active && SessionWaitingReady(s)
  }

  /** The moment up to which the session's time runs. */
  function Horizon(s: Session, now: int): int {
    if s.endedAt.Some? then s.endedAt.value else now
  }

  /** The clock fields agree with each other at `now`, and no more is billed than
      the minutes played, rounded up. */
  ghost predicate ClockSound(s: Session, now: int) {
    var t := Horizon(s, now);
    && (s.status == Active <==> s.endedAt.None?)
    && t <= now
    && s.pausedTotal >= 0
    && (s.pausedAt.Some? ==> s.pausedAt.value <= t)
    && (s.pausedAt.Some? <==> s.pausedBy.Some?)
    && s.startedAt + PausedDuration(s, t) <= t
    && s.billed <= EffectiveMinutesCeil(s, t)
    && (SessionWaitingReady(s) ==> s.pausedAt.None? && s.pausedTotal == 0)
    && (Waiting(s) ==> s.billed == 0)
  }

  ghost predicate WorldSound(w: World) {
    w.lastTick <= w.now && w.books.account.balance >= 0 && ClockSound(w.books.session, w.now)
  }

  /** Letting time pass keeps the clock sound. */
  lemma TimePasses(s: Session, now: int, later: int)
    requires ClockSound(s, now) && now <= later
    ensures ClockSound(s, later)
  {
  }

  lemma CountersKeepSound(s: Session, t: Session, now: int)
    requires ClockSound(s, now) && OnlyCounters(s, t)
    requires s.status == Active && !SessionWaitingReady(s)
    requires t.billed <= Max(s.billed, EffectiveMinutesCeil(s, now))
    ensures ClockSound(t, now)
  {
  }

  /** What a finish leaves: a closed row whose time stopped now. */
  lemma FinishKeepsSound(b: Books, zone: Option<nat>, now: int, reason: Reason)
    requires b.account.balance >= 0 && ClockSound(b.session, now) && b.session.status == Active
    ensures var r := FinishSession(b, zone, now, reason);
      && r.account.balance >= 0 && ClockSound(r.session, now)
      && r.session.status == Completed && r.session.endedAt == Some(now)
      && SameClock(b.session, r.session)
  {
    hide SettleMinutes;
    SettleFrame(b, zone, now, EffectiveMinutesCeil(b.session, now));
  }

  /** Neither the start nor the pauses differ. */
  ghost predicate SameClock(s: Session, t: Session) {
    && (s.startedAt, s.readyDeadline, s.readyAt) == (t.startedAt, t.readyDeadline, t.readyAt)
    && (s.pausedAt, s.pausedBy, s.pausedTotal) == (t.pausedAt, t.pausedBy, t.pausedTotal)
  }

  lemma BillMoneyKeepsSound(b: Books, rules: Rules, at: Sight)
    requires b.account.balance >= 0 && ClockSound(b.session, at.now) && Playing(b.session)
    ensures var r := BillMoney(b, rules, at);
      && r.account.balance >= 0 && ClockSound(r.session, at.now) && SameClock(b.session, r.session)
      && (r.session.status == Active || r.session.endedAt == Some(at.now))
  {
    hide SettleMinutes, FinishSession;
    var s := b.session;
    if s.zeroSince.Some? {
      FinishKeepsSound(b, at.zone, at.now, Balance);
    } else {
      SettleFrame(b, at.zone, at.now, EffectiveElapsedMinutes(s, at.now));
      var r := SettleMinutes(b, at.zone, at.now, EffectiveElapsedMinutes(s, at.now)).books;
      CountersKeepSound(s, r.session, at.now);
      var zero := r.(session := r.session.(zeroSince := Some(at.now)));
      FinishKeepsSound(zero, at.zone, at.now, Balance);
    }
  }

  lemma BillRunningKeepsSound(b: Books, rules: Rules, at: Sight)
    requires b.account.balance >= 0 && ClockSound(b.session, at.now) && Playing(b.session)
    ensures var r := BillRunning(b, rules, at);
      && r.account.balance >= 0 && ClockSound(r.session, at.now)
      && (SameClock(b.session, r.session)
          || (r.session.status == Active && PauseBudgetLeft(b.session, rules.pauseLimit, at.now) > 0
              && SameClock(StartPause(b.session, at.now, Afk), r.session)))
      && (r.session.status == Active || r.session.endedAt == Some(at.now))
  {
    hide BillMoney, FinishSession;
    var s := b.session;
    var warned := s.(afkWarnedAt := if s.afkWarnedAt.None? then Some(at.now) else s.afkWarnedAt);
    FinishKeepsSound(b.(session := warned), at.zone, at.now, AfkStop);
    BillMoneyKeepsSound(b, rules, at);
    BillMoneyKeepsSound(b.(session := s.(afkWarnedAt := None)), rules, at);
  }

  /** What a tick does to the clock of a session. While waiting it only confirms,
      counting from the deadline, and charges nothing; a running session may be put
      on pause when there is pause budget; a paused one stays so only while its
      budget lasts, or is closed, or resumes now. */
  lemma BillKeepsSound(b: Books, rules: Rules, at: Sight)
    requires b.account.balance >= 0 && ClockSound(b.session, at.now)
    ensures var s, r := b.session, BillSession(b, rules, at);
      && r.account.balance >= 0 && ClockSound(r.session, at.now)
      && (s.status != Active ==> r == b)
      && (Waiting(s) ==>
            r == b.(session := if at.now < s.readyDeadline.value then s else ConfirmReady(s, s.readyDeadline.value)))
      && (Playing(s) ==>
            SameClock(s, r.session)
            || (r.session.status == Active && PauseBudgetLeft(s, rules.pauseLimit, at.now) > 0
                && SameClock(StartPause(s, at.now, Afk), r.session)))
      && (s.status == Active && s.pausedAt.Some? ==>
            || SameClock(ResumePause(s, at.now), r.session)
            || (SameClock(s, r.session)
                && (r.session.status != Active || PauseBudgetLeft(s, rules.pauseLimit, at.now) > 0)))
      && (s.status == Active ==> r.session.status == Active || r.session.endedAt == Some(at.now))
  {
    var s := b.session;
    if s.status == Active && !Waiting(s) {
      FinishKeepsSound(b, at.zone, at.now, Booking);
      FinishKeepsSound(b, at.zone, at.now, AfkStop);
      if s.pausedAt.None? {
        BillRunningKeepsSound(b, rules, at);
      } else {
        var resumed := b.(session := ResumePause(s, at.now));
        BillRunningKeepsSound(resumed, rules, at);
        if (s.pausedBy == Some(Afk) && at.idle.Some? && at.idle.value <= AFK_BACK_IDLE_SEC)
           || PauseBudgetLeft(s, rules.pauseLimit, at.now) <= 0 {
          ResumedStaysRunning(b, rules, at);
        }
      }
    }
    hide FinishSession, BillRunning;
  }

  /** A pause that has just ended does not start again within the same tick. */
  lemma ResumedStaysRunning(b: Books, rules: Rules, at: Sight)
    requires b.account.balance >= 0 && ClockSound(b.session, at.now)
    requires b.session.status == Active && b.session.pausedAt.Some? && !SessionWaitingReady(b.session)
    requires (b.session.pausedBy == Some(Afk) && at.idle.Some? && at.idle.value <= AFK_BACK_IDLE_SEC)
          || PauseBudgetLeft(b.session, rules.pauseLimit, at.now) <= 0
    ensures var resumed := ResumePause(b.session, at.now);
      SameClock(resumed, BillRunning(b.(session := resumed), rules, at).session)
  {
    hide BillMoney, FinishSession;
    var resumed := ResumePause(b.session, at.now);
    var r := b.(session := resumed);
    var warned := resumed.(afkWarnedAt := if resumed.afkWarnedAt.None? then Some(at.now) else resumed.afkWarnedAt);
    FinishKeepsSound(r.(session := warned), at.zone, at.now, AfkStop);
    BillMoneyKeepsSound(r, rules, at);
    BillMoneyKeepsSound(r.(session := resumed.(afkWarnedAt := None)), rules, at);
  }

  // Steps of a run.

  /** How one step may change the clock of the session. */
  ghost predicate ClockStep(s: Session, t: Session, rules: Rules, e: Event) {
    if s.status != Active then SameClock(s, t) && t.status == s.status && t.endedAt == s.endedAt
    else if t.status != Active && t.endedAt != Some(e.now) then false
    else if Waiting(s) then
      || SameClock(s, t)
      || (t == ConfirmReady(s, if e.Tick? then s.readyDeadline.value else e.now)
          && (e.Ready? || (e.Tick? && s.readyDeadline.value <= e.now)))
    else if s.pausedAt.None? then
      || SameClock(s, t)
      || (t.status == Active && PauseBudgetLeft(s, rules.pauseLimit, e.now) > 0
          && (SameClock(StartPause(s, e.now, Afk), t) || SameClock(StartPause(s, e.now, Guest), t)))
    else
      || SameClock(ResumePause(s, e.now), t)
      || (SameClock(s, t)
          && (e.Tick? ==> t.status != Active || PauseBudgetLeft(s, rules.pauseLimit, e.now) > 0))
  }

  lemma SessionStepKeepsSound(b: Books, zone: Option<nat>, rules: Rules, e: Event)
    requires b.account.balance >= 0 && ClockSound(b.session, e.now)
    requires e.Ready? || e.GuestPause? || e.GuestResume? || e.CancelSeat?
    ensures var r := Effect(b, zone, rules, e);
      && r.account.balance >= 0 && ClockSound(r.session, e.now) && ClockStep(b.session, r.session, rules, e)
  {
    hide FinishSession, BillSession, PauseBudgetLeft, Pay;
  }

  lemma MoneyStepKeepsSound(b: Books, zone: Option<nat>, rules: Rules, e: Event)
    requires b.account.balance >= 0 && ClockSound(b.session, e.now)
    requires e.Move? || e.TopUp? || e.Redeem? || e.BuyPackage? || e.PayOther?
    ensures var r := Effect(b, zone, rules, e);
      && r.account.balance >= 0 && ClockSound(r.session, e.now) && ClockStep(b.session, r.session, rules, e)
  {
    hide FinishSession, BillSession, PauseBudgetLeft;
  }

  lemma StepKeepsSound(w: World, rules: Rules, e: Event)
    requires WorldSound(w) && w.now <= e.now
    ensures var w' := Step(w, rules, e);
      WorldSound(w') && ClockStep(w.books.session, w'.books.session, rules, e)
  {
    var b := w.books;
    TimePasses(b.session, w.now, e.now);
    hide FinishSession, BillSession, ClockSound;
    match e
    case Tick(now, foreignBooking, idle) =>
      BillKeepsSound(b, rules, Sight(now, w.zone, foreignBooking, idle));
    case Finish(now, reason) =>
      if b.session.status == Active {
        FinishKeepsSound(b, w.zone, now, reason);
      }
    case Ready(_) => SessionStepKeepsSound(b, w.zone, rules, e);
    case GuestPause(_) => SessionStepKeepsSound(b, w.zone, rules, e);
    case GuestResume(_) => SessionStepKeepsSound(b, w.zone, rules, e);
    case CancelSeat(_) => SessionStepKeepsSound(b, w.zone, rules, e);
    case _ => MoneyStepKeepsSound(b, w.zone, rules, e);
  }

  lemma SeatedIsSound(id: nat, user: nat, rate: int, waitMin: int, zone: Option<nat>, now: int,
                      account: Account, coinMinutes: nat, packs: seq<UserPackage>)
    requires account.balance >= 0
    ensures WorldSound(Seated(id, user, rate, waitMin, zone, now, account, coinMinutes, packs))
  {
  }

  /** In every run no more minutes are billed than were played, rounded up, and
      nothing at all while the session waits for its confirmation. */
  lemma {:induction false} NeverOverbilled(w: World, rules: Rules, events: seq<Event>)
    requires WorldSound(w) && InTime(w.now, events)
    ensures WorldSound(Run(w, rules, events))
    ensures var w' := Run(w, rules, events);
      var s := w'.books.session;
      && s.billed <= EffectiveMinutesCeil(s, Horizon(s, w'.now))
      && (Waiting(s) ==> s.billed == 0)
    decreases |events|
  {
    if events != [] {
      StepKeepsSound(w, rules, events[0]);
      NeverOverbilled(Step(w, rules, events[0]), rules, events[1..]);
    }
  }

  // The time that is billed.

  /** Seconds of unpaused time since the confirmation, counted along the run from
      what the session was seen doing between steps: a press of the button starts
      the count now, an automatic confirmation at the deadline. */
  function PlayedAfter(w: World, e: Event, played: int): int {
    var s := w.books.session;
    if Waiting(s) then
      if e.Tick? && s.readyDeadline.value <= e.now then e.now - s.readyDeadline.value else 0
    else if Playing(s) then played + (e.now - w.now)
    else played
  }

  function RunPlayed(w: World, rules: Rules, events: seq<Event>, played: int): int
    decreases |events|
  {
    if events == [] then played
    else RunPlayed(Step(w, rules, events[0]), rules, events[1..], PlayedAfter(w, events[0], played))
  }

  /** The clock fields of a confirmed session measure exactly the time played. */
  ghost predicate Measures(w: World, played: int) {
    var s := w.books.session;
    !SessionWaitingReady(s) ==> EffectiveSeconds(s, Horizon(s, w.now)) == played
  }

  lemma StepMeasures(w: World, rules: Rules, e: Event, played: int)
    requires WorldSound(w) && w.now <= e.now && Measures(w, played)
    ensures Measures(Step(w, rules, e), PlayedAfter(w, e, played))
  {
    hide Effect, ClockSound, ClockStep, EffectiveSeconds, Horizon;
    TimePassesWorld(w, e);
    StepKeepsSound(w, rules, e);
    ClockStepMeasures(w.books.session, Step(w, rules, e).books.session, rules, e, w.now, played);
  }

  lemma TimePassesWorld(w: World, e: Event)
    requires WorldSound(w) && w.now <= e.now
    ensures ClockSound(w.books.session, w.now)
  {
  }

  lemma ClockStepMeasures(s: Session, t: Session, rules: Rules, e: Event, now: int, played: int)
    requires ClockSound(s, now) && now <= e.now && ClockSound(t, e.now) && ClockStep(s, t, rules, e)
    requires !SessionWaitingReady(s) ==> EffectiveSeconds(s, Horizon(s, now)) == played
    ensures var p := if Waiting(s) then
                       if e.Tick? && s.readyDeadline.value <= e.now then e.now - s.readyDeadline.value else 0
                     else if Playing(s) then played + (e.now - now) else played;
      !SessionWaitingReady(t) ==> EffectiveSeconds(t, Horizon(t, e.now)) == p
  {
    hide PauseBudgetLeft, EffectiveMinutesCeil;
  }

  /** Over every run the minutes a tick settles to are the whole minutes of unpaused
      time since the confirmation, and finishing settles to the same time rounded up. */
  lemma {:induction false} BilledTimeIsPlayedTime(w: World, rules: Rules, events: seq<Event>, played: int)
    requires WorldSound(w) && Measures(w, played) && InTime(w.now, events)
    ensures var w' := Run(w, rules, events);
      var s, p := w'.books.session, RunPlayed(w, rules, events, played);
      Measures(w', p)
      && (s.status == Active && !SessionWaitingReady(s) ==>
            && EffectiveElapsedMinutes(s, w'.now) == p / 60
            && EffectiveMinutesCeil(s, w'.now) == (p + 59) / 60)
    decreases |events|
  {
    if events != [] {
      StepKeepsSound(w, rules, events[0]);
      StepMeasures(w, rules, events[0], played);
      BilledTimeIsPlayedTime(Step(w, rules, events[0]), rules, events[1..], PlayedAfter(w, events[0], played));
    } else {
      assert WorldSound(w);
    }
  }

  /** A tick of a session that plays comes down to its money part; the guest's
      return to the keyboard clears the idle warning. */
  lemma PlayedTickIsMoney(b: Books, rules: Rules, at: Sight)
    requires Playing(b.session) && !BookingDue(rules, at) && !Away(rules, at)
    ensures var back := rules.afkStop > 0 && at.idle.Some? && at.idle.value <= AFK_BACK_IDLE_SEC;
      BillSession(b, rules, at)
        == BillMoney(b.(session := b.session.(afkWarnedAt := if back then None else b.session.afkWarnedAt)), rules, at)
  {
    hide BillMoney, FinishSession;
    assert b.(session := b.session.(afkWarnedAt := b.session.afkWarnedAt)) == b;
  }

  /** What a tick makes of its settlement: at zero the grace begins, or the session is
      finished if there is none. */
  function AfterSettling(settled: Outcome, warned: Option<int>, rules: Rules, at: Sight): Books {
    var b := settled.books.(session := settled.books.session.(afkWarnedAt := warned));
    if settled.verdict != HitZero then b
    else
      var zero := b.(session := b.session.(zeroSince := Some(at.now)));
      if rules.zeroGrace <= 0 then FinishSession(zero, at.zone, at.now, Balance) else zero
  }

  /** The money part settles to the minutes played, whatever the idle warning says. */
  lemma MoneySettlesPlayedMinutes(b: Books, rules: Rules, at: Sight, warned: Option<int>)
    requires b.session.zeroSince.None?
    ensures var settled := SettleMinutes(b, at.zone, at.now, EffectiveElapsedMinutes(b.session, at.now));
      BillMoney(b.(session := b.session.(afkWarnedAt := warned)), rules, at) == AfterSettling(settled, warned, rules, at)
  {
    hide SettleMinutes, FinishSession;
    WarningIsNotSettled(b, at.zone, at.now, EffectiveElapsedMinutes(b.session, at.now), warned);
  }

  /** The tick itself: a session that plays, with its guest at the machine, no booking
      due and no grace running, is settled to the whole minutes it has played by now;
      beyond that the idle warning may be cleared, and at zero the grace begins or, if
      there is none, the session is finished. */
  lemma TickSettlesPlayedMinutes(w: World, rules: Rules, e: Event, played: int)
    requires WorldSound(w) && w.now <= e.now && Measures(w, played) && e.Tick?
    requires var at := Sight(e.now, w.zone, e.foreignBooking, e.idle); !BookingDue(rules, at) && !Away(rules, at)
    requires Playing(w.books.session) && w.books.session.zeroSince.None?
    ensures var settled := SettleMinutes(w.books, w.zone, e.now, (played + (e.now - w.now)) / 60);
      var at := Sight(e.now, w.zone, e.foreignBooking, e.idle);
      exists warned :: Step(w, rules, e).books == AfterSettling(settled, warned, rules, at)
  {
    var s := w.books.session;
    var at := Sight(e.now, w.zone, e.foreignBooking, e.idle);
    assert EffectiveElapsedMinutes(s, e.now) == (played + (e.now - w.now)) / 60;
    hide SettleMinutes, BillSession, BillMoney, ClockSound, AfterSettling;
    PlayedTickIsMoney(w.books, rules, at);
    MoneySettlesPlayedMinutes(w.books, rules, at, None);
    MoneySettlesPlayedMinutes(w.books, rules, at, s.afkWarnedAt);
  }

  // How long a session can be on pause.

  /** Every step comes at most `gap` seconds after the last tick. */
  predicate TicksWithin(lastTick: int, events: seq<Event>, gap: nat)
    decreases |events|
  {
    events == []
    || (events[0].now <= lastTick + gap
        && TicksWithin(if events[0].Tick? then events[0].now else lastTick, events[1..], gap))
  }

  /** The pause so far is within the limit and one tick gap, and a running pause was
      within the limit when it was last looked at. */
  ghost predicate PauseBounded(w: World, rules: Rules, gap: nat) {
    var s := w.books.session;
    var limit := Max(rules.pauseLimit, 0) * 60;
    && PausedDuration(s, Horizon(s, w.now)) <= limit + gap
    && (s.status == Active && s.pausedAt.Some? ==> PausedDuration(s, Max(w.lastTick, s.pausedAt.value)) < limit)
  }

  lemma StepKeepsPauseBounded(w: World, rules: Rules, e: Event, gap: nat)
    requires WorldSound(w) && w.now <= e.now <= w.lastTick + gap && PauseBounded(w, rules, gap)
    ensures PauseBounded(Step(w, rules, e), rules, gap)
  {
    StepKeepsSound(w, rules, e);
    var w' := Step(w, rules, e);
    hide Effect, EffectiveMinutesCeil;
    assert w'.lastTick == if e.Tick? then e.now else w.lastTick;
  }

  /** If ticks are at most `gap` seconds apart, no mix of guest pauses, idle pauses,
      resumes and moves keeps a session on pause longer than the limit plus `gap`. */
  lemma {:induction false} PauseNeverExceedsLimit(w: World, rules: Rules, events: seq<Event>, gap: nat)
    requires WorldSound(w) && PauseBounded(w, rules, gap)
    requires InTime(w.now, events) && TicksWithin(w.lastTick, events, gap)
    ensures var w' := Run(w, rules, events);
      && PauseBounded(w', rules, gap)
      && PausedDuration(w'.books.session, Horizon(w'.books.session, w'.now)) <= Max(rules.pauseLimit, 0) * 60 + gap
    decreases |events|
  {
    if events != [] {
      StepKeepsSound(w, rules, events[0]);
      StepKeepsPauseBounded(w, rules, events[0], gap);
      PauseNeverExceedsLimit(Step(w, rules, events[0]), rules, events[1..], gap);
    }
  }

  lemma SeatedIsMeasured(id: nat, user: nat, rate: int, waitMin: int, zone: Option<nat>, now: int,
                         account: Account, coinMinutes: nat, packs: seq<UserPackage>, rules: Rules, gap: nat)
    ensures var w := Seated(id, user, rate, waitMin, zone, now, account, coinMinutes, packs);
      Measures(w, 0) && PauseBounded(w, rules, gap)
  {
  }

  /** From seating on: over any run no more is billed than was played, the minutes
      settled to are the minutes played since confirmation, and pauses stay within the
      limit and one gap between ticks. */
  lemma SeatedSessionsAreFair(id: nat, user: nat, rate: int, waitMin: int, zone: Option<nat>, now: int,
                              account: Account, coinMinutes: nat, packs: seq<UserPackage>,
                              rules: Rules, events: seq<Event>, gap: nat)
    requires account.balance >= 0 && InTime(now, events)
    ensures var start := Seated(id, user, rate, waitMin, zone, now, account, coinMinutes, packs);
      var w := Run(start, rules, events);
      var s, played := w.books.session, RunPlayed(start, rules, events, 0);
      && s.billed <= EffectiveMinutesCeil(s, Horizon(s, w.now))
      && (s.status == Active && !SessionWaitingReady(s) ==> EffectiveElapsedMinutes(s, w.now) == played / 60)
      && (TicksWithin(now, events, gap) ==>
            PausedDuration(s, Horizon(s, w.now)) <= Max(rules.pauseLimit, 0) * 60 + gap)
  {
    hide Run, RunPlayed, WorldSound, EffectiveMinutesCeil, PauseBounded, TicksWithin, Measures;
    var start := Seated(id, user, rate, waitMin, zone, now, account, coinMinutes, packs);
    SeatedIsSound(id, user, rate, waitMin, zone, now, account, coinMinutes, packs);
    SeatedIsMeasured(id, user, rate, waitMin, zone, now, account, coinMinutes, packs, rules, gap);
    NeverOverbilled(start, rules, events);
    BilledTimeIsPlayedTime(start, rules, events, 0);
    if TicksWithin(now, events, gap) {
      PauseNeverExceedsLimit(start, rules, events, gap);
    }
  }
}
