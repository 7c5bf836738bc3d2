/** A session's life: seat, ready window, ticks of the billing job, pauses, moves,
    top-ups and the end, as steps on the books. */
module SessionRun {
  import opened Basics
  import opened Packages
  import opened PackageSales
  import opened Wallet
  import opened Sessions
  import opened Settlement

  /** The club's settings, in minutes. */
  datatype Rules = Rules(zeroGrace: int, pauseLimit: int, afkStop: int, bookingLock: int)

  /** What a tick sees besides the books: the zone of the machine, the start of the
      next foreign booking on it, and the idle time its sensor reports. */
  datatype Sight = Sight(now: int, zone: Option<nat>, foreignBooking: Option<int>, idle: Option<int>)

  /** A guest with a booking is due on this machine. */
  predicate BookingDue(rules: Rules, at: Sight) {
    at.foreignBooking.Some? && at.now >= at.foreignBooking.value - rules.bookingLock * 60
  }

  /** The sensor works, and the guest has not touched the machine for too long. */
  predicate Away(rules: Rules, at: Sight) {
    rules.afkStop > 0 && at.idle.Some? && at.idle.value >= rules.afkStop * 60
  }

  /** The final settlement, rounded up, and the closing of the row. */
  function FinishSession(b: Books, zone: Option<nat>, now: int, reason: Reason): Books {
    var settled := SettleMinutes(b, zone, now, EffectiveMinutesCeil(b.session, now)).books;
    settled.(session := Close(settled.session, now, reason))
  }

  /** One tick of the billing job for one active session. */
  function BillSession(b: Books, rules: Rules, at: Sight): Books {
    var s := b.session;
    if s.status != Active then b
    else if SessionWaitingReady(s) then
      if at.now < s.readyDeadline.value then b
      else b.(session := ConfirmReady(s, s.readyDeadline.value))
    else if BookingDue(rules, at) then
      FinishSession(b, at.zone, at.now, Booking)
    else if s.pausedAt.None? then BillRunning(b, rules, at)
    else if s.pausedBy == Some(Afk) && at.idle.Some? && at.idle.value <= AFK_BACK_IDLE_SEC then
      BillRunning(b.(session := ResumePause(s, at.now)), rules, at)
    else if PauseBudgetLeft(s, rules.pauseLimit, at.now) > 0 then b
    else if s.pausedBy == Some(Afk) then FinishSession(b, at.zone, at.now, AfkStop)
    else BillRunning(b.(session := ResumePause(s, at.now)), rules, at)
  }

  /** The tick of a session that is not on pause: idleness first. */
  function BillRunning(b: Books, rules: Rules, at: Sight): Books {
    var s := b.session;
    if Away(rules, at) then
      var warned := s.(afkWarnedAt := if s.afkWarnedAt.None? then Some(at.now) else s.afkWarnedAt);
      if rules.pauseLimit > 0 && PauseBudgetLeft(warned, rules.pauseLimit, at.now) > 0 then
        b.(session := StartPause(warned, at.now, Afk))
      else
        FinishSession(b.(session := warned), at.zone, at.now, AfkStop)
    else
      var back := rules.afkStop > 0 && at.idle.Some? && at.idle.value <= AFK_BACK_IDLE_SEC;
      BillMoney(b.(session := if back then s.(afkWarnedAt := None) else s), rules, at)
  }

  /** Grace at zero, then the settlement of the minutes played. */
  function BillMoney(b: Books, rules: Rules, at: Sight): Books {
    var s := b.session;
    if s.zeroSince.Some? then
      if at.now - s.zeroSince.value >= rules.zeroGrace * 60 then FinishSession(b, at.zone, at.now, Balance) else b
    else
      var r := SettleMinutes(b, at.zone, at.now, EffectiveElapsedMinutes(s, at.now));
      if r.verdict != HitZero then r.books
      else
        var zero := r.books.(session := r.books.session.(zeroSince := Some(at.now)));
        if rules.zeroGrace <= 0 then FinishSession(zero, at.zone, at.now, Balance) else zero
  }

  /** The books, the zone of the machine the guest sits at, the time of the last
      step and of the last tick. */
  datatype World = World(books: Books, zone: Option<nat>, now: int, lastTick: int)

  datatype Event =
    | Tick(now: int, foreignBooking: Option<int>, idle: Option<int>)
    | Ready(now: int)
    | GuestPause(now: int)
    | GuestResume(now: int)
    | Move(now: int, zone: Option<nat>)
    | Finish(now: int, reason: Reason)
    | CancelSeat(now: int)
    | TopUp(now: int, amount: nat)
    | Redeem(now: int, minutes: nat)
    | BuyPackage(now: int, pack: UserPackage)
    | PayOther(now: int, kind: Kind, sum: int)

  /** A top-up or fresh coin minutes end the grace at zero. */
  function Revive(s: Session): Session {
    if s.status == Active then s.(zeroSince := None) else s
  }

  function Effect(b: Books, zone: Option<nat>, rules: Rules, e: Event): Books {
    var s := b.session;
    match e
    case Tick(now, foreignBooking, idle) => BillSession(b, rules, Sight(now, zone, foreignBooking, idle))
    case Ready(now) =>
      if s.status == Active && SessionWaitingReady(s) then b.(session := ConfirmReady(s, now)) else b
    case GuestPause(now) =>
      if rules.pauseLimit > 0 && s.status == Active && s.pausedAt.None? && !SessionWaitingReady(s)
         && PauseBudgetLeft(s, rules.pauseLimit, now) > 0
      then b.(session := StartPause(s, now, Guest)) else b
    case GuestResume(now) => if s.status == Active then b.(session := ResumePause(s, now)) else b
    case Move(_, _) => b
    case Finish(now, reason) => if s.status == Active then FinishSession(b, zone, now, reason) else b
    case CancelSeat(now) =>
      if s.status == Active && SessionWaitingReady(s)
      then b.(session := s.(status := Cancelled, endedAt := Some(now), endedReason := Some(SeatCancel))) else b
    case TopUp(_, amount) =>
      b.(account := Pay(b.account, Op(Deposit, amount, 0)), session := Revive(s))
    case Redeem(_, minutes) => b.(coinMinutes := b.coinMinutes + minutes, session := Revive(s))
    case BuyPackage(_, pack) =>
      var (account, packs) := IssuePackage(b.account, b.packs, pack);
      b.(account := account, packs := packs)
    case PayOther(_, kind, sum) =>
      if kind == SessionSpend then b else b.(account := Pay(b.account, Op(kind, sum, 0)))
  }

  function Step(w: World, rules: Rules, e: Event): World {
    World(Effect(w.books, w.zone, rules, e),
          if e.Move? && w.books.session.status == Active then e.zone else w.zone,
          e.now,
          if e.Tick? then e.now else w.lastTick)
  }

  /** Time never runs backwards. */
  predicate InTime(now: int, events: seq<Event>)
    decreases |events|
  {
    events == [] || (now <= events[0].now && InTime(events[0].now, events[1..]))
  }

  function Run(w: World, rules: Rules, events: seq<Event>): World
    decreases |events|
  {
    if events == [] then w else Run(Step(w, rules, events[0]), rules, events[1..])
  }

  /** A guest with any account, coins and packages is seated at `now`. */
  function Seated(id: nat, user: nat, rate: int, waitMin: int, zone: Option<nat>, now: int,
                  account: Account, coinMinutes: nat, packs: seq<UserPackage>): World {
    World(Books(Seat(id, user, rate, now, waitMin), account, coinMinutes, packs), zone, now, now)
  }
}
