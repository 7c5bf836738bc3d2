/** The session row: who plays, when the clock started, pauses, and what has been
    billed so far. Times are whole seconds. */
module Sessions {
  import opened Basics
  import opened Packages
  import opened Wallet

  datatype Status = Active | Completed | Cancelled
  datatype PausedBy = Guest | Afk
  datatype Reason = Manual | Admin | Balance | AfkStop | Booking | SeatCancel

  datatype Session = Session(
    id: nat, user: nat, rate: int, status: Status,
    startedAt: int, endedAt: Option<int>, readyDeadline: Option<int>, readyAt: Option<int>,
    pausedAt: Option<int>, pausedBy: Option<PausedBy>, pausedTotal: int,
    afkWarnedAt: Option<int>, zeroSince: Option<int>,
    billed: nat, coinUsed: nat, packUsed: nat, money: nat, charged: int,
    endedReason: Option<Reason>)

  /** The rows one session is settled from: the session, its guest's account and
      coin minutes, and the package table. */
  datatype Books = Books(session: Session, account: Account, coinMinutes: nat, packs: seq<UserPackage>)

  /** What a session has been billed so far, as one reading of its row. */
  datatype Counters = Counters(billed: nat, coinUsed: nat, packUsed: nat, money: nat, charged: int)

  function CountersOf(s: Session): Counters {
    Counters(s.billed, s.coinUsed, s.packUsed, s.money, s.charged)
  }

  function WithCounters(s: Session, c: Counters): Session {
    s.(billed := c.billed, coinUsed := c.coinUsed, packUsed := c.packUsed, money := c.money, charged := c.charged)
  }

  const AFK_BACK_IDLE_SEC := 15

  /** Seconds the session has spent on pause by `now`. */
  function PausedDuration(s: Session, now: int): int {
    Max(0, s.pausedTotal + if s.pausedAt.Some? then now - s.pausedAt.value else 0)
  }

  /** Seconds played: since the start, without the pauses. */
  function EffectiveSeconds(s: Session, now: int): int {
    Max(0, now - s.startedAt - PausedDuration(s, now))
  }

  /** Whole minutes played; what a tick settles to. */
  function EffectiveElapsedMinutes(s: Session, now: int): int {
    EffectiveSeconds(s, now) / 60
  }

  /** Minutes played, rounded up; what finishing settles to. */
  function EffectiveMinutesCeil(s: Session, now: int): int {
    (EffectiveSeconds(s, now) + 59) / 60
  }

  function PauseBudgetLeft(s: Session, limitMin: int, now: int): int {
    Max(0, limitMin * 60 - PausedDuration(s, now))
  }

  function ReadyDeadlineFor(now: int, waitMin: int): Option<int> {
    if waitMin <= 0 then None else Some(now + waitMin * 60)
  }

  predicate SessionWaitingReady(s: Session) {
    s.readyDeadline.Some? && s.readyAt.None?
  }

  /** A guest is seated; with a ready window the clock is set again on confirmation. */
  function Seat(id: nat, user: nat, rate: int, now: int, waitMin: int): Session {
    Session(id, user, rate, Active, now, None, ReadyDeadlineFor(now, waitMin), None,
            None, None, 0, None, None, 0, 0, 0, 0, 0, None)
  }

  /** Confirmation: the paid clock starts at `at`, with no pauses behind it. */
  function ConfirmReady(s: Session, at: int): Session {
    s.(readyAt := Some(at), startedAt := at, pausedAt := None, pausedBy := None, pausedTotal := 0)
  }

  function StartPause(s: Session, now: int, who: PausedBy): Session {
    if s.status == Active && s.pausedAt.None? then s.(pausedAt := Some(now), pausedBy := Some(who)) else s
  }

  function ResumePause(s: Session, now: int): Session {
    if s.pausedAt.None? then s
    else s.(pausedAt := None, pausedBy := None, pausedTotal := s.pausedTotal + (now - s.pausedAt.value))
  }

  function Close(s: Session, now: int, reason: Reason): Session {
    if s.status == Active then s.(status := Completed, endedAt := Some(now), endedReason := Some(reason)) else s
  }
}
