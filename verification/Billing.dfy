/** The billing job on the rows themselves: the session row, the guest's row and
    the package table are updated in place, statement by statement. */
module Billing {
  import opened Basics
  import opened Tariff
  import opened Packages
  import opened Wallet
  import opened Sessions
  import opened Settlement
  import opened SessionRun
  import opened LateTick

  class SessionRow {
    const id: nat
    const user: nat
    const rate: int
    const readyDeadline: Option<int>
    var status: Status
    var startedAt: int
    var endedAt: Option<int>
    var readyAt: Option<int>
    var pausedAt: Option<int>
    var pausedBy: Option<PausedBy>
    var pausedTotal: int
    var afkWarnedAt: Option<int>
    var zeroSince: Option<int>
    var billed: nat
    var coinUsed: nat
    var packUsed: nat
    var money: nat
    var charged: int
    var endedReason: Option<Reason>

    /** The row of a guest who has just been seated. */
    constructor (id: nat, user: nat, rate: int, now: int, waitMin: int)
      ensures View() == Seat(id, user, rate, now, waitMin)
    {
      this.id, this.user, this.rate := id, user, rate;
      readyDeadline := ReadyDeadlineFor(now, waitMin);
      status, startedAt, endedAt, readyAt := Active, now, None, None;
      pausedAt, pausedBy, pausedTotal, afkWarnedAt, zeroSince := None, None, 0, None, None;
      billed, coinUsed, packUsed, money, charged, endedReason := 0, 0, 0, 0, 0, None;
    }

    ghost function View(): Session
      reads this
    {
      Session(id, user, rate, status, startedAt, endedAt, readyDeadline, readyAt, pausedAt, pausedBy, pausedTotal,
              afkWarnedAt, zeroSince, billed, coinUsed, packUsed, money, charged, endedReason)
    }

    method ConfirmReady(at: int)
      modifies this
      ensures View() == Sessions.ConfirmReady(old(View()), at)
    {
      readyAt := Some(at);
      startedAt := at;
      pausedAt, pausedBy := None, None;
      pausedTotal := 0;
    }

    /** Write the counters, whatever the row held. */
    method SetCounters(c: Counters)
      modifies this
      ensures View() == WithCounters(old(View()), c)
    {
      billed, coinUsed, packUsed, money, charged := c.billed, c.coinUsed, c.packUsed, c.money, c.charged;
    }

    /** Conditional update: fails when the row is closed or already paused. */
    method StartPause(now: int, who: PausedBy) returns (ok: bool)
      modifies this
      ensures View() == Sessions.StartPause(old(View()), now, who)
      ensures ok <==> old(status) == Active && old(pausedAt).None?
    {
      if status != Active || pausedAt.Some? {
        return false;
      }
      pausedAt, pausedBy := Some(now), Some(who);
      ok := true;
    }

    /** The total is computed from a copy read earlier, and written if the row is on
        pause. */
    method ResumePause(read: Session, now: int)
      requires read.pausedAt.Some?
      modifies this
      ensures View() == ResumeFrom(old(View()), read, now)
    {
      if pausedAt.None? {
        return;
      }
      pausedTotal := read.pausedTotal + (now - read.pausedAt.value);
      pausedAt, pausedBy := None, None;
    }

    /** Conditional update: only an active row is closed. */
    method Close(now: int, reason: Reason) returns (ok: bool)
      modifies this
      ensures View() == Sessions.Close(old(View()), now, reason)
      ensures ok <==> old(status) == Active
    {
      if status != Active {
        return false;
      }
      status, endedAt, endedReason := Completed, Some(now), Some(reason);
      ok := true;
    }
  }

  /** The rows that one session is billed from. */
  class Desk {
    const session: SessionRow
    const guest: GuestRow
    const packs: PackageTable
    const rules: Rules

    constructor (session: SessionRow, guest: GuestRow, packs: PackageTable, rules: Rules)
      ensures this.session == session && this.guest == guest && this.packs == packs && this.rules == rules
    {
      this.session, this.guest, this.packs, this.rules := session, guest, packs, rules;
    }

    ghost function View(): Books
      reads session, guest, packs
    {
      Books(session.View(), guest.AccountView(), guest.coinMinutes, packs.rows)
    }

    /** Settle up to `target` minutes in one transaction, from counters read before it:
        if the row is closed, or the wallet refuses, every row is put back as it was. */
    method SettleSessionMinutes(seen: Counters, zone: Option<nat>, now: int, target: int) returns (verdict: Verdict)
      modifies session, guest, packs
      ensures Outcome(View(), verdict) == SettleFrom(old(View()), seen, zone, now, target)
    {
      hide Post, Take, ListingFor;
      var delta := target - seen.billed;
      if delta <= 0 {
        return Settled;
      }
      var useCoin: nat := delta;
      if useCoin > guest.coinMinutes {
        useCoin := guest.coinMinutes;
      }
      var rowsBefore := packs.rows;
      var usePack := 0;
      if delta - useCoin > 0 {
        var live := ListingFor(packs.rows, session.user, zone, now);
        usePack := packs.TakePackageMinutes(live, delta - useCoin);
      }
      verdict := PostMinutes(seen, useCoin, rowsBefore, usePack, delta - useCoin - usePack);
    }

    /** The money part: charge what the wallet covers and write the counters. */
    method PostMinutes(seen: Counters, useCoin: nat, rowsBefore: seq<UserPackage>, usePack: nat, due: nat)
        returns (verdict: Verdict)
      requires useCoin <= guest.coinMinutes
      modifies session, guest, packs
      ensures Outcome(View(), verdict)
           == PostFrom(old(View()).(packs := rowsBefore), seen, useCoin, old(packs.rows), usePack, due)
    {
      hide ChargeDelta, AffordableMinutes;
      var payMin := due;
      var charge := ChargeDelta(session.rate, seen.money, payMin);
      var hitZero := false;
      if charge > guest.balance {
        payMin := MinutesAffordable(guest.balance, session.rate, seen.money);
        charge := ChargeDelta(session.rate, seen.money, payMin);
        hitZero := true;
      }
      if session.status != Active {
        packs.rows := rowsBefore;
        return Gone;
      }
      if charge > 0 {
        var ok := guest.Apply(Op(SessionSpend, -charge, session.id));
        if !ok {
          packs.rows := rowsBefore;
          return Refused;
        }
      }
      guest.coinMinutes := guest.coinMinutes - useCoin;
      session.SetCounters(Counters(
        seen.billed + useCoin + usePack + payMin, seen.coinUsed + useCoin, seen.packUsed + usePack,
        seen.money + payMin, seen.charged + charge));
      verdict := if hitZero then HitZero else Settled;
    }

    /** The final settlement, rounded up and from a copy read earlier, then the
        conditional closing. */
    method FinishSession(read: Session, zone: Option<nat>, now: int, reason: Reason)
      modifies session, guest, packs
      ensures View() == FinishFrom(old(View()), read, zone, now, reason)
    {
      hide SettleFrom;
      var minutes := EffectiveMinutesCeil(read, now);
      var _ := SettleSessionMinutes(CountersOf(read), zone, now, minutes);
      var _ := session.Close(now, reason);
    }

    /** The row as a value: what a caller reads. */
    function CurrentSession(): (s: Session)
      reads session
      ensures s == session.View()
    {
      Session(session.id, session.user, session.rate, session.status, session.startedAt, session.endedAt,
              session.readyDeadline, session.readyAt, session.pausedAt, session.pausedBy, session.pausedTotal,
              session.afkWarnedAt, session.zeroSince, session.billed, session.coinUsed, session.packUsed,
              session.money, session.charged, session.endedReason)
    }

    /** One tick of the billing job, on the copy that the sweep has read. */
    method BillSession(read: Session, at: Sight, end: int)
      modifies session, guest, packs
      ensures View() == BillFrom(old(View()), read, rules, at, end)
    {
      hide SettleFrom, FinishFrom, RunningFrom;
      if read.status != Active {
        return;
      }
      if read.readyDeadline.Some? && read.readyAt.None? {
        if at.now >= read.readyDeadline.value {
          session.ConfirmReady(read.readyDeadline.value);
        }
        return;
      }
      if at.foreignBooking.Some? && at.now >= at.foreignBooking.value - rules.bookingLock * 60 {
        FinishSession(read, at.zone, end, Booking);
        return;
      }
      var s := read;
      if s.pausedAt.Some? {
        var guestBack := at.idle.Some? && at.idle.value <= AFK_BACK_IDLE_SEC;
        var byAfk := s.pausedBy == Some(Afk);
        if byAfk && guestBack {
          session.ResumePause(s, at.now);
          s := Sessions.ResumePause(s, at.now);
        } else if PauseBudgetLeft(s, rules.pauseLimit, at.now) <= 0 {
          if byAfk {
            FinishSession(s, at.zone, end, AfkStop);
            return;
          }
          session.ResumePause(s, at.now);
          s := Sessions.ResumePause(s, at.now);
        } else {
          return;
        }
      }
      BillRunning(s, at, end);
    }

    method BillRunning(read: Session, at: Sight, end: int)
      modifies session, guest, packs
      ensures View() == RunningFrom(old(View()), read, rules, at, end)
    {
      hide SettleFrom, FinishFrom, MoneyFrom;
      if rules.afkStop > 0 && at.idle.Some? {
        if at.idle.value >= rules.afkStop * 60 {
          if read.afkWarnedAt.None? {
            session.afkWarnedAt := Some(at.now);
          }
          if rules.pauseLimit > 0 && PauseBudgetLeft(read, rules.pauseLimit, at.now) > 0 {
            var _ := session.StartPause(at.now, Afk);
            return;
          }
          FinishSession(read, at.zone, end, AfkStop);
          return;
        }
        if read.afkWarnedAt.Some? && at.idle.value <= AFK_BACK_IDLE_SEC {
          session.afkWarnedAt := None;
        }
      }
      BillMoney(read, at, end);
    }

    method BillMoney(read: Session, at: Sight, end: int)
      modifies session, guest, packs
      ensures View() == MoneyFrom(old(View()), read, rules, at, end)
    {
      hide SettleFrom, FinishFrom;
      if read.zeroSince.Some? {
        if at.now - read.zeroSince.value >= rules.zeroGrace * 60 {
          FinishSession(read, at.zone, end, Balance);
        }
        return;
      }
      var elapsed := EffectiveElapsedMinutes(read, at.now);
      var verdict := SettleSessionMinutes(CountersOf(read), at.zone, at.now, elapsed);
      if verdict == HitZero {
        session.zeroSince := Some(at.now);
        if rules.zeroGrace <= 0 {
          FinishSession(WithCounters(read, CountersOf(CurrentSession())), at.zone, end, Balance);
        }
      }
    }

    /** The forecast shown to the guest: coin minutes, the sum over his live packages of
        the zone, and the minutes his wallet affords. */
    method MinutesLeft(zone: Option<nat>, now: int) returns (left: int)
      ensures left == Forecast(View(), zone, now)
    {
      var packLeft: int := 0;
      if zone.Some? {
        for i := 0 to |packs.rows|
          invariant packLeft == SumBy(LiveLeft(session.user, zone.value, now), packs.rows[..i])
        {
          var p := packs.rows[i];
          assert packs.rows[..i + 1] == packs.rows[..i] + [p];
          SumByAppend(LiveLeft(session.user, zone.value, now), packs.rows[..i], p);
          if p.user == session.user && p.zone == zone.value && PackageLive(p, now) {
            packLeft := packLeft + p.minutesLeft;
          }
        }
        assert packs.rows[..|packs.rows|] == packs.rows;
        LivePackMinutes(packs.rows, session.user, zone.value, now, |packs.rows|);
      }
      left := Tariff.MinutesLeft(guest.coinMinutes, packLeft, guest.balance, session.rate, session.money);
    }
  }
}
