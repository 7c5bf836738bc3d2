/** What a session's counters say after any run: every billed minute came from one
    source, the charge is the tariff of the money minutes and is what the journal
    shows, and nothing is billed beyond the minutes played. */
module SessionLedger {
  import opened Basics
  import opened Tariff
  import opened Packages
  import opened Wallet
  import opened Sessions
  import opened Settlement
  import opened SessionRun

  /** The amount of a journal row if it is a charge of this session. */
  function SpendOf(session: nat): Entry -> int {
    (e: Entry) => if e.kind == SessionSpend && e.ref == session then e.amount else 0
  }

  ghost predicate Balanced(b: Books) {
    var s := b.session;
    && s.billed == s.coinUsed + s.packUsed + s.money
    && s.charged == CostForMinutes(s.rate, s.money)
    && s.charged == -SumBy(SpendOf(s.id), b.account.journal)
    && Explained(b.account)
  }

  ghost predicate SameCounters(s: Session, t: Session) {
    && (s.id, s.user, s.rate) == (t.id, t.user, t.rate)
    && (s.billed, s.coinUsed, s.packUsed, s.money, s.charged) == (t.billed, t.coinUsed, t.packUsed, t.money, t.charged)
  }

  /** A charge moves the session's total, the journal and the tariff together. */
  lemma ChargeIsTariff(s: Session, account: Account, pay: nat)
    requires Explained(account)
    requires s.charged == CostForMinutes(s.rate, s.money) == -SumBy(SpendOf(s.id), account.journal)
    requires ChargeDelta(s.rate, s.money, pay) <= account.balance
    ensures var charge := ChargeDelta(s.rate, s.money, pay);
      var r := WalletApply(account, Op(SessionSpend, -charge, s.id));
      && r.Applied? && Explained(r.account)
      && s.charged + charge == CostForMinutes(s.rate, s.money + pay) == -SumBy(SpendOf(s.id), r.account.journal)
  {
    hide Explained, AmountOf;
    var charge := ChargeDelta(s.rate, s.money, pay);
    ApplyKeepsExplained(account, Op(SessionSpend, -charge, s.id));
    SumByAppend(SpendOf(s.id), account.journal, Entry(SessionSpend, -charge, account.balance - charge, s.id));
  }

  lemma PostKeepsBalanced(b: Books, useCoin: nat, packs: seq<UserPackage>, usePack: nat, due: nat)
    requires Balanced(b) && b.account.balance >= 0 && useCoin <= b.coinMinutes
    ensures Balanced(Post(b, useCoin, packs, usePack, due).books)
    ensures Post(b, useCoin, packs, usePack, due).books.session.id == b.session.id
  {
    hide CostForMinutes, PaidMinutes, Explained, ChargeDelta, AmountOf;
    var s := b.session;
    PaidIsCovered(b.account.balance, s.rate, s.money, due);
    ChargeIsTariff(s, b.account, PaidMinutes(b.account.balance, s.rate, s.money, due));
  }

  lemma BalancedIsSolvent(b: Books)
    requires Balanced(b)
    ensures b.account.balance >= 0
  {
  }

  lemma SettleKeepsBalanced(b: Books, zone: Option<nat>, now: int, target: int)
    requires Balanced(b)
    ensures Balanced(SettleMinutes(b, zone, now, target).books)
    ensures SettleMinutes(b, zone, now, target).books.session.id == b.session.id
  {
    hide Post, Balanced, SettleMinutes, Drain;
    BalancedIsSolvent(b);
    if target > b.session.billed {
      var drawn := SettleIsPost(b, zone, now, target);
      var delta := target - b.session.billed;
      var coin := Min(delta, b.coinMinutes);
      PostKeepsBalanced(b, coin, drawn.0, drawn.1, delta - coin - drawn.1);
    } else {
      GoneChangesNothing(b, zone, now, target);
    }
  }

  // Counters that were read earlier.

  /** Counters as some row of this rate can have held them. */
  ghost predicate Sane(c: Counters, rate: int) {
    c.billed == c.coinUsed + c.packUsed + c.money && c.charged == CostForMinutes(rate, c.money)
  }

  /** What the row says was charged, less what the journal shows. */
  function Unshown(b: Books): int {
    b.session.charged + SumBy(SpendOf(b.session.id), b.account.journal)
  }

  lemma PostKeepsUnshown(b: Books, useCoin: nat, packs: seq<UserPackage>, usePack: nat, due: nat)
    requires b.account.balance >= 0 && useCoin <= b.coinMinutes
    ensures Unshown(Post(b, useCoin, packs, usePack, due).books) == Unshown(b)
  {
    hide PaidMinutes, ChargeDelta, SumBy;
    var s := b.session;
    var charge := ChargeDelta(s.rate, s.money, PaidMinutes(b.account.balance, s.rate, s.money, due));
    PaidIsCovered(b.account.balance, s.rate, s.money, due);
    SumByAppend(SpendOf(s.id), b.account.journal, Entry(SessionSpend, -charge, b.account.balance - charge, s.id));
  }

  /** Posting from earlier counters keeps the ledger exactly when nothing was charged
      to the session since they were read. */
  lemma PostFromKeepsBalancedIff(b: Books, seen: Counters, useCoin: nat, packs: seq<UserPackage>, usePack: nat, due: nat)
    requires Balanced(b) && b.session.status == Active && useCoin <= b.coinMinutes && Sane(seen, b.session.rate)
    ensures Balanced(PostFrom(b, seen, useCoin, packs, usePack, due).books) <==> seen.charged == b.session.charged
  {
    hide Post, Explained, CostForMinutes, SumBy, SpendOf;
    var t := b.(session := WithCounters(b.session, seen));
    BalancedIsSolvent(b);
    PostPays(t, useCoin, packs, usePack, due);
    PostKeepsUnshown(t, useCoin, packs, usePack, due);
    if seen.charged == b.session.charged {
      PostKeepsBalanced(t, useCoin, packs, usePack, due);
    }
  }

  /** So it is for a whole settlement: too late, not due, or nothing charged since. */
  lemma SettleFromKeepsBalancedIff(b: Books, seen: Counters, zone: Option<nat>, now: int, target: int)
    requires Balanced(b) && Sane(seen, b.session.rate)
    ensures Balanced(SettleFrom(b, seen, zone, now, target).books) <==>
      b.session.status != Active || target <= seen.billed || seen.charged == b.session.charged
  {
    hide Balanced, Post, Sane, SettleMinutes;
    var t := b.(session := WithCounters(b.session, seen));
    GoneChangesNothing(t, zone, now, target);
    if b.session.status == Active && target > seen.billed {
      var drawn := SettleIsPost(t, zone, now, target);
      var delta := target - seen.billed;
      var coin := Min(delta, b.coinMinutes);
      PostFromKeepsBalancedIff(b, seen, coin, drawn.0, drawn.1, delta - coin - drawn.1);
    }
  }

  /** Ten minutes at a zloty each, out of a deposit of fifty. */
  const TenPlayed := Books(
    WithCounters(Seat(0, 0, 6000, 0, 0), Counters(10, 0, 0, 10, 1000)),
    Account(4000, [Entry(Deposit, 5000, 5000, 0), Entry(SessionSpend, -1000, 4000, 0)]), 0, [])

  lemma PriceOfAMinute()
    ensures CostForMinutes(6000, 10) == 1000
    ensures ChargeDelta(6000, 10, 1) == 100 && ChargeDelta(6000, 10, 2) == 200
  {
  }

  lemma TenPlayedClock()
    ensures EffectiveElapsedMinutes(TenPlayed.session, 660) == 11 && EffectiveMinutesCeil(TenPlayed.session, 661) == 12
  {
    assert EffectiveSeconds(TenPlayed.session, 660) == 660;
    assert EffectiveSeconds(TenPlayed.session, 661) == 661;
  }

  lemma TenPlayedIsBalanced()
    ensures Balanced(TenPlayed) && Sane(CountersOf(TenPlayed.session), 6000)
  {
    hide Explained, SumBy, SpendOf, CostForMinutes, ReadyDeadlineFor;
    PriceOfAMinute();
    TwoRowsAreExplained(5000, 1000, 0);
  }

  /** Two settlements from one reading charge the same minute twice. A tick and a
      finish have both read ten billed minutes; the tick settles to eleven, the finish
      a second later to twelve. The wallet has paid for thirteen minutes, the row shows
      twelve, and the ledger that was balanced is not. */
  lemma SameMinuteChargedTwice()
    ensures var s := TenPlayed.session;
      var sweep := SettleFrom(TenPlayed, CountersOf(s), None, 660, EffectiveElapsedMinutes(s, 660)).books;
      var finish := SettleFrom(sweep, CountersOf(s), None, 661, EffectiveMinutesCeil(s, 661)).books;
      && Balanced(TenPlayed) && Balanced(sweep)
      && finish.session.billed == 12 && finish.session.charged == 1200
      && finish.account.balance == 5000 - 1300
      && !Balanced(finish)
  {
    hide SettleFrom, Balanced, Sane, ChargeDelta, EffectiveElapsedMinutes, EffectiveMinutesCeil;
    TenPlayedIsBalanced();
    TenPlayedClock();
    PriceOfAMinute();
    var seen := CountersOf(TenPlayed.session);
    var sweep := SettleFrom(TenPlayed, seen, None, 660, 11).books;
    MoneySettles(TenPlayed, seen, None, 660, 11);
    assert sweep.account.balance == 3900 && sweep.session.charged == 1100;
    SettleFromKeepsBalancedIff(TenPlayed, seen, None, 660, 11);
    MoneySettles(sweep, seen, None, 661, 12);
    SettleFromKeepsBalancedIff(sweep, seen, None, 661, 12);
  }

  /** A deposit and one charge of a session explain the balance. */
  lemma TwoRowsAreExplained(deposit: nat, charge: nat, id: nat)
    requires charge <= deposit
    ensures var journal := [Entry(Deposit, deposit, deposit, 0), Entry(SessionSpend, 0 - charge, deposit - charge, id)];
      Explained(Account(deposit - charge, journal)) && SumBy(SpendOf(id), journal) == 0 - charge
  {
    var first := WalletApply(NewAccount, Op(Deposit, deposit, 0)).account;
    var op := Op(SessionSpend, 0 - charge, id);
    FreshAccountIsExplained();
    ApplyKeepsExplained(NewAccount, Op(Deposit, deposit, 0));
    ApplyKeepsExplained(first, op);
    SumByAppend(SpendOf(id), [], Entry(Deposit, deposit, deposit, 0));
    SumByAppend(SpendOf(id), first.journal, Entry(SessionSpend, 0 - charge, deposit - charge, id));
    assert first.journal == [Entry(Deposit, deposit, deposit, 0)];
    assert WalletApply(first, op).account.journal ==
      [Entry(Deposit, deposit, deposit, 0), Entry(SessionSpend, 0 - charge, deposit - charge, id)];
  }

  /** A settlement from earlier counters, of a guest without coins and packages whose
      wallet covers what is due. */
  lemma MoneySettles(b: Books, seen: Counters, zone: Option<nat>, now: int, target: int)
    requires b.session.status == Active && b.packs == [] && b.coinMinutes == 0 && target > seen.billed
    requires 0 <= ChargeDelta(b.session.rate, seen.money, target - seen.billed) <= b.account.balance
    ensures var r := SettleFrom(b, seen, zone, now, target).books;
      var charge := ChargeDelta(b.session.rate, seen.money, target - seen.billed);
      && CountersOf(r.session) == seen.(billed := target, money := seen.money + (target - seen.billed), charged := seen.charged + charge)
      && r.session == WithCounters(b.session, CountersOf(r.session))
      && r.account.balance == b.account.balance - charge && r.coinMinutes == 0 && r.packs == []
  {
    hide ChargeDelta;
    assert ListingFor(b.packs, b.session.user, zone, now) == [];
    assert Take(b.packs, [], target - seen.billed) == (b.packs, 0);
  }

  lemma FinishKeepsBalanced(b: Books, zone: Option<nat>, now: int, reason: Reason)
    requires Balanced(b)
    ensures Balanced(FinishSession(b, zone, now, reason))
  {
    SettleKeepsBalanced(b, zone, now, EffectiveMinutesCeil(b.session, now));
    hide SettleMinutes, CostForMinutes;
  }

  /** Clock, pause and status fields do not enter the ledger. */
  lemma BalancedIgnoresClock(b: Books, t: Session)
    requires Balanced(b) && SameCounters(b.session, t)
    ensures Balanced(b.(session := t))
  {
  }

  lemma BillKeepsBalanced(b: Books, rules: Rules, at: Sight)
    requires Balanced(b)
    ensures Balanced(BillSession(b, rules, at))
  {
    hide Balanced, FinishSession, SettleMinutes, BillRunning;
    var s := b.session;
    FinishKeepsBalanced(b, at.zone, at.now, Booking);
    FinishKeepsBalanced(b, at.zone, at.now, AfkStop);
    if s.readyDeadline.Some? {
      BalancedIgnoresClock(b, ConfirmReady(s, s.readyDeadline.value));
    }
    BalancedIgnoresClock(b, ResumePause(s, at.now));
    BillRunningKeepsBalanced(b, rules, at);
    BillRunningKeepsBalanced(b.(session := ResumePause(s, at.now)), rules, at);
  }

  lemma BillRunningKeepsBalanced(b: Books, rules: Rules, at: Sight)
    requires Balanced(b)
    ensures Balanced(BillRunning(b, rules, at))
  {
    hide Balanced, FinishSession, BillMoney;
    var s := b.session;
    var warned := s.(afkWarnedAt := if s.afkWarnedAt.None? then Some(at.now) else s.afkWarnedAt);
    BalancedIgnoresClock(b, warned);
    BalancedIgnoresClock(b, StartPause(warned, at.now, Afk));
    FinishKeepsBalanced(b.(session := warned), at.zone, at.now, AfkStop);
    BalancedIgnoresClock(b, s.(afkWarnedAt := None));
    BillMoneyKeepsBalanced(b, rules, at);
    BillMoneyKeepsBalanced(b.(session := s.(afkWarnedAt := None)), rules, at);
  }

  lemma BillMoneyKeepsBalanced(b: Books, rules: Rules, at: Sight)
    requires Balanced(b)
    ensures Balanced(BillMoney(b, rules, at))
  {
    hide Balanced, FinishSession, SettleMinutes;
    var s := b.session;
    FinishKeepsBalanced(b, at.zone, at.now, Balance);
    SettleKeepsBalanced(b, at.zone, at.now, EffectiveElapsedMinutes(s, at.now));
    var r := SettleMinutes(b, at.zone, at.now, EffectiveElapsedMinutes(s, at.now)).books;
    var zero := r.(session := r.session.(zeroSince := Some(at.now)));
    BalancedIgnoresClock(r, zero.session);
    FinishKeepsBalanced(zero, at.zone, at.now, Balance);
  }

  /** A payment that is not a session charge is not mistaken for one. */
  lemma PayKeepsBalanced(b: Books, op: Op)
    requires Balanced(b) && op.kind != SessionSpend
    ensures Balanced(b.(account := Pay(b.account, op)))
  {
    ApplyKeepsExplained(b.account, op);
    var next := b.account.balance + op.amount;
    SumByAppend(SpendOf(b.session.id), b.account.journal, Entry(op.kind, op.amount, next, op.ref));
  }

  lemma PacksDoNotEnter(b: Books, packs: seq<UserPackage>, coinMinutes: nat)
    requires Balanced(b)
    ensures Balanced(b.(packs := packs, coinMinutes := coinMinutes))
  {
  }

  lemma EffectKeepsBalanced(b: Books, zone: Option<nat>, rules: Rules, e: Event)
    requires Balanced(b)
    ensures Balanced(Effect(b, zone, rules, e))
  {
    hide Balanced, FinishSession, BillSession, Pay;
    var s := b.session;
    match e
    case Tick(now, foreignBooking, idle) => BillKeepsBalanced(b, rules, Sight(now, zone, foreignBooking, idle));
    case Ready(now) => BalancedIgnoresClock(b, ConfirmReady(s, now));
    case GuestPause(now) => BalancedIgnoresClock(b, StartPause(s, now, Guest));
    case GuestResume(now) => BalancedIgnoresClock(b, ResumePause(s, now));
    case Move(_, _) =>
    case Finish(now, reason) => FinishKeepsBalanced(b, zone, now, reason);
    case CancelSeat(now) =>
      BalancedIgnoresClock(b, s.(status := Cancelled, endedAt := Some(now), endedReason := Some(SeatCancel)));
    case TopUp(_, amount) =>
      BalancedIgnoresClock(b, Revive(s));
      PayKeepsBalanced(b.(session := Revive(s)), Op(Deposit, amount, 0));
    case Redeem(_, minutes) =>
      BalancedIgnoresClock(b, Revive(s));
      PacksDoNotEnter(b.(session := Revive(s)), b.packs, b.coinMinutes + minutes);
    case BuyPackage(_, pack) =>
      PacksDoNotEnter(b, b.packs + [pack], b.coinMinutes);
      PayKeepsBalanced(b.(packs := b.packs + [pack]), Op(PackageSpend, 0 - pack.price, |b.packs|));
    case PayOther(_, kind, sum) =>
      if kind != SessionSpend {
        PayKeepsBalanced(b, Op(kind, sum, 0));
      }
  }

  /** After any run from seating: billed minutes are the coin, package and money
      minutes; the charge is the tariff of the money minutes and minus the sum of
      this session's rows in the journal; and the journal explains the balance. */
  lemma {:induction false} RunKeepsBalanced(w: World, rules: Rules, events: seq<Event>)
    requires Balanced(w.books)
    ensures Balanced(Run(w, rules, events).books)
    decreases |events|
  {
    if events != [] {
      EffectKeepsBalanced(w.books, w.zone, rules, events[0]);
      RunKeepsBalanced(Step(w, rules, events[0]), rules, events[1..]);
    }
  }

  /** A freshly seated session is balanced, given an account that explains itself
      and holds no charge under this session's id yet. */
  lemma SeatedIsBalanced(id: nat, user: nat, rate: int, waitMin: int, zone: Option<nat>, now: int,
                         account: Account, coinMinutes: nat, packs: seq<UserPackage>)
    requires Explained(account) && SumBy(SpendOf(id), account.journal) == 0
    ensures Balanced(Seated(id, user, rate, waitMin, zone, now, account, coinMinutes, packs).books)
  {
  }

  /** From seating on, after any run, the session's ledger is balanced. */
  lemma SeatedStaysBalanced(id: nat, user: nat, rate: int, waitMin: int, zone: Option<nat>, now: int,
                            account: Account, coinMinutes: nat, packs: seq<UserPackage>, rules: Rules, events: seq<Event>)
    requires Explained(account) && SumBy(SpendOf(id), account.journal) == 0
    ensures Balanced(Run(Seated(id, user, rate, waitMin, zone, now, account, coinMinutes, packs), rules, events).books)
  {
    hide Balanced, Run, Explained;
    SeatedIsBalanced(id, user, rate, waitMin, zone, now, account, coinMinutes, packs);
    RunKeepsBalanced(Seated(id, user, rate, waitMin, zone, now, account, coinMinutes, packs), rules, events);
  }
}
