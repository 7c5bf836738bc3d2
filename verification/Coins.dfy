/** Coins: granted for deposits, play and cases; spent on time and streak freezes;
    burnt when a guest stays away; returned when a redemption is voided. */
module Coins {
  import opened Basics
  import opened Tariff
  import opened Packages

  // Prices in coins.

  /** Coins for `minutes` at `rate` grosz an hour and `spend` coins a zloty, rounded
      up to a multiple of five. */
  function CoinsForMinutes(minutes: int, rate: int, spend: int): int {
    if minutes <= 0 || rate <= 0 || spend <= 0 then 0
    else (rate * spend * minutes + 29999) / 30000 * 5
  }

  /** The price is the least multiple of five that covers the exact price of the time:
      `rate` grosz an hour at `spend` coins for a hundred grosz. */
  lemma PriceIsLeastFive(minutes: int, rate: int, spend: int)
    requires minutes > 0 && rate > 0 && spend > 0
    ensures var coins := CoinsForMinutes(minutes, rate, spend);
      coins % 5 == 0 && 6000 * (coins - 5) < rate * spend * minutes <= 6000 * coins
  {
    ProductPositive(rate, spend);
    ProductPositive(rate * spend, minutes);
  }

  /** Whole minutes that `coins` are worth. */
  function MinutesForCoins(coins: int, rate: int, spend: int): int {
    if coins <= 0 || rate <= 0 || spend <= 0 then 0
    else
      ProductPositive(rate, spend);
      coins * 6000 / (rate * spend)
  }

  /** They are the most whole minutes whose exact price the coins cover. */
  lemma MinutesAreMost(coins: nat, rate: int, spend: int)
    requires rate > 0 && spend > 0
    ensures var minutes := MinutesForCoins(coins, rate, spend);
      minutes >= 0 && rate * spend * minutes <= 6000 * coins < rate * spend * (minutes + 1)
  {
    var k, minutes := rate * spend, MinutesForCoins(coins, rate, spend);
    ProductPositive(rate, spend);
    if coins == 0 {
      assert k * 0 == 0 && k * 1 == k;
    } else {
      QuotientBound(coins * 6000, k, minutes);
      QuotientBound(coins * 6000, k, minutes + 1);
    }
  }

  lemma ProductPositive(a: int, b: int)
    requires a > 0 && b > 0
    ensures a * b > 0
  {
  }

  /** A guest can pay for exactly the minutes that the full fives of his coins are
      worth; the coins beyond them buy nothing. */
  lemma RedeemableIff(minutes: int, coins: int, rate: int, spend: int)
    requires minutes > 0 && rate > 0 && spend > 0 && coins >= 0
    ensures CoinsForMinutes(minutes, rate, spend) <= coins
       <==> minutes <= MinutesForCoins(coins - coins % 5, rate, spend)
  {
    var k, fives := rate * spend, coins / 5;
    ProductPositive(rate, spend);
    ProductPositive(k, minutes);
    QuotientBound(30000 * fives, k, minutes);
    assert CoinsForMinutes(minutes, rate, spend) <= coins <==> k * minutes <= 30000 * fives;
    if fives == 0 {
      assert MinutesForCoins(coins - coins % 5, rate, spend) == 0;
    } else {
      assert MinutesForCoins(coins - coins % 5, rate, spend) == 30000 * fives / k;
    }
  }

  /** The two conversions are not inverse where coins are not a multiple of five: four
      coins convert to two minutes, and two minutes to five coins. */
  lemma ConversionsDiffer()
    ensures MinutesForCoins(4, 600, 20) == 2 && CoinsForMinutes(2, 600, 20) == 5
  {
    assert 600 * 20 * 2 == 24000;
  }

  // Burning.

  const BURN_TAIL := 5
  const BURN_EVERY := 7 * SECONDS_PER_DAY

  function BurnAmount(balance: int, pct: int): int {
    if balance <= 0 || pct <= 0 then 0
    else if pct >= 100 then balance
    else
      var share := (balance * pct + 99) / 100;
      if balance - share < BURN_TAIL then balance else share
  }

  /** A burn takes something and never more than there is; it takes the percentage,
      rounded up, unless what would remain is a tail too short to keep. */
  lemma BurnBounds(balance: int, pct: int)
    requires balance > 0 && pct > 0
    ensures var burnt := BurnAmount(balance, pct);
      && 1 <= burnt <= balance
      && 100 * burnt >= Min(pct, 100) * balance
      && (burnt == balance || (balance - burnt >= 5 && 100 * (burnt - 1) < pct * balance))
      && (burnt == balance ==> pct >= 100 || 100 * (balance - 4) <= pct * balance + 99)
  {
    ProductPositive(balance, pct);
    if pct < 100 {
      assert balance * (100 - pct) == 100 * balance - balance * pct;
      ProductPositive(balance, 100 - pct);
    }
  }

  function BurnRepeatedly(balance: int, pct: int, times: nat): int {
    if times == 0 then balance
    else BurnRepeatedly(balance - BurnAmount(balance, pct), pct, times - 1)
  }

  /** No tail is left for ever: as many burns as there are coins end at zero. */
  lemma {:induction false} BalanceMeltsAway(balance: nat, pct: int, times: nat)
    requires pct > 0 && times >= balance
    ensures BurnRepeatedly(balance, pct, times) == 0
  {
    if times > 0 {
      if balance > 0 {
        BurnBounds(balance, pct);
      }
      BalanceMeltsAway(balance - BurnAmount(balance, pct), pct, times - 1);
    }
  }

  predicate ShouldBurn(lastSession: int, lastBurn: Option<int>, now: int, idleDays: int, pct: int) {
    if idleDays <= 0 || pct <= 0 then false
    else if now - lastSession < idleDays * SECONDS_PER_DAY then false
    else !(lastBurn.Some? && lastBurn.value > lastSession && now - lastBurn.value < BURN_EVERY)
  }

  /** A guest is due from one moment on: when he has been away for the idle time and, if
      he was burnt since his last session, a week has passed since. Never if either
      setting is off. */
  lemma DueFromAMomentOn(lastSession: int, lastBurn: Option<int>, now: int, idleDays: int, pct: int)
    ensures var idle := lastSession + idleDays * 86400;
      var due := if lastBurn.Some? && lastBurn.value > lastSession then Max(idle, lastBurn.value + 604800) else idle;
      ShouldBurn(lastSession, lastBurn, now, idleDays, pct) <==> idleDays > 0 && pct > 0 && due <= now
  {
  }

  /** A pass burns although the guest's last burn was at `lastBurn`; its scan, made
      earlier, saw `seenBurn`. */
  predicate BurnsAfter(lastBurn: int, lastSession: int, seenBurn: Option<int>, now: int, idleDays: int, pct: int) {
    lastBurn <= now && ShouldBurn(lastSession, seenBurn, now, idleDays, pct)
  }

  /** For all histories a burn comes at least a week after the one before it. */
  ghost predicate WeekApart(idleDays: int, pct: int, upToDate: bool) {
    forall lastBurn, lastSession, seenBurn: Option<int>, now ::
      (upToDate ==> seenBurn == Some(lastBurn)) && BurnsAfter(lastBurn, lastSession, seenBurn, now, idleDays, pct) ==>
        now - lastBurn >= 7 * 86400
  }

  /** At most one burn a week for a guest, exactly when every pass has seen the burn
      before it and the idle time is set to a week or more: a guest who returned after
      a burn and left again is due after the idle time alone, and of two passes that
      both scanned first, the timed one and a manual one, both burn. */
  lemma BurnsAreAWeekApartIff(idleDays: int, pct: int, upToDate: bool)
    requires idleDays > 0 && pct > 0
    ensures WeekApart(idleDays, pct, upToDate) <==> upToDate && idleDays >= 7
  {
    var idle := idleDays * SECONDS_PER_DAY;
    if !upToDate {
      assert BurnsAfter(idle, 0, None, idle, idleDays, pct);
    } else if idleDays < 7 {
      assert BurnsAfter(0, 0, Some(0), idle, idleDays, pct);
    }
  }

  // Streak freezes.

  /** All or nothing: a gap is covered whole or not at all. */
  function FreezesForGap(gap: int, stock: int, maxRow: int): int {
    if gap <= 0 || maxRow <= 0 || stock <= 0 then 0
    else if gap > maxRow || gap > stock then 0
    else gap
  }

  /** A gap is covered exactly when it is short enough and the stock reaches. */
  lemma GapIsCoveredIff(gap: int, stock: int, maxRow: int)
    ensures FreezesForGap(gap, stock, maxRow) == if 1 <= gap <= maxRow && gap <= stock then gap else 0
  {
  }

  // The rows that move coins.

  datatype Drop = CoinDrop(coins: nat) | Buster(amount: int)

  datatype DepositRow = DepositRow(grosz: nat, coins: nat)

  /** A case, opened or not yet. */
  datatype Case = Case(drop: Option<Drop>)

  /** Time given for coins. `takenBack` and `returned` say what a void undid. */
  datatype Redemption = Redemption(minutes: nat, coins: nat, voided: bool, takenBack: nat, returned: nat)

  /** One guest's coins: the balance column, and the rows that explain it. `earned`
      has a place for every session, filled when the session is finished. */
  datatype CoinBook = CoinBook(
    balance: int, freezes: int,
    deposits: seq<DepositRow>, earned: seq<Option<nat>>, cases: seq<Case>,
    redemptions: seq<Redemption>, burns: seq<int>, spends: seq<int>, frozenDays: nat)

  const EmptyBook := CoinBook(0, 0, [], [], [], [], [], [], 0)

  datatype Event =
    | Deposited(grosz: nat, coins: nat)
    | SessionStarted
    | SessionFinished(session: nat, coins: nat)
    | CaseGranted
    | CaseOpened(at: nat, drop: Drop)
    | Redeemed(minutes: int, rate: int, spend: int)
    | RedemptionVoided(at: nat, held: nat)
    | Burnt(seen: int, pct: int)
    | FreezeBought(cost: int)
    | GapFrozen(gap: int, seenStock: int, maxRow: int)

  function AfterDeposit(b: CoinBook, grosz: nat, coins: nat): CoinBook {
    b.(balance := b.balance + coins, deposits := b.deposits + [DepositRow(grosz, coins)])
  }

  /** Finishing pays once: only the first of several finishers finds the place empty. */
  function AfterFinish(b: CoinBook, session: nat, coins: nat): CoinBook {
    if session >= |b.earned| || b.earned[session].Some? then b
    else b.(balance := b.balance + coins, earned := b.earned[session := Some(coins)])
  }

  function AfterOpening(b: CoinBook, at: nat, drop: Drop): CoinBook {
    if at >= |b.cases| || b.cases[at].drop.Some? then b
    else b.(balance := b.balance + DropCoins(Case(Some(drop))), cases := b.cases[at := Case(Some(drop))])
  }

  function AfterRedeem(b: CoinBook, minutes: int, rate: int, spend: int): CoinBook {
    var coins := CoinsForMinutes(minutes, rate, spend);
    if minutes <= 0 || coins <= 0 || b.balance < coins then b
    else b.(balance := b.balance - coins,
            redemptions := b.redemptions + [Redemption(minutes, coins, false, 0, 0)])
  }

  /** The void takes back what the guest still holds of the minutes, and returns
      that share of the coins. */
  function Voided(r: Redemption, held: nat): Redemption {
    var takenBack := Min(r.minutes, held);
    r.(voided := true, takenBack := takenBack, returned := RefundForVoid(r.coins, r.minutes, takenBack))
  }

  function AfterVoid(b: CoinBook, at: nat, held: nat): CoinBook {
    if at >= |b.redemptions| || b.redemptions[at].voided then b
    else
      var r := Voided(b.redemptions[at], held);
      b.(balance := b.balance + r.returned, redemptions := b.redemptions[at := r])
  }

  /** The amount is computed from the balance the scan saw. */
  function AfterBurn(b: CoinBook, seen: int, pct: int): CoinBook {
    var coins := BurnAmount(seen, pct);
    if coins <= 0 || b.balance < coins then b
    else b.(balance := b.balance - coins, burns := b.burns + [coins])
  }

  function AfterFreeze(b: CoinBook, cost: int): CoinBook {
    if cost <= 0 || b.balance < cost then b
    else b.(balance := b.balance - cost, freezes := b.freezes + 1, spends := b.spends + [cost])
  }

  /** The length of the cover is computed from the stock that was read. */
  function AfterGap(b: CoinBook, gap: int, seenStock: int, maxRow: int): CoinBook {
    var days := FreezesForGap(gap, seenStock, maxRow);
    if days <= 0 || b.freezes < days then b
    else b.(freezes := b.freezes - days, frozenDays := b.frozenDays + days)
  }

  function Step(b: CoinBook, e: Event): CoinBook {
    match e
    case Deposited(grosz, coins) => AfterDeposit(b, grosz, coins)
    case SessionStarted => b.(earned := b.earned + [None])
    case SessionFinished(session, coins) => AfterFinish(b, session, coins)
    case CaseGranted => b.(cases := b.cases + [Case(None)])
    case CaseOpened(at, drop) => AfterOpening(b, at, drop)
    case Redeemed(minutes, rate, spend) => AfterRedeem(b, minutes, rate, spend)
    case RedemptionVoided(at, held) => AfterVoid(b, at, held)
    case Burnt(seen, pct) => AfterBurn(b, seen, pct)
    case FreezeBought(cost) => AfterFreeze(b, cost)
    case GapFrozen(gap, seenStock, maxRow) => AfterGap(b, gap, seenStock, maxRow)
  }

  // What each step writes.

  lemma DepositWrites(b: CoinBook, grosz: nat, coins: nat)
    ensures Step(b, Deposited(grosz, coins))
         == b.(balance := b.balance + coins, deposits := b.deposits + [DepositRow(grosz, coins)])
  {
  }

  /** A finished session is paid what it earned, into its own place, once. */
  lemma PayoutWrites(b: CoinBook, session: nat, coins: nat)
    ensures Step(b, SessionFinished(session, coins)) ==
      if session < |b.earned| && b.earned[session] == None
      then b.(balance := b.balance + coins, earned := b.earned[session := Some(coins)]) else b
    ensures Step(b, SessionStarted) == b.(earned := b.earned + [None])
  {
  }

  /** An unopened case gives what dropped: coins, or nothing to the balance. */
  lemma CaseWrites(b: CoinBook, at: nat, drop: Drop)
    ensures Step(b, CaseOpened(at, drop)) ==
      if at < |b.cases| && b.cases[at].drop == None
      then b.(balance := b.balance + (if drop.CoinDrop? then drop.coins else 0), cases := b.cases[at := Case(Some(drop))])
      else b
    ensures Step(b, CaseGranted) == b.(cases := b.cases + [Case(None)])
  {
  }

  /** A redemption costs its price and records minutes and price; refused if there is
      nothing to sell or the balance is short. */
  lemma RedemptionWrites(b: CoinBook, minutes: int, rate: int, spend: int)
    ensures var coins := CoinsForMinutes(minutes, rate, spend);
      var sold := minutes > 0 && rate > 0 && spend > 0 && coins <= b.balance;
      Step(b, Redeemed(minutes, rate, spend)) ==
        if sold
        then b.(balance := b.balance - coins,
                redemptions := b.redemptions + [Redemption(minutes, coins, false, 0, 0)])
        else b
  {
    if minutes > 0 && rate > 0 && spend > 0 {
      PriceIsLeastFive(minutes, rate, spend);
      ProductPositive(rate, spend);
      ProductPositive(rate * spend, minutes);
    }
    hide CoinsForMinutes;
    NothingIsFree(minutes, rate, spend);
  }

  lemma NothingIsFree(minutes: int, rate: int, spend: int)
    ensures minutes <= 0 || rate <= 0 || spend <= 0 ==> CoinsForMinutes(minutes, rate, spend) == 0
  {
  }

  /** A void takes back the held part of the minutes and returns that part of the coins,
      rounded down; a second one does nothing. */
  lemma VoidWrites(b: CoinBook, at: nat, held: nat)
    requires at < |b.redemptions| && b.redemptions[at].minutes > 0
    ensures var r := b.redemptions[at];
      var takenBack := if held < r.minutes then held else r.minutes;
      var returned := r.coins * takenBack / r.minutes;
      Step(b, RedemptionVoided(at, held)) ==
        if r.voided then b
        else b.(balance := b.balance + returned,
                redemptions := b.redemptions[at := Redemption(r.minutes, r.coins, true, takenBack, returned)])
  {
    var r := b.redemptions[at];
    var takenBack := if held < r.minutes then held else r.minutes;
    assert r.coins == 0 || takenBack == 0 ==> r.coins * takenBack == 0;
  }

  /** A burn takes the amount computed from the balance that was seen, if it is there. */
  lemma BurnWrites(b: CoinBook, seen: int, pct: int)
    ensures var coins := BurnAmount(seen, pct);
      Step(b, Burnt(seen, pct)) ==
        if seen > 0 && pct > 0 && coins <= b.balance
        then b.(balance := b.balance - coins, burns := b.burns + [coins]) else b
  {
    hide BurnAmount;
    NothingToBurn(seen, pct);
    if seen > 0 && pct > 0 {
      BurnBounds(seen, pct);
    }
  }

  lemma NothingToBurn(seen: int, pct: int)
    ensures seen <= 0 || pct <= 0 ==> BurnAmount(seen, pct) == 0
  {
  }

  /** A freeze costs its price and adds one to the stock; covering a gap uses as many as
      it has days. */
  lemma FreezeWrites(b: CoinBook, cost: int, gap: int, seenStock: int, maxRow: int)
    ensures Step(b, FreezeBought(cost)) ==
      if 0 < cost <= b.balance
      then b.(balance := b.balance - cost, freezes := b.freezes + 1, spends := b.spends + [cost]) else b
    ensures Step(b, GapFrozen(gap, seenStock, maxRow)) ==
      if 1 <= gap <= maxRow && gap <= seenStock && gap <= b.freezes
      then b.(freezes := b.freezes - gap, frozenDays := b.frozenDays + gap) else b
  {
  }

  function Run(b: CoinBook, events: seq<Event>): CoinBook
    decreases |events|
  {
    if events == [] then b else Run(Step(b, events[0]), events[1..])
  }

  // What each kind of row is worth.

  function DepositCoins(d: DepositRow): int {
    d.coins
  }

  function EarnedCoins(e: Option<nat>): int {
    if e.Some? then e.value else 0
  }

  function DropCoins(c: Case): int {
    if c.drop.Some? && c.drop.value.CoinDrop? then c.drop.value.coins else 0
  }

  function PaidCoins(r: Redemption): int {
    r.coins
  }

  function ReturnedCoins(r: Redemption): int {
    r.returned
  }

  function Amount(n: int): int {
    n
  }

  function Issued(b: CoinBook): int {
    SumBy(DepositCoins, b.deposits) + SumBy(EarnedCoins, b.earned) + SumBy(DropCoins, b.cases)
  }

  function Spent(b: CoinBook): int {
    SumBy(PaidCoins, b.redemptions) + SumBy(Amount, b.burns) + SumBy(Amount, b.spends)
  }

  /** A void returns at most the coins paid, in proportion to the minutes taken back. */
  ghost predicate Proportionate(r: Redemption) {
    && r.takenBack <= r.minutes && r.returned <= r.coins
    && (!r.voided ==> r.takenBack == 0 && r.returned == 0)
    && r.returned * r.minutes <= r.coins * r.takenBack
  }

  /** The balance is what the rows say, never negative, and every freeze bought is
      either held or was used. */
  ghost predicate Accounted(b: CoinBook) {
    && b.balance == Issued(b) - Spent(b) + SumBy(ReturnedCoins, b.redemptions)
    && b.balance >= 0
    && (forall i :: 0 <= i < |b.redemptions| ==> Proportionate(b.redemptions[i]))
    && b.freezes >= 0 && b.freezes + b.frozenDays == |b.spends|
  }

  lemma VoidIsProportionate(r: Redemption, held: nat)
    requires Proportionate(r)
    ensures Proportionate(Voided(r, held))
  {
    var takenBack := Min(r.minutes, held);
    if !(r.coins > 0 && takenBack > 0) {
      assert r.coins == 0 || takenBack == 0;
    }
  }

  lemma StepKeepsAccounted(b: CoinBook, e: Event)
    requires Accounted(b)
    ensures Accounted(Step(b, e))
  {
    hide CoinsForMinutes, BurnAmount, Proportionate, RefundForVoid, SumBy;
    match e
    case Deposited(grosz, coins) => SumByAppend(DepositCoins, b.deposits, DepositRow(grosz, coins));
    case SessionStarted => SumByAppend(EarnedCoins, b.earned, None);
    case SessionFinished(i, coins) =>
      if i < |b.earned| && b.earned[i].None? {
        SumByUpdate(EarnedCoins, b.earned, i, Some(coins));
      }
    case CaseGranted => SumByAppend(DropCoins, b.cases, Case(None));
    case CaseOpened(i, drop) =>
      if i < |b.cases| && b.cases[i].drop.None? {
        SumByUpdate(DropCoins, b.cases, i, Case(Some(drop)));
      }
    case Redeemed(minutes, rate, spend) => RedeemKeepsAccounted(b, minutes, rate, spend);
    case RedemptionVoided(i, held) => VoidKeepsAccounted(b, i, held);
    case Burnt(seen, pct) =>
      if BurnAmount(seen, pct) > 0 {
        SumByAppend(Amount, b.burns, BurnAmount(seen, pct));
      }
    case FreezeBought(cost) =>
      if cost > 0 {
        SumByAppend(Amount, b.spends, cost);
      }
    case GapFrozen(_, _, _) =>
  }

  lemma FreshIsProportionate(minutes: nat, coins: nat)
    ensures Proportionate(Redemption(minutes, coins, false, 0, 0))
  {
  }

  lemma RedeemKeepsAccounted(b: CoinBook, minutes: int, rate: int, spend: int)
    requires Accounted(b)
    ensures Accounted(AfterRedeem(b, minutes, rate, spend))
  {
    hide CoinsForMinutes, Proportionate, SumBy;
    var coins := CoinsForMinutes(minutes, rate, spend);
    if minutes > 0 && coins > 0 {
      var r := Redemption(minutes, coins, false, 0, 0);
      SumByAppend(PaidCoins, b.redemptions, r);
      SumByAppend(ReturnedCoins, b.redemptions, r);
      FreshIsProportionate(minutes, coins);
    }
  }

  lemma VoidKeepsAccounted(b: CoinBook, at: nat, held: nat)
    requires Accounted(b)
    ensures Accounted(AfterVoid(b, at, held))
  {
    hide Proportionate, RefundForVoid, SumBy;
    if at < |b.redemptions| && !b.redemptions[at].voided {
      var r := Voided(b.redemptions[at], held);
      SumByUpdate(PaidCoins, b.redemptions, at, r);
      SumByUpdate(ReturnedCoins, b.redemptions, at, r);
      VoidIsProportionate(b.redemptions[at], held);
      VoidReturnsNothingBefore(b, at);
    }
  }

  lemma VoidReturnsNothingBefore(b: CoinBook, at: nat)
    requires Accounted(b) && at < |b.redemptions|
    ensures !b.redemptions[at].voided ==> b.redemptions[at].returned == 0
  {
    assert Proportionate(b.redemptions[at]);
  }

  /** After any run the balance equals coins issued, minus coins spent, plus coins
      returned, and is never negative. */
  lemma {:induction false} RunKeepsAccounted(b: CoinBook, events: seq<Event>)
    requires Accounted(b)
    ensures Accounted(Run(b, events))
    decreases |events|
  {
    if events != [] {
      StepKeepsAccounted(b, events[0]);
      RunKeepsAccounted(Step(b, events[0]), events[1..]);
    }
  }

  lemma EmptyIsAccounted()
    ensures Accounted(EmptyBook)
  {
  }

  /** Rows paid out stay as they are. */
  ghost predicate KeepsPaid(b: CoinBook, b': CoinBook) {
    && |b.earned| <= |b'.earned| && |b.cases| <= |b'.cases| && |b.redemptions| <= |b'.redemptions|
    && (forall i :: 0 <= i < |b.earned| && b.earned[i].Some? ==> b'.earned[i] == b.earned[i])
    && (forall i :: 0 <= i < |b.cases| && b.cases[i].drop.Some? ==> b'.cases[i] == b.cases[i])
    && (forall i :: 0 <= i < |b.redemptions| && b.redemptions[i].voided ==> b'.redemptions[i] == b.redemptions[i])
  }

  lemma {:induction false} PaidStaysPaid(b: CoinBook, events: seq<Event>)
    ensures KeepsPaid(b, Run(b, events))
    decreases |events|
  {
    if events != [] {
      PaidStaysPaid(Step(b, events[0]), events[1..]);
      StepKeepsPaid(b, events[0]);
    }
  }

  lemma StepKeepsPaid(b: CoinBook, e: Event)
    ensures KeepsPaid(b, Step(b, e))
  {
    hide CoinsForMinutes, BurnAmount, RefundForVoid, FreezesForGap;
  }

  /** Whatever happens in between, a second finisher of a session, a second opening
      of a case and a second void of a redemption pay nothing and change nothing. */
  lemma SecondPayoutDoesNothing(b: CoinBook, first: Event, events: seq<Event>, second: Event)
    requires
      || (first.SessionFinished? && second.SessionFinished? && first.session == second.session < |b.earned|)
      || (first.CaseOpened? && second.CaseOpened? && first.at == second.at < |b.cases|)
      || (first.RedemptionVoided? && second.RedemptionVoided? && first.at == second.at < |b.redemptions|)
    ensures var later := Run(Step(b, first), events); Step(later, second) == later
  {
    PaidStaysPaid(Step(b, first), events);
  }

  /** Two passes that scanned the same balance both burn exactly when twice the amount
      is there: the update looks at the balance alone. */
  lemma BothPassesBurnIff(b: CoinBook, pct: int)
    requires b.balance > 0 && pct > 0
    ensures var burnt := BurnAmount(b.balance, pct);
      var once := Step(b, Burnt(b.balance, pct));
      var twice := Step(once, Burnt(b.balance, pct));
      && once.balance == b.balance - burnt && once.burns == b.burns + [burnt]
      && twice == if 2 * burnt <= b.balance
           then once.(balance := b.balance - 2 * burnt, burns := b.burns + [burnt, burnt]) else once
  {
    hide BurnAmount;
    BurnBounds(b.balance, pct);
    var burnt := BurnAmount(b.balance, pct);
    assert b.burns + [burnt] + [burnt] == b.burns + [burnt, burnt];
  }

  /** From registration on, whatever happens. */
  lemma CoinsAreAlwaysAccounted(events: seq<Event>)
    ensures Accounted(Run(EmptyBook, events))
  {
    hide Accounted, Run;
    EmptyIsAccounted();
    RunKeepsAccounted(EmptyBook, events);
  }

  /** The coin columns of the guest's row and the rows beside them. */
  class CoinDesk {
    var balance: int
    var coinMinutes: nat
    var freezes: int
    var deposits: seq<DepositRow>
    var earned: seq<Option<nat>>
    var cases: seq<Case>
    var redemptions: seq<Redemption>
    var burns: seq<int>
    var spends: seq<int>
    var frozenDays: nat

    constructor ()
      ensures View() == EmptyBook && coinMinutes == 0
    {
      balance, coinMinutes, freezes, frozenDays := 0, 0, 0, 0;
      deposits, earned, cases, redemptions, burns, spends := [], [], [], [], [], [];
    }

    ghost function View(): CoinBook
      reads this
    {
      CoinBook(balance, freezes, deposits, earned, cases, redemptions, burns, spends, frozenDays)
    }

    method OpenCase(at: nat, drop: Drop) returns (ok: bool)
      modifies this
      ensures View() == Step(old(View()), CaseOpened(at, drop)) && coinMinutes == old(coinMinutes)
      ensures ok <==> at < |old(cases)| && old(cases)[at].drop.None?
      ensures balance == old(balance) + if ok && drop.CoinDrop? then drop.coins else 0
      ensures cases == if ok then old(cases)[at := Case(Some(drop))] else old(cases)
    {
      if at >= |cases| || cases[at].drop.Some? {
        return false;
      }
      cases := cases[at := Case(Some(drop))];
      match drop {
        case CoinDrop(coins) => balance := balance + coins;
        case Buster(_) =>
      }
      ok := true;
    }

    method Redeem(minutes: int, rate: int, spend: int) returns (ok: bool)
      modifies this
      ensures View() == Step(old(View()), Redeemed(minutes, rate, spend))
      ensures coinMinutes == old(coinMinutes) + if ok then Max(minutes, 0) else 0
      ensures ok <==> minutes > 0 && 0 < CoinsForMinutes(minutes, rate, spend) <= old(balance)
      ensures balance == old(balance) - if ok then CoinsForMinutes(minutes, rate, spend) else 0
      ensures redemptions == old(redemptions) +
        if ok then [Redemption(minutes, CoinsForMinutes(minutes, rate, spend), false, 0, 0)] else []
      ensures !ok ==> View() == old(View())
    {
      if minutes <= 0 {
        return false;
      }
      var coins := CoinsForMinutes(minutes, rate, spend);
      if coins <= 0 || balance < coins {
        return false;
      }
      balance := balance - coins;
      coinMinutes := coinMinutes + minutes;
      redemptions := redemptions + [Redemption(minutes, coins, false, 0, 0)];
      ok := true;
    }

    method VoidRedemption(at: nat) returns (ok: bool)
      modifies this
      ensures View() == Step(old(View()), RedemptionVoided(at, old(coinMinutes)))
      ensures ok <==> at < |old(redemptions)| && !old(redemptions)[at].voided
      ensures coinMinutes == old(coinMinutes) - if ok then redemptions[at].takenBack else 0
      ensures ok ==> |redemptions| == |old(redemptions)| && redemptions[at].voided
      ensures ok ==> redemptions[at].takenBack == Min(old(redemptions)[at].minutes, old(coinMinutes))
      ensures balance == old(balance) + if ok then redemptions[at].returned else 0
      ensures ok && old(redemptions)[at].minutes > 0 ==>
        redemptions[at].returned == old(redemptions)[at].coins * redemptions[at].takenBack / old(redemptions)[at].minutes
    {
      if at >= |redemptions| || redemptions[at].voided {
        return false;
      }
      var r := redemptions[at];
      var takenBack := r.minutes;
      if coinMinutes < takenBack {
        takenBack := coinMinutes;
      }
      coinMinutes := if coinMinutes - r.minutes > 0 then coinMinutes - r.minutes else 0;
      var returned := RefundForVoid(r.coins, r.minutes, takenBack);
      redemptions := redemptions[at := r.(voided := true, takenBack := takenBack, returned := returned)];
      if returned > 0 {
        balance := balance + returned;
      }
      ok := true;
    }

    method Burn(seen: int, pct: int) returns (coins: int)
      modifies this
      ensures View() == Step(old(View()), Burnt(seen, pct)) && coinMinutes == old(coinMinutes)
      ensures balance == old(balance) - coins
      ensures coins == if 0 < BurnAmount(seen, pct) <= old(balance) then BurnAmount(seen, pct) else 0
      ensures burns == old(burns) + if coins > 0 then [coins] else []
    {
      coins := BurnAmount(seen, pct);
      if coins <= 0 || balance < coins {
        return 0;
      }
      balance := balance - coins;
      burns := burns + [coins];
    }

    method BuyFreeze(cost: int) returns (ok: bool)
      modifies this
      ensures View() == Step(old(View()), FreezeBought(cost)) && coinMinutes == old(coinMinutes)
      ensures ok <==> 0 < cost <= old(balance)
      ensures balance == old(balance) - (if ok then cost else 0) && freezes == old(freezes) + (if ok then 1 else 0)
      ensures spends == old(spends) + if ok then [cost] else []
    {
      if cost <= 0 || balance < cost {
        return false;
      }
      balance, freezes := balance - cost, freezes + 1;
      spends := spends + [cost];
      ok := true;
    }

    method ApplyFreezes(gap: int, seenStock: int, maxRow: int) returns (days: int)
      modifies this
      ensures View() == Step(old(View()), GapFrozen(gap, seenStock, maxRow)) && coinMinutes == old(coinMinutes)
      ensures freezes == old(freezes) - days && frozenDays == old(frozenDays) + Max(days, 0)
      ensures days == if 1 <= gap <= maxRow && gap <= seenStock && gap <= old(freezes) then gap else 0
    {
      days := FreezesForGap(gap, seenStock, maxRow);
      if days == 0 || freezes < days {
        return 0;
      }
      freezes, frozenDays := freezes - days, frozenDays + days;
    }
  }
}
