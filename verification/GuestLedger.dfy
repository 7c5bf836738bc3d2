/** The ledgers of a guest agree after any interleaving of transactions: minutes
    given equal minutes played, held and taken back; the wallet equals what the
    business rows say; and every session's charge is in the journal under its id. */
module GuestLedger {
  import opened Basics
  import opened Tariff
  import opened Packages
  import opened PackageSales
  import opened Wallet
  import opened Sessions
  import opened Settlement
  import opened SessionRun
  import opened SessionLedger
  import opened Coins
  import opened GuestBooks

  function DrainedOf(u: Usage): int { u.drained }
  function RefundOf(u: Usage): int { u.refund }
  function PackUsedOf(s: Session): int { s.packUsed }
  function CoinUsedOf(s: Session): int { s.coinUsed }
  function ChargedOf(s: Session): int { s.charged }
  function MinutesOf(r: Redemption): int { r.minutes }
  function TakenBackOf(r: Redemption): int { r.takenBack }
  function GroszOf(d: DepositRow): int { d.grosz }
  function WalletPriceOf(p: UserPackage): int { if p.fromWallet then p.price else 0 }
  function TabOf(t: Tab): int { if t.returned then 0 else t.total }

  // Minutes.

  ghost predicate PackageAgrees(p: UserPackage, u: Usage) {
    && u.drained >= 0
    && p.minutesTotal == p.minutesLeft + u.drained + u.takenBack
    && 0 <= u.refund <= p.price
    && (!p.voided ==> u.takenBack == 0 && u.refund == 0)
    && (p.voided ==> p.minutesLeft == 0)
  }

  /** Every package is left, drawn or taken back; what was drawn is what sessions
      used; coin minutes given are used, held or taken back. */
  ghost predicate MinutesAgree(g: GuestBook) {
    && |g.usage| == |g.packs|
    && (forall i :: 0 <= i < |g.packs| ==> PackageAgrees(g.packs[i], g.usage[i]))
    && SumBy(DrainedOf, g.usage) == SumBy(PackUsedOf, g.sessions)
    && SumBy(MinutesOf, g.coins.redemptions)
       == SumBy(CoinUsedOf, g.sessions) + g.coinMinutes + SumBy(TakenBackOf, g.coins.redemptions)
  }

  // Money.

  /** The wallet as the business rows explain it. */
  function WalletOfRows(g: GuestBook): int {
    SumBy(GroszOf, g.coins.deposits) - SumBy(ChargedOf, g.sessions)
    - SumBy(WalletPriceOf, g.packs) + SumBy(RefundOf, g.usage) - SumBy(TabOf, g.tabs)
  }

  ghost predicate SessionsAgree(sessions: seq<Session>, account: Account) {
    && (forall i :: 0 <= i < |sessions| ==> SessionAgrees(sessions[i], i, account))
    && (forall id: nat :: id >= |sessions| ==> SumBy(SpendOf(id), account.journal) == 0)
  }

  ghost predicate SessionAgrees(s: Session, id: nat, account: Account) {
    && s.id == id
    && s.billed == s.coinUsed + s.packUsed + s.money
    && s.charged == CostForMinutes(s.rate, s.money) == -SumBy(SpendOf(id), account.journal)
  }

  ghost predicate MoneyAgrees(g: GuestBook) {
    && Explained(g.account)
    && g.account.balance == WalletOfRows(g)
    && SessionsAgree(g.sessions, g.account)
  }

  /** A session is paid coins exactly when it is completed. */
  ghost predicate RewardsAgree(g: GuestBook) {
    && |g.coins.earned| == |g.sessions|
    && forall i :: 0 <= i < |g.sessions| ==> (g.coins.earned[i].Some? <==> g.sessions[i].status == Completed)
  }

  ghost predicate Agrees(g: GuestBook) {
    MinutesAgree(g) && MoneyAgrees(g) && Accounted(g.coins) && RewardsAgree(g)
  }

  // A settlement.

  /** What one settlement moves between its rows. */
  ghost predicate Moved(b: Books, r: Books) {
    && SamePurchases(b.packs, r.packs) && NoneGrew(b.packs, r.packs)
    && SumBy(LeftOf, r.packs) + r.session.packUsed == SumBy(LeftOf, b.packs) + b.session.packUsed
    && r.coinMinutes + r.session.coinUsed == b.coinMinutes + b.session.coinUsed
    && r.account.balance + r.session.charged == b.account.balance + b.session.charged
    && (r.session.id, r.session.status, r.session.rate) == (b.session.id, b.session.status, b.session.rate)
    && forall id: nat :: id != b.session.id ==>
         SumBy(SpendOf(id), r.account.journal) == SumBy(SpendOf(id), b.account.journal)
  }

  lemma NothingMoved(b: Books)
    ensures Moved(b, b)
  {
  }

  lemma PostMoves(b: Books, useCoin: nat, packs: seq<UserPackage>, usePack: nat, due: nat)
    requires useCoin <= b.coinMinutes
    requires SamePurchases(b.packs, packs) && NoneGrew(b.packs, packs)
    requires SumBy(LeftOf, packs) == SumBy(LeftOf, b.packs) - usePack
    ensures Moved(b, Post(b, useCoin, packs, usePack, due).books)
  {
    hide SamePurchases, NoneGrew, PaidMinutes, ChargeDelta, LeftOf;
    NothingMoved(b);
    var s := b.session;
    var charge := ChargeDelta(s.rate, s.money, PaidMinutes(b.account.balance, s.rate, s.money, due));
    forall id: nat | id != s.id
      ensures SumBy(SpendOf(id), b.account.journal + [Entry(SessionSpend, -charge, b.account.balance - charge, s.id)])
           == SumBy(SpendOf(id), b.account.journal)
    {
      SumByAppend(SpendOf(id), b.account.journal, Entry(SessionSpend, -charge, b.account.balance - charge, s.id));
    }
    PaidChargesAreNotNegative(b.account.balance, s.rate, s.money, due);
  }

  lemma PaidChargesAreNotNegative(wallet: int, rate: int, already: nat, due: nat)
    ensures ChargeDelta(rate, already, PaidMinutes(wallet, rate, already, due)) >= 0
  {
    hide ChargeDelta, PaidMinutes;
    ChargeIsNonNegative(rate, already, PaidMinutes(wallet, rate, already, due));
  }

  lemma SettleMoves(b: Books, zone: Option<nat>, now: int, target: int)
    ensures Moved(b, SettleMinutes(b, zone, now, target).books)
  {
    hide Post, Take, ListingFor, Moved, SamePurchases, NoneGrew;
    NothingMoved(b);
    SamePurchasesSelf(b.packs);
    if target > b.session.billed {
      var delta := target - b.session.billed;
      var coin := Min(delta, b.coinMinutes);
      var listing := ListingFor(b.packs, b.session.user, zone, now);
      TakeConserves(b.packs, listing, delta - coin);
      var (packs, usePack) := if delta - coin > 0 then Take(b.packs, listing, delta - coin) else (b.packs, 0);
      PostMoves(b, coin, packs, usePack, delta - coin - usePack);
    }
  }

  lemma {:induction false} DrawnTotals(usage: seq<Usage>, before: seq<UserPackage>, after: seq<UserPackage>)
    requires |usage| == |before| == |after|
    ensures SumBy(DrainedOf, Drawn(usage, before, after))
         == SumBy(DrainedOf, usage) + SumBy(LeftOf, before) - SumBy(LeftOf, after)
  {
    if usage != [] {
      var n := |usage| - 1;
      DrawnTotals(usage[..n], before[..n], after[..n]);
      assert Drawn(usage, before, after)[..n] == Drawn(usage[..n], before[..n], after[..n]);
    }
  }

  lemma DrawnAgrees(packs: seq<UserPackage>, usage: seq<Usage>, after: seq<UserPackage>)
    requires |usage| == |packs| && forall i :: 0 <= i < |packs| ==> PackageAgrees(packs[i], usage[i])
    requires SamePurchases(packs, after) && NoneGrew(packs, after)
    ensures |Drawn(usage, packs, after)| == |after|
    ensures forall i :: 0 <= i < |after| ==> PackageAgrees(after[i], Drawn(usage, packs, after)[i])
  {
    forall i | 0 <= i < |after| ensures PackageAgrees(after[i], Drawn(usage, packs, after)[i]) {
      assert PackageAgrees(packs[i], usage[i]);
      assert after[i] == packs[i].(minutesLeft := after[i].minutesLeft);
    }
  }

  /** The same books, if the row of session `i` still held these counters. */
  function Reread(g: GuestBook, i: nat, seen: Counters): GuestBook
    requires i < |g.sessions|
  {
    g.(sessions := g.sessions[i := WithCounters(g.sessions[i], seen)])
  }

  /** Something is due to an open session. */
  predicate Settles(g: GuestBook, i: nat, seen: Counters, target: int)
    requires i < |g.sessions|
  {
    g.sessions[i].status == Active && target > seen.billed
  }

  /** A settlement from earlier counters does to these books what it would do to books
      that still hold them, and otherwise nothing. */
  lemma LateSettleIsReread(g: GuestBook, i: nat, seen: Counters, zone: Option<nat>, now: int, target: int)
    requires i < |g.sessions| && |g.usage| == |g.packs|
    ensures AfterSettle(g, i, seen, zone, now, target) ==
      if Settles(g, i, seen, target) then AfterSettle(Reread(g, i, seen), i, seen, zone, now, target) else g
  {
    hide SettleMinutes;
    var b, h := BooksOf(g, i), Reread(g, i, seen);
    GoneChangesNothing(BooksOf(h, i), zone, now, target);
    NeverRefused(BooksOf(h, i), zone, now, target);
    assert WithCounters(h.sessions[i], seen) == h.sessions[i];
    if Settles(g, i, seen, target) {
      var s := SettleFrom(b, seen, zone, now, target).books.session;
      assert h.sessions[i := s] == g.sessions[i := s];
    } else {
      assert g.sessions[i := g.sessions[i]] == g.sessions;
      assert Drawn(g.usage, g.packs, g.packs) == g.usage;
    }
  }

  /** The books a settlement from the stored counters leaves. */
  lemma StoredSettleMoves(g: GuestBook, i: nat, zone: Option<nat>, now: int, target: int)
    requires i < |g.sessions|
    ensures var b := SettleFrom(BooksOf(g, i), CountersOf(g.sessions[i]), zone, now, target).books;
      b == SettleMinutes(BooksOf(g, i), zone, now, target).books && Moved(BooksOf(g, i), b)
  {
    hide SettleMinutes, Moved;
    SettleFromStored(BooksOf(g, i), zone, now, target);
    SettleMoves(BooksOf(g, i), zone, now, target);
  }

  // What is missing from each ledger; nothing while they agree.

  function PackGap(g: GuestBook): int {
    SumBy(DrainedOf, g.usage) - SumBy(PackUsedOf, g.sessions)
  }

  function CoinGap(g: GuestBook): int {
    SumBy(MinutesOf, g.coins.redemptions) - SumBy(CoinUsedOf, g.sessions) - g.coinMinutes
      - SumBy(TakenBackOf, g.coins.redemptions)
  }

  function MoneyGap(g: GuestBook): int {
    g.account.balance - WalletOfRows(g)
  }

  lemma RereadMovesGaps(g: GuestBook, i: nat, seen: Counters)
    requires i < |g.sessions|
    ensures PackGap(Reread(g, i, seen)) == PackGap(g) + g.sessions[i].packUsed - seen.packUsed
    ensures CoinGap(Reread(g, i, seen)) == CoinGap(g) + g.sessions[i].coinUsed - seen.coinUsed
    ensures MoneyGap(Reread(g, i, seen)) == MoneyGap(g) - g.sessions[i].charged + seen.charged
  {
    hide SumBy;
    var t := WithCounters(g.sessions[i], seen);
    SumByUpdate(PackUsedOf, g.sessions, i, t);
    SumByUpdate(CoinUsedOf, g.sessions, i, t);
    SumByUpdate(ChargedOf, g.sessions, i, t);
  }

  lemma SettleKeepsGaps(g: GuestBook, i: nat, zone: Option<nat>, now: int, target: int)
    requires i < |g.sessions| && |g.usage| == |g.packs|
    ensures var g' := AfterSettle(g, i, CountersOf(g.sessions[i]), zone, now, target);
      PackGap(g') == PackGap(g) && CoinGap(g') == CoinGap(g) && MoneyGap(g') == MoneyGap(g)
  {
    hide SettleMinutes, SettleFrom, NoneGrew, SumBy, SpendOf;
    var b := SettleFrom(BooksOf(g, i), CountersOf(g.sessions[i]), zone, now, target).books;
    StoredSettleMoves(g, i, zone, now, target);
    DrawnTotals(g.usage, g.packs, b.packs);
    SumByUpdate(PackUsedOf, g.sessions, i, b.session);
    SumByUpdate(CoinUsedOf, g.sessions, i, b.session);
    SumByUpdate(ChargedOf, g.sessions, i, b.session);
    SumBySame(WalletPriceOf, g.packs, b.packs);
    SumBySame(RefundOf, g.usage, Drawn(g.usage, g.packs, b.packs));
  }

  lemma StoredKeepsMinutes(g: GuestBook, i: nat, zone: Option<nat>, now: int, target: int)
    requires MinutesAgree(g) && i < |g.sessions|
    ensures MinutesAgree(AfterSettle(g, i, CountersOf(g.sessions[i]), zone, now, target))
  {
    hide SettleMinutes, SettleFrom, PackageAgrees, NoneGrew, SumBy, Drawn;
    var b := SettleFrom(BooksOf(g, i), CountersOf(g.sessions[i]), zone, now, target).books;
    StoredSettleMoves(g, i, zone, now, target);
    SettleKeepsGaps(g, i, zone, now, target);
    DrawnAgrees(g.packs, g.usage, b.packs);
  }

  lemma StoredKeepsMoney(g: GuestBook, i: nat, zone: Option<nat>, now: int, target: int)
    requires MoneyAgrees(g) && |g.usage| == |g.packs| && i < |g.sessions|
    ensures MoneyAgrees(AfterSettle(g, i, CountersOf(g.sessions[i]), zone, now, target))
  {
    hide SettleMinutes, SettleFrom, CostForMinutes, SumBy, Explained, SpendOf, NoneGrew, WalletOfRows, Drawn;
    var b := SettleFrom(BooksOf(g, i), CountersOf(g.sessions[i]), zone, now, target).books;
    StoredSettleMoves(g, i, zone, now, target);
    SettleKeepsGaps(g, i, zone, now, target);
    assert SessionAgrees(g.sessions[i], i, g.account);
    SettleKeepsBalanced(BooksOf(g, i), zone, now, target);
    var sessions := g.sessions[i := b.session];
    forall k | 0 <= k < |sessions| ensures SessionAgrees(sessions[k], k, b.account) {
      assert SessionAgrees(g.sessions[k], k, g.account);
    }
  }

  /** Minutes stay accounted for exactly when the settlement is too late, not due, or
      was computed from the row's own coin and package minutes. */
  lemma SettleKeepsMinutesIff(g: GuestBook, i: nat, seen: Counters, zone: Option<nat>, now: int, target: int)
    requires MinutesAgree(g) && i < |g.sessions|
    ensures MinutesAgree(AfterSettle(g, i, seen, zone, now, target)) <==>
      (Settles(g, i, seen, target) ==> (seen.coinUsed, seen.packUsed) == (g.sessions[i].coinUsed, g.sessions[i].packUsed))
  {
    hide AfterSettle, PackageAgrees, SumBy;
    LateSettleIsReread(g, i, seen, zone, now, target);
    if Settles(g, i, seen, target) {
      var h := Reread(g, i, seen);
      assert CountersOf(h.sessions[i]) == seen;
      RereadMovesGaps(g, i, seen);
      SettleKeepsGaps(h, i, zone, now, target);
      if (seen.coinUsed, seen.packUsed) == (g.sessions[i].coinUsed, g.sessions[i].packUsed) {
        StoredKeepsMinutes(h, i, zone, now, target);
      }
    }
  }

  /** The wallet stays explained exactly when it is too late, not due, or nothing was
      charged to the session since the counters were read. */
  lemma SettleKeepsMoneyIff(g: GuestBook, i: nat, seen: Counters, zone: Option<nat>, now: int, target: int)
    requires MoneyAgrees(g) && |g.usage| == |g.packs| && i < |g.sessions| && Sane(seen, g.sessions[i].rate)
    ensures MoneyAgrees(AfterSettle(g, i, seen, zone, now, target)) <==>
      (Settles(g, i, seen, target) ==> seen.charged == g.sessions[i].charged)
  {
    hide AfterSettle, Explained, SumBy, SpendOf, CostForMinutes, WalletOfRows;
    LateSettleIsReread(g, i, seen, zone, now, target);
    if Settles(g, i, seen, target) {
      var h := Reread(g, i, seen);
      assert CountersOf(h.sessions[i]) == seen;
      RereadMovesGaps(g, i, seen);
      SettleKeepsGaps(h, i, zone, now, target);
      if seen.charged == g.sessions[i].charged {
        assert SessionAgrees(g.sessions[i], i, g.account);
        forall k | 0 <= k < |h.sessions| ensures SessionAgrees(h.sessions[k], k, h.account) {
          assert SessionAgrees(g.sessions[k], k, g.account);
        }
        StoredKeepsMoney(h, i, zone, now, target);
      }
    }
  }

  lemma SettleKeepsRewards(g: GuestBook, i: nat, seen: Counters, zone: Option<nat>, now: int, target: int)
    requires RewardsAgree(g) && i < |g.sessions| && |g.usage| == |g.packs|
    ensures RewardsAgree(AfterSettle(g, i, seen, zone, now, target))
  {
    hide SettleMinutes, SettleFrom, SumBy, SamePurchases, NoneGrew;
    LateSettleIsReread(g, i, seen, zone, now, target);
    var h := Reread(g, i, seen);
    assert CountersOf(h.sessions[i]) == seen;
    StoredSettleMoves(h, i, zone, now, target);
  }

  // The other transactions.

  /** Session rows that differ only in clock and status leave the ledgers alone. */
  lemma CountersDecide(g: GuestBook, i: nat, t: Session)
    requires i < |g.sessions| && MinutesAgree(g) && MoneyAgrees(g)
    requires SameCounters(g.sessions[i], t)
    ensures MinutesAgree(g.(sessions := g.sessions[i := t])) && MoneyAgrees(g.(sessions := g.sessions[i := t]))
  {
    hide CostForMinutes, SumBy, Explained, PackageAgrees, SpendOf;
    SumByUpdate(PackUsedOf, g.sessions, i, t);
    SumByUpdate(CoinUsedOf, g.sessions, i, t);
    SumByUpdate(ChargedOf, g.sessions, i, t);
    var sessions := g.sessions[i := t];
    forall k | 0 <= k < |sessions| ensures SessionAgrees(sessions[k], k, g.account) {
      assert SessionAgrees(g.sessions[k], k, g.account);
    }
  }

  /** Coins that change hands without deposits or redemptions do not enter them. */
  lemma CoinsDoNotEnter(g: GuestBook, coins: CoinBook)
    requires MinutesAgree(g) && MoneyAgrees(g)
    requires (coins.deposits, coins.redemptions) == (g.coins.deposits, g.coins.redemptions)
    ensures MinutesAgree(g.(coins := coins)) && MoneyAgrees(g.(coins := coins))
  {
    hide SumBy, Explained, PackageAgrees, SessionsAgree;
  }

  lemma SeatKeepsAgrees(g: GuestBook, rate: int, now: int, waitMin: int)
    requires Agrees(g)
    ensures Agrees(AfterSeat(g, rate, now, waitMin))
  {
    hide SumBy, Explained, PackageAgrees, Accounted, SpendOf;
    StepKeepsAccounted(g.coins, SessionStarted);
    var s := Seat(|g.sessions|, g.user, rate, now, waitMin);
    SumByAppend(PackUsedOf, g.sessions, s);
    SumByAppend(CoinUsedOf, g.sessions, s);
    SumByAppend(ChargedOf, g.sessions, s);
  }

  lemma CloseKeepsAgrees(g: GuestBook, i: nat, now: int, reason: Reason, coins: nat)
    requires Agrees(g) && i < |g.sessions|
    ensures Agrees(AfterClose(g, i, now, reason, coins))
  {
    hide MinutesAgree, MoneyAgrees, Accounted;
    StepKeepsAccounted(g.coins, SessionFinished(i, coins));
    if g.sessions[i].status == Active {
      var t := Close(g.sessions[i], now, reason);
      CountersDecide(g, i, t);
      CoinsDoNotEnter(g.(sessions := g.sessions[i := t]), Coins.Step(g.coins, SessionFinished(i, coins)));
    }
  }

  lemma ClockKeepsAgrees(g: GuestBook, i: nat, t: Session)
    requires Agrees(g) && i < |g.sessions| && SameCounters(g.sessions[i], t)
    requires t.status == Completed <==> g.sessions[i].status == Completed
    ensures Agrees(g.(sessions := g.sessions[i := t]))
  {
    hide MinutesAgree, MoneyAgrees, Accounted;
    CountersDecide(g, i, t);
  }

  lemma OtherCoinsKeepAgrees(g: GuestBook, e: Coins.Event)
    requires Agrees(g) && CoinsOnly(e)
    ensures Agrees(g.(coins := Coins.Step(g.coins, e)))
  {
    hide MinutesAgree, MoneyAgrees, Accounted, BurnAmount, FreezesForGap;
    StepKeepsAccounted(g.coins, e);
    CoinsDoNotEnter(g, Coins.Step(g.coins, e));
  }

  /** An operation that is not a session charge keeps every session's rows as they are. */
  lemma PayKeepsSessions(g: GuestBook, op: Op)
    requires Explained(g.account) && SessionsAgree(g.sessions, g.account) && op.kind != SessionSpend
    ensures Explained(Pay(g.account, op)) && SessionsAgree(g.sessions, Pay(g.account, op))
  {
    hide Explained, CostForMinutes, SumBy;
    ApplyKeepsExplained(g.account, op);
    var journal := g.account.journal;
    var next := g.account.balance + op.amount;
    forall id: nat ensures SumBy(SpendOf(id), Pay(g.account, op).journal) == SumBy(SpendOf(id), journal) {
      SumByAppend(SpendOf(id), journal, Entry(op.kind, op.amount, next, op.ref));
    }
    forall k | 0 <= k < |g.sessions| ensures SessionAgrees(g.sessions[k], k, Pay(g.account, op)) {
      assert SessionAgrees(g.sessions[k], k, g.account);
    }
  }

  lemma TopUpKeepsAgrees(g: GuestBook, grosz: nat, coins: nat)
    requires Agrees(g)
    ensures Agrees(AfterTopUp(g, grosz, coins))
  {
    hide SumBy, Explained, PackageAgrees, SessionsAgree, Accounted;
    StepKeepsAccounted(g.coins, Deposited(grosz, coins));
    PayKeepsSessions(g, Op(Deposit, grosz, |g.coins.deposits|));
    SumByAppend(GroszOf, g.coins.deposits, DepositRow(grosz, coins));
  }

  lemma KitchenKeepsAgrees(g: GuestBook, total: nat)
    requires Agrees(g)
    ensures Agrees(AfterKitchen(g, total))
  {
    hide SumBy, Explained, PackageAgrees, SessionsAgree, Accounted;
    PayKeepsSessions(g, Op(KitchenSpend, 0 - total, |g.tabs|));
    SumByAppend(TabOf, g.tabs, Tab(total, false));
  }

  lemma VoidKitchenKeepsAgrees(g: GuestBook, at: nat)
    requires Agrees(g)
    ensures Agrees(AfterVoidKitchen(g, at))
  {
    hide SumBy, PackageAgrees, SessionsAgree, Accounted;
    if at < |g.tabs| && !g.tabs[at].returned {
      PayKeepsSessions(g, Op(Refund, g.tabs[at].total, at));
      SumByUpdate(TabOf, g.tabs, at, g.tabs[at].(returned := true));
    }
  }

  lemma RedeemKeepsAgrees(g: GuestBook, minutes: int, rate: int, spend: int)
    requires Agrees(g)
    ensures Agrees(AfterExchange(g, minutes, rate, spend))
  {
    hide SumBy, Explained, PackageAgrees, SessionsAgree, Accounted, CoinsForMinutes;
    StepKeepsAccounted(g.coins, Redeemed(minutes, rate, spend));
    if minutes > 0 {
      var coins := CoinsForMinutes(minutes, rate, spend);
      if coins > 0 {
        var r := Redemption(minutes, coins, false, 0, 0);
        SumByAppend(MinutesOf, g.coins.redemptions, r);
        SumByAppend(TakenBackOf, g.coins.redemptions, r);
      }
    }
  }

  lemma NothingTakenBackYet(coins: CoinBook, at: nat)
    requires Accounted(coins) && at < |coins.redemptions|
    ensures !coins.redemptions[at].voided ==> coins.redemptions[at].takenBack == 0
  {
    assert Proportionate(coins.redemptions[at]);
  }

  lemma VoidRedemptionKeepsAgrees(g: GuestBook, at: nat)
    requires Agrees(g)
    ensures Agrees(AfterExchangeVoid(g, at))
  {
    hide SumBy, Explained, PackageAgrees, SessionsAgree, Accounted, RefundForVoid;
    StepKeepsAccounted(g.coins, RedemptionVoided(at, g.coinMinutes));
    if at < |g.coins.redemptions| && !g.coins.redemptions[at].voided {
      var r := Voided(g.coins.redemptions[at], g.coinMinutes);
      NothingTakenBackYet(g.coins, at);
      SumByUpdate(MinutesOf, g.coins.redemptions, at, r);
      SumByUpdate(TakenBackOf, g.coins.redemptions, at, r);
    }
  }

  lemma BuyKeepsAgrees(g: GuestBook, offer: Offer, fromWallet: bool, now: int)
    requires Agrees(g)
    ensures Agrees(AfterBuy(g, NewPackage(g.user, offer, fromWallet, now)))
  {
    hide SumBy, Explained, SessionsAgree, Accounted, PackageExpiry;
    var pack := NewPackage(g.user, offer, fromWallet, now);
    PayKeepsSessions(g, Op(PackageSpend, 0 - pack.price, |g.packs|));
    SumByAppend(WalletPriceOf, g.packs, pack);
    SumByAppend(RefundOf, g.usage, Usage(0, 0, 0));
    SumByAppend(DrainedOf, g.usage, Usage(0, 0, 0));
  }

  lemma RevokeKeepsAgrees(g: GuestBook, at: nat, seenLeft: int)
    requires Agrees(g)
    ensures Agrees(AfterRevoke(g, at, seenLeft))
  {
    hide SumBy, SessionsAgree, Accounted, VoidRefund;
    if at < |g.packs| && !g.packs[at].voided {
      var p, u := g.packs[at], g.usage[at];
      assert PackageAgrees(p, u);
      var u' := u.(takenBack := p.minutesLeft, refund := VoidRefund(p, seenLeft));
      PayKeepsSessions(g, Op(Refund, u'.refund, at));
      SumByUpdate(WalletPriceOf, g.packs, at, p.(voided := true, minutesLeft := 0));
      SumByUpdate(RefundOf, g.usage, at, u');
      SumByUpdate(DrainedOf, g.usage, at, u');
    }
  }

  /** A settlement in this step reads sane counters. */
  ghost predicate SaneReading(g: GuestBook, e: Move) {
    e.Settle? && e.session < |g.sessions| ==> Sane(e.seen, g.sessions[e.session].rate)
  }

  /** A settlement in this step is too late, not due, or its reading is not out of
      date in coin minutes, package minutes and charge. */
  predicate SafeReading(g: GuestBook, e: Move) {
    e.Settle? && e.session < |g.sessions| && Settles(g, e.session, e.seen, e.target) ==>
      var s := g.sessions[e.session];
      (e.seen.coinUsed, e.seen.packUsed, e.seen.charged) == (s.coinUsed, s.packUsed, s.charged)
  }

  lemma SettleKeepsAgreesIff(g: GuestBook, e: Move)
    requires Agrees(g) && SaneReading(g, e) && e.Settle? && e.session < |g.sessions|
    ensures Agrees(AfterSettle(g, e.session, e.seen, e.zone, e.now, e.target)) <==> SafeReading(g, e)
  {
    SettleKeepsMinutesIff(g, e.session, e.seen, e.zone, e.now, e.target);
    SettleKeepsMoneyIff(g, e.session, e.seen, e.zone, e.now, e.target);
    SettleKeepsRewards(g, e.session, e.seen, e.zone, e.now, e.target);
    hide MinutesAgree, MoneyAgrees, RewardsAgree, Accounted, SettleFrom, Sane;
    AfterSettleKeepsCoins(g, e.session, e.seen, e.zone, e.now, e.target);
  }

  lemma AfterSettleKeepsCoins(g: GuestBook, i: nat, seen: Counters, zone: Option<nat>, now: int, target: int)
    requires i < |g.sessions|
    ensures AfterSettle(g, i, seen, zone, now, target).coins == g.coins
  {
  }

  /** One transaction keeps the ledgers in agreement exactly when, if it is a
      settlement, its reading is not out of date. */
  lemma StepKeepsAgreesIff(g: GuestBook, e: Move)
    requires Agrees(g) && SaneReading(g, e)
    ensures Agrees(GuestBooks.Step(g, e)) <==> SafeReading(g, e)
  {
    hide MinutesAgree, MoneyAgrees, RewardsAgree, Accounted, Sane, AfterTopUp, AfterSeat, AfterSettle, AfterClose,
      AfterExchange, AfterExchangeVoid, AfterBuy, AfterRevoke, AfterKitchen, AfterVoidKitchen, Coins.Step, NewPackage;
    match e
    case TopUp(grosz, coins) => TopUpKeepsAgrees(g, grosz, coins);
    case SeatGuest(rate, now, waitMin) => SeatKeepsAgrees(g, rate, now, waitMin);
    case Settle(i, seen, zone, now, target) =>
      if i < |g.sessions| {
        SettleKeepsAgreesIff(g, e);
      }
    case SetClock(i, clock) =>
      if i < |g.sessions| && SameButClock(g.sessions[i], clock) {
        ClockKeepsAgrees(g, i, clock);
      }
    case CloseSession(i, now, reason, coins) =>
      if i < |g.sessions| {
        CloseKeepsAgrees(g, i, now, reason, coins);
      }
    case CancelSeat(i, now) =>
      if i < |g.sessions| && g.sessions[i].status == Active {
        ClockKeepsAgrees(g, i, g.sessions[i].(status := Cancelled));
      }
    case RedeemCoins(minutes, rate, spend) => RedeemKeepsAgrees(g, minutes, rate, spend);
    case VoidRedemption(at) => VoidRedemptionKeepsAgrees(g, at);
    case OtherCoins(event) =>
      if CoinsOnly(event) {
        OtherCoinsKeepAgrees(g, event);
      }
    case BuyPackage(offer, fromWallet, now) => BuyKeepsAgrees(g, offer, fromWallet, now);
    case RevokePackage(at, seenLeft) => RevokeKeepsAgrees(g, at, seenLeft);
    case PayKitchen(total) => KitchenKeepsAgrees(g, total);
    case VoidKitchen(at) => VoidKitchenKeepsAgrees(g, at);
  }

  // Runs.

  /** The books after the first `n` transactions. */
  function After(g: GuestBook, moves: seq<Move>, n: nat): GuestBook
    requires n <= |moves|
  {
    GuestBooks.Run(g, moves[..n])
  }

  lemma {:induction false} AfterOneMore(g: GuestBook, moves: seq<Move>, n: nat)
    requires n < |moves|
    ensures After(g, moves, n + 1) == GuestBooks.Step(After(g, moves, n), moves[n])
    decreases |moves|
  {
    hide GuestBooks.Step;
    if n == 0 {
      assert moves[..1] == [moves[0]] && moves[..0] == [];
      assert GuestBooks.Run(GuestBooks.Step(g, moves[0]), moves[..1][1..]) == GuestBooks.Step(g, moves[0]);
    } else {
      AfterOneMore(GuestBooks.Step(g, moves[0]), moves[1..], n - 1);
      assert moves[..n + 1][1..] == moves[1..][..n];
      assert moves[..n][1..] == moves[1..][..n - 1];
    }
  }

  /** The counters of this settlement were read from its row after `j` transactions. */
  ghost predicate ReadAt(g: GuestBook, moves: seq<Move>, k: nat, j: int)
    requires k < |moves|
  {
    && moves[k].Settle? && 0 <= j <= k
    && moves[k].session < |After(g, moves, j).sessions|
    && moves[k].seen == CountersOf(After(g, moves, j).sessions[moves[k].session])
  }

  /** Every settlement of the run has read its counters at some moment before it. */
  ghost predicate ReadBefore(g: GuestBook, moves: seq<Move>) {
    forall k :: 0 <= k < |moves| && moves[k].Settle? && moves[k].session < |After(g, moves, k).sessions| ==>
      exists j :: ReadAt(g, moves, k, j)
  }

  ghost predicate SafeThroughout(g: GuestBook, moves: seq<Move>) {
    forall k :: 0 <= k < |moves| ==> SafeReading(After(g, moves, k), moves[k])
  }

  ghost predicate AgreesThroughout(g: GuestBook, moves: seq<Move>) {
    forall n :: 0 <= n <= |moves| ==> Agrees(After(g, moves, n))
  }

  /** A session keeps its rate. */
  ghost predicate KeepsRates(g: GuestBook, g': GuestBook) {
    && |g.sessions| <= |g'.sessions|
    && forall i :: 0 <= i < |g.sessions| ==> g'.sessions[i].rate == g.sessions[i].rate
  }

  lemma SettleKeepsRate(b: Books, seen: Counters, zone: Option<nat>, now: int, target: int)
    ensures SettleFrom(b, seen, zone, now, target).books.session.rate == b.session.rate
  {
    hide SettleMinutes, SamePurchases, NoneGrew, SumBy;
    SettleMoves(b.(session := WithCounters(b.session, seen)), zone, now, target);
  }

  lemma StepKeepsRates(g: GuestBook, e: Move)
    ensures KeepsRates(g, GuestBooks.Step(g, e))
  {
    hide SettleFrom, Coins.Step, IssuePackage, VoidPackage;
    if e.Settle? && e.session < |g.sessions| {
      SettleKeepsRate(BooksOf(g, e.session), e.seen, e.zone, e.now, e.target);
    }
  }

  lemma {:induction false} RunKeepsRates(g: GuestBook, moves: seq<Move>, j: nat, k: nat)
    requires j <= k <= |moves|
    ensures KeepsRates(After(g, moves, j), After(g, moves, k))
    decreases k - j
  {
    hide GuestBooks.Step, After;
    if j < k {
      RunKeepsRates(g, moves, j, k - 1);
      AfterOneMore(g, moves, k - 1);
      StepKeepsRates(After(g, moves, k - 1), moves[k - 1]);
    }
  }

  /** What was read while the ledgers agreed is sane. */
  lemma ReadingsAreSane(g: GuestBook, moves: seq<Move>, k: nat)
    requires k < |moves| && ReadBefore(g, moves) && forall n :: 0 <= n <= k ==> Agrees(After(g, moves, n))
    ensures SaneReading(After(g, moves, k), moves[k])
  {
    hide After, MinutesAgree, CostForMinutes, SumBy, Accounted, Explained;
    if moves[k].Settle? && moves[k].session < |After(g, moves, k).sessions| {
      var i := moves[k].session;
      var j :| ReadAt(g, moves, k, j);
      assert SessionAgrees(After(g, moves, j).sessions[i], i, After(g, moves, j).account);
      RunKeepsRates(g, moves, j, k);
    }
  }

  /** Over any interleaving of deposits, settlements, closings, purchases, redemptions,
      burns, payments and voids, whose settlements read their counters at any earlier
      moment: the ledgers agree after every transaction if and only if no settlement
      that is due writes from counters that are out of date. */
  lemma {:induction false} RunAgreesThroughoutIff(g: GuestBook, moves: seq<Move>)
    requires Agrees(g) && ReadBefore(g, moves)
    ensures AgreesThroughout(g, moves) <==> SafeThroughout(g, moves)
  {
    hide Agrees, SaneReading, SafeReading, After, ReadBefore;
    if AgreesThroughout(g, moves) {
      forall k | 0 <= k < |moves| ensures SafeReading(After(g, moves, k), moves[k]) {
        ReadingsAreSane(g, moves, k);
        StepKeepsAgreesIff(After(g, moves, k), moves[k]);
        AfterOneMore(g, moves, k);
      }
    }
    if SafeThroughout(g, moves) {
      AfterNone(g, moves);
      for n := 0 to |moves|
        invariant forall k :: 0 <= k <= n ==> Agrees(After(g, moves, k))
      {
        ReadingsAreSane(g, moves, n);
        StepKeepsAgreesIff(After(g, moves, n), moves[n]);
        AfterOneMore(g, moves, n);
      }
    }
  }

  lemma AfterNone(g: GuestBook, moves: seq<Move>)
    ensures After(g, moves, 0) == g
  {
    assert moves[..0] == [];
  }

  lemma NewGuestAgrees(user: nat)
    ensures Agrees(NewGuest(user))
  {
    hide Explained, Accounted, PackageAgrees, SessionAgrees, Proportionate;
    FreshAccountIsExplained();
    EmptyIsAccounted();
  }

  /** A settlement that finds its session closed changes no row of the guest, whatever
      its caller had read. */
  lemma SettlingAClosedSessionChangesNothing(g: GuestBook, i: nat, seen: Counters, zone: Option<nat>, now: int, target: int)
    requires |g.usage| == |g.packs| && i < |g.sessions| && g.sessions[i].status != Active
    ensures AfterSettle(g, i, seen, zone, now, target) == g
  {
    hide AfterSettle;
    LateSettleIsReread(g, i, seen, zone, now, target);
  }

  /** The laws written out. */
  lemma AgreementReadOut(g: GuestBook)
    requires Agrees(g)
    // the wallet: what came in and went out, explained row by row, without debt
    ensures g.account.balance == SumBy(AmountOf, g.account.journal) >= 0
    ensures g.account.balance ==
      SumBy(GroszOf, g.coins.deposits) - SumBy(ChargedOf, g.sessions) - SumBy(WalletPriceOf, g.packs)
      + SumBy(RefundOf, g.usage) - SumBy(TabOf, g.tabs)
    // each session's charge is the tariff of its money minutes
    ensures forall i :: 0 <= i < |g.sessions| ==>
      g.sessions[i].charged == CostForMinutes(g.sessions[i].rate, g.sessions[i].money)
    // coins
    ensures g.coins.balance == Issued(g.coins) - Spent(g.coins) + SumBy(ReturnedCoins, g.coins.redemptions) >= 0
    // minutes of packages and of coins
    ensures SumBy(DrainedOf, g.usage) == SumBy(PackUsedOf, g.sessions)
    ensures SumBy(MinutesOf, g.coins.redemptions)
         == SumBy(CoinUsedOf, g.sessions) + g.coinMinutes + SumBy(TakenBackOf, g.coins.redemptions)
  {
    hide PackageAgrees, CostForMinutes, SumBy;
    forall i | 0 <= i < |g.sessions|
      ensures g.sessions[i].charged == CostForMinutes(g.sessions[i].rate, g.sessions[i].money)
    {
      assert SessionAgrees(g.sessions[i], i, g.account);
    }
  }

  /** Everything that can happen to a guest from the day he registers: as long as no
      due settlement writes from counters that are out of date, no minute, coin or
      grosz is made or lost; and the first one that does breaks an account. */
  lemma GuestsNeverLoseOrGain(user: nat, moves: seq<Move>)
    requires ReadBefore(NewGuest(user), moves)
    ensures AgreesThroughout(NewGuest(user), moves) <==> SafeThroughout(NewGuest(user), moves)
    ensures SafeThroughout(NewGuest(user), moves) ==>
      var g := GuestBooks.Run(NewGuest(user), moves);
      && g.account.balance == SumBy(AmountOf, g.account.journal) >= 0
      && g.account.balance ==
           SumBy(GroszOf, g.coins.deposits) - SumBy(ChargedOf, g.sessions) - SumBy(WalletPriceOf, g.packs)
           + SumBy(RefundOf, g.usage) - SumBy(TabOf, g.tabs)
      && g.coins.balance == Issued(g.coins) - Spent(g.coins) + SumBy(ReturnedCoins, g.coins.redemptions) >= 0
      && SumBy(DrainedOf, g.usage) == SumBy(PackUsedOf, g.sessions)
      && SumBy(MinutesOf, g.coins.redemptions)
           == SumBy(CoinUsedOf, g.sessions) + g.coinMinutes + SumBy(TakenBackOf, g.coins.redemptions)
  {
    hide Agrees, GuestBooks.Run, ReadBefore, SafeReading, SumBy, Issued, Spent;
    NewGuestAgrees(user);
    RunAgreesThroughoutIff(NewGuest(user), moves);
    if SafeThroughout(NewGuest(user), moves) {
      assert moves[..|moves|] == moves;
      assert Agrees(After(NewGuest(user), moves, |moves|));
      AgreementReadOut(GuestBooks.Run(NewGuest(user), moves));
    }
  }

  /** Finishing a session is a settlement and then a closing; the two may be far
      apart, and the laws above hold between them. */
  lemma FinishIsSettleThenClose(g: GuestBook, i: nat, zone: Option<nat>, now: int, reason: Reason, coins: nat)
    requires i < |g.sessions|
    ensures var read := g.sessions[i];
      var settled := AfterSettle(g, i, CountersOf(read), zone, now, EffectiveMinutesCeil(read, now));
      BooksOf(AfterClose(settled, i, now, reason, coins), i) == FinishSession(BooksOf(g, i), zone, now, reason)
  {
    hide SettleMinutes, Drawn, Coins.Step, SettleFrom;
    SettleFromStored(BooksOf(g, i), zone, now, EffectiveMinutesCeil(g.sessions[i], now));
  }
}
