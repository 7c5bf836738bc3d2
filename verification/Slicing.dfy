/** The billing job may be stopped and restarted at will: settling in any slices
    leaves the same standing as settling once. This holds for every state of the
    books exactly when the rate is at least 60 grosz an hour (or nothing is charged). */
module Slicing {
  import opened Basics
  import opened Tariff
  import opened Packages
  import opened Wallet
  import opened Sessions
  import opened Settlement
  import opened SessionRun
  import opened SessionLedger

  /** Everything but the journal, which has a row per charge. */
  ghost predicate SameStanding(a: Books, b: Books) {
    && a.session == b.session
    && a.account.balance == b.account.balance
    && a.coinMinutes == b.coinMinutes
    && a.packs == b.packs
  }

  // The money part.

  lemma QuotientMinus(funds: nat, rate: int, k: nat)
    requires rate > 0 && rate * k <= funds
    ensures (funds - rate * k) / rate == funds / rate - k
  {
    var q := funds / rate;
    QuotientBound(funds, rate, q);
    QuotientBound(funds, rate, k);
    QuotientBound(funds, rate, q + 1);
    assert rate * (q - k) == rate * q - rate * k;
    assert rate * (q - k + 1) == rate * (q + 1) - rate * k;
    QuotientBound(funds - rate * k, rate, q - k);
    QuotientBound(funds - rate * k, rate, q - k + 1);
  }

  /** Paying some minutes lowers what is still affordable by exactly those. */
  lemma MostMinutesAfter(wallet: nat, rate: int, already: nat, pay: nat)
    requires rate > 0 && pay <= MostMinutes(wallet, rate, already)
    ensures ChargeDelta(rate, already, pay) <= wallet
    ensures MostMinutes(wallet - ChargeDelta(rate, already, pay), rate, already + pay)
         == MostMinutes(wallet, rate, already) - pay
  {
    CoversIff(wallet, rate, already, pay);
    PayingConserves(wallet, rate, already, pay);
    QuotientBound(Funds(wallet, rate, already), rate, pay);
    QuotientMinus(Funds(wallet, rate, already), rate, pay);
  }

  /** Paying in two slices pays the same minutes, and falls short the same. */
  lemma PaidInTwo(wallet: nat, rate: int, already: nat, due1: nat, more: nat)
    requires rate <= 0 || rate >= 60
    ensures var pay1 := PaidMinutes(wallet, rate, already, due1);
      var wallet1 := wallet - ChargeDelta(rate, already, pay1);
      var due2 := due1 - pay1 + more;
      && pay1 <= due1 && wallet1 >= 0
      && pay1 + PaidMinutes(wallet1, rate, already + pay1, due2) == PaidMinutes(wallet, rate, already, due1 + more)
      && (ChargeDelta(rate, already + pay1, due2) > wallet1 <==> ChargeDelta(rate, already, due1 + more) > wallet)
  {
    if rate >= 60 {
      hide ChargeDelta, PaidMinutes, MostMinutes, CostForMinutes;
      PaidIsCharged(wallet, rate, already, due1);
      PaidIsCharged(wallet, rate, already, due1 + more);
      var pay1 := PaidMinutes(wallet, rate, already, due1);
      MostMinutesAfter(wallet, rate, already, pay1);
      PaidIsCharged(wallet - ChargeDelta(rate, already, pay1), rate, already + pay1, due1 - pay1 + more);
    }
  }

  /** The books after taking so much from each source. */
  function Written(b: Books, useCoin: nat, packs: seq<UserPackage>, usePack: nat, pay: nat, charge: int): Books
    requires useCoin <= b.coinMinutes
  {
    var s := b.session;
    Books(s.(billed := s.billed + useCoin + usePack + pay, coinUsed := s.coinUsed + useCoin,
             packUsed := s.packUsed + usePack, money := s.money + pay, charged := s.charged + charge),
          b.account.(balance := b.account.balance - charge), b.coinMinutes - useCoin, packs)
  }

  /** What posting writes, with the money part in terms of the minutes paid. */
  lemma PostIsPaid(b: Books, useCoin: nat, packs: seq<UserPackage>, usePack: nat, due: nat)
    requires b.account.balance >= 0 && b.session.status == Active && useCoin <= b.coinMinutes
    ensures var s := b.session;
      var r := Post(b, useCoin, packs, usePack, due);
      var pay := PaidMinutes(b.account.balance, s.rate, s.money, due);
      && r.books.account.balance >= 0
      && SameStanding(r.books, Written(b, useCoin, packs, usePack, pay, ChargeDelta(s.rate, s.money, pay)))
      && r.verdict == if ChargeDelta(s.rate, s.money, due) > b.account.balance then HitZero else Settled
  {
    var s := b.session;
    var pay := PaidMinutes(b.account.balance, s.rate, s.money, due);
    PaidIsCovered(b.account.balance, s.rate, s.money, due);
  }

  /** Posting in two slices: the second takes over what the first left due. */
  lemma PostInTwo(b: Books, mid: Books, coin1: nat, packs1: seq<UserPackage>, pack1: nat, due1: nat,
                  coin2: nat, packs2: seq<UserPackage>, pack2: nat, more: nat)
    requires b.session.rate <= 0 || b.session.rate >= 60
    requires b.account.balance >= 0 && b.session.status == Active
    requires coin1 + coin2 <= b.coinMinutes
    requires mid == Post(b, coin1, packs1, pack1, due1).books
    ensures var pay1 := PaidMinutes(b.account.balance, b.session.rate, b.session.money, due1);
      && pay1 <= due1 && coin2 <= mid.coinMinutes
      && var two := Post(mid, coin2, packs2, pack2, due1 - pay1 + more);
         var once := Post(b, coin1 + coin2, packs2, pack1 + pack2, due1 + more);
         SameStanding(two.books, once.books) && two.verdict == once.verdict
  {
    hide ChargeDelta, PaidMinutes, Post, CostForMinutes;
    var s := b.session;
    var pay1 := PaidMinutes(b.account.balance, s.rate, s.money, due1);
    var charge1 := ChargeDelta(s.rate, s.money, pay1);
    PostIsPaid(b, coin1, packs1, pack1, due1);
    PaidInTwo(b.account.balance, s.rate, s.money, due1, more);
    var pay2 := PaidMinutes(b.account.balance - charge1, s.rate, s.money + pay1, due1 - pay1 + more);
    var charge2 := ChargeDelta(s.rate, s.money + pay1, pay2);
    PostIsPaid(mid, coin2, packs2, pack2, due1 - pay1 + more);
    PostIsPaid(b, coin1 + coin2, packs2, pack1 + pack2, due1 + more);
    ChargeAdds(s.rate, s.money, pay1, pay2);
    WrittenInTwo(b, coin1, packs1, pack1, pay1, charge1, coin2, packs2, pack2, pay2, charge2);
    assert SameStanding(Written(mid, coin2, packs2, pack2, pay2, charge2),
                        Written(Written(b, coin1, packs1, pack1, pay1, charge1), coin2, packs2, pack2, pay2, charge2));
  }

  lemma WrittenInTwo(b: Books, coin1: nat, packs1: seq<UserPackage>, pack1: nat, pay1: nat, charge1: int,
                     coin2: nat, packs2: seq<UserPackage>, pack2: nat, pay2: nat, charge2: int)
    requires coin1 + coin2 <= b.coinMinutes
    ensures Written(Written(b, coin1, packs1, pack1, pay1, charge1), coin2, packs2, pack2, pay2, charge2)
         == Written(b, coin1 + coin2, packs2, pack1 + pack2, pay1 + pay2, charge1 + charge2)
  {
  }

  // The packages part.

  lemma {:induction false} DrainOfNone(rows: seq<UserPackage>, order: seq<nat>, need: nat)
    requires IdsIn(rows, order) && Drain(rows, order, need).1 == 0
    ensures Drain(rows, order, need).0 == rows
    decreases |order|
  {
    if order != [] {
      var take := Min(rows[order[0]].minutesLeft, need);
      assert take == 0;
      assert Withdraw(rows, order[0], 0) == rows;
      DrainOfNone(rows, order[1..], need);
    }
  }

  /** Two draws against one: if the first came up short, later ones find nothing. */
  lemma DrawInTwo(rows: seq<UserPackage>, order: seq<nat>, need1: nat, need2: nat, total: nat)
    requires IdsIn(rows, order) && Distinct(order)
    requires need1 <= total
    requires var used1 := Drain(rows, order, need1).1; need1 + need2 == total || (used1 < need1 && need2 >= 0)
    ensures var (mid, used1) := Drain(rows, order, need1);
      var (end, used2) := Drain(mid, order, need2);
      Drain(rows, order, total) == (end, used1 + used2) && (used1 < need1 ==> used2 == 0)
  {
    hide Drain;
    var (mid, used1) := Drain(rows, order, need1);
    DrainExhausted(rows, order, need1, need2);
    DrainTwice(rows, order, need1, total - need1);
    if need1 + need2 != total {
      DrainExhausted(rows, order, need1, total - need1);
      DrainOfNone(mid, order, need2);
      DrainOfNone(mid, order, total - need1);
    }
  }

  /** Settling to `t1` and then to `t2` is settling to `t2`, in one fixed order. */
  lemma SettleInTwo(b: Books, order: seq<nat>, t1: int, t2: int)
    requires IdsIn(b.packs, order) && Distinct(order)
    requires b.session.rate <= 0 || b.session.rate >= 60
    requires b.account.balance >= 0 && t1 <= t2
    requires b.session.status == Active && t1 > b.session.billed
    ensures var mid := SettleInOrder(b, order, t1).books;
      && |mid.packs| == |b.packs| && mid.session.billed <= t1
      && var two := SettleInOrder(mid, order, t2);
         var once := SettleInOrder(b, order, t2);
         SameStanding(two.books, once.books)
         && (t2 > mid.session.billed ==> two.verdict == once.verdict)
         && (t2 == mid.session.billed ==> once.verdict == Settled)
  {
    hide ChargeDelta, PaidMinutes, Post, CostForMinutes, Drain, Distinct;
    var s := b.session;
    var delta1 := t1 - s.billed;
    var coin1 := Min(delta1, b.coinMinutes);
    var (packs1, pack1) := Drain(b.packs, order, delta1 - coin1);
    var due1 := delta1 - coin1 - pack1;
    var pay1 := PaidMinutes(b.account.balance, s.rate, s.money, due1);
    var mid := Post(b, coin1, packs1, pack1, due1).books;
    PostIsPaid(b, coin1, packs1, pack1, due1);
    PaidInTwo(b.account.balance, s.rate, s.money, due1, 0);
    assert mid.session.billed == s.billed + coin1 + pack1 + pay1;
    var delta2 := t2 - mid.session.billed;
    var coin2 := Min(delta2, mid.coinMinutes);
    var coin := Min(t2 - s.billed, b.coinMinutes);
    assert coin1 + coin2 == coin;
    var (packs2, pack2) := Drain(packs1, order, delta2 - coin2);
    DrawInTwo(b.packs, order, delta1 - coin1, delta2 - coin2, t2 - s.billed - coin);
    var more := delta2 - coin2 - pack2 - (due1 - pay1);
    assert more >= 0 by {
      if pay1 < due1 {
        assert pack2 == 0 && coin2 == 0;
      }
    }
    PostInTwo(b, mid, coin1, packs1, pack1, due1, coin2, packs2, pack2, more);
    if delta2 == 0 {
      PostIsPaid(b, coin1, packs2, pack1 + pack2, due1);
    }
  }

  // The order of the packages does not change as they are spent.

  lemma {:induction false} InsertIgnoresLeft(rows: seq<UserPackage>, rows': seq<UserPackage>, order: seq<nat>, id: nat)
    requires SamePurchases(rows, rows') && IdsIn(rows, order) && id < |rows|
    ensures Insert(rows, order, id) == Insert(rows', order, id)
  {
    if order != [] {
      InsertIgnoresLeft(rows, rows', order[1..], id);
    }
  }

  lemma {:induction false} OrderIgnoresLeft(rows: seq<UserPackage>, rows': seq<UserPackage>,
                                            user: nat, zone: nat, now: int, n: nat)
    requires SamePurchases(rows, rows') && n <= |rows|
    ensures SpendingOrder(rows, user, zone, now, n) == SpendingOrder(rows', user, zone, now, n)
  {
    hide Insert;
    if n > 0 {
      OrderIgnoresLeft(rows, rows', user, zone, now, n - 1);
      assert Eligible(rows[n - 1], user, zone, now) == Eligible(rows'[n - 1], user, zone, now);
      InsertIgnoresLeft(rows, rows', SpendingOrder(rows, user, zone, now, n - 1), n - 1);
    }
  }

  /** The sessions differ at most in what has been billed. */
  ghost predicate OnlyCounters(s: Session, t: Session) {
    t == s.(billed := t.billed, coinUsed := t.coinUsed, packUsed := t.packUsed, money := t.money, charged := t.charged)
  }

  lemma PostFrame(b: Books, useCoin: nat, packs: seq<UserPackage>, usePack: nat, due: nat)
    requires b.account.balance >= 0 && b.session.status == Active && useCoin <= b.coinMinutes
    ensures var r := Post(b, useCoin, packs, usePack, due).books;
      && r.packs == packs && r.account.balance >= 0
      && OnlyCounters(b.session, r.session)
      && b.session.billed <= r.session.billed <= b.session.billed + useCoin + usePack + due
  {
    hide Post, ChargeDelta, PaidMinutes;
    PostIsPaid(b, useCoin, packs, usePack, due);
    PaidWithinDue(b.account.balance, b.session.rate, b.session.money, due);
  }

  /** What a settlement leaves alone. */
  lemma SettleFrame(b: Books, zone: Option<nat>, now: int, target: int)
    requires b.account.balance >= 0
    ensures var r := SettleMinutes(b, zone, now, target).books;
      && SamePurchases(b.packs, r.packs)
      && r.account.balance >= 0
      && OnlyCounters(b.session, r.session)
      && b.session.billed <= r.session.billed <= Max(target, b.session.billed)
  {
    hide SettleMinutes, Post, Drain;
    if target > b.session.billed && b.session.status == Active {
      var order := OrderFor(b.packs, b.session.user, zone, now);
      var delta := target - b.session.billed;
      var coin := Min(delta, b.coinMinutes);
      var drawn := SettleIsPost(b, zone, now, target);
      OrderForIsDistinct(b.packs, b.session.user, zone, now);
      DrainDraws(b.packs, order, delta - coin);
      PostFrame(b, coin, drawn.0, drawn.1, delta - coin - drawn.1);
    } else {
      GoneChangesNothing(b, zone, now, target);
    }
  }

  /** Two ticks see the same packages of the guest: none expired in between. */
  ghost predicate SameLive(b: Books, zone: Option<nat>, now1: int, now2: int) {
    OrderFor(b.packs, b.session.user, zone, now1) == OrderFor(b.packs, b.session.user, zone, now2)
  }

  /** Settling to `t1` and later to `t2` leaves the standing of settling once to `t2`. */
  lemma SettleTwiceIsOnce(b: Books, zone: Option<nat>, now1: int, t1: int, now2: int, t2: int)
    requires b.session.rate <= 0 || b.session.rate >= 60
    requires b.account.balance >= 0 && t1 <= t2
    requires SameLive(b, zone, now1, now2)
    ensures SameStanding(SettleMinutes(SettleMinutes(b, zone, now1, t1).books, zone, now2, t2).books,
                         SettleMinutes(b, zone, now2, t2).books)
  {
    if t1 <= b.session.billed {
    } else if b.session.status != Active {
      GoneChangesNothing(b, zone, now1, t1);
    } else {
      hide SettleMinutes, SettleInOrder, Post, Drain;
      var order := OrderFor(b.packs, b.session.user, zone, now1);
      SettleIsInOrder(b, zone, now1, t1);
      SettleIsInOrder(b, zone, now2, t2);
      var mid := SettleMinutes(b, zone, now1, t1).books;
      SettleFrame(b, zone, now1, t1);
      SettleIsInOrder(mid, zone, now2, t2);
      if zone.Some? {
        OrderIgnoresLeft(b.packs, mid.packs, b.session.user, zone.value, now2, |b.packs|);
      }
      OrderForIsDistinct(b.packs, b.session.user, zone, now1);
      SettleInTwo(b, order, t1, t2);
    }
  }

  datatype Slice = Slice(now: int, target: int)

  function SettleAll(b: Books, zone: Option<nat>, slices: seq<Slice>): Books
    decreases |slices|
  {
    if slices == [] then b
    else SettleAll(SettleMinutes(b, zone, slices[0].now, slices[0].target).books, zone, slices[1..])
  }

  /** However the ticks cut the time, the last one leaves the standing of a single
      settlement: restarts neither lose nor repeat a minute. */
  lemma {:induction false} AnySlicingIsOnce(b: Books, zone: Option<nat>, slices: seq<Slice>)
    requires slices != []
    requires b.session.rate <= 0 || b.session.rate >= 60
    requires b.account.balance >= 0
    requires forall i, j :: 0 <= i < j < |slices| ==> slices[i].target <= slices[j].target
    requires forall i :: 0 <= i < |slices| ==> SameLive(b, zone, slices[i].now, slices[|slices| - 1].now)
    ensures var last := slices[|slices| - 1];
      SameStanding(SettleAll(b, zone, slices), SettleMinutes(b, zone, last.now, last.target).books)
    decreases |slices|
  {
    hide SettleMinutes;
    var last := slices[|slices| - 1];
    var mid := SettleMinutes(b, zone, slices[0].now, slices[0].target).books;
    if |slices| == 1 {
      assert slices[1..] == [];
    } else {
      SettleFrame(b, zone, slices[0].now, slices[0].target);
      forall i | 0 <= i < |slices| - 1 ensures SameLive(mid, zone, slices[1..][i].now, last.now) {
        assert SameLive(b, zone, slices[i + 1].now, last.now);
        if zone.Some? {
          OrderIgnoresLeft(b.packs, mid.packs, b.session.user, zone.value, slices[i + 1].now, |b.packs|);
          OrderIgnoresLeft(b.packs, mid.packs, b.session.user, zone.value, last.now, |b.packs|);
        }
      }
      AnySlicingIsOnce(mid, zone, slices[1..]);
      SettleTwiceIsOnce(b, zone, slices[0].now, slices[0].target, last.now, last.target);
    }
  }

  /** Slicing never matters at this rate, whatever the zone and the moments, for books
      as sessions can hold them. */
  ghost predicate SlicingIsSafe(rate: int) {
    forall b: Books, zone: Option<nat>, now1: int, t1: int, now2: int, t2: int ::
      b.session.rate == rate && Balanced(b) && t1 <= t2 && SameLive(b, zone, now1, now2) ==>
        SameStanding(SettleMinutes(SettleMinutes(b, zone, now1, t1).books, zone, now2, t2).books,
                     SettleMinutes(b, zone, now2, t2).books)
  }

  /** Fifty-nine minutes paid with everything that was deposited. */
  function Spent59(rate: nat): Books {
    Books(
      WithCounters(Seat(0, 0, rate, 0, 0), Counters(59, 0, 0, 59, rate)),
      Account(0, [Entry(Deposit, rate, rate, 0), Entry(SessionSpend, 0 - rate, 0, 0)]), 0, [])
  }

  lemma Spent59IsBalanced(rate: nat)
    requires 0 < rate < 60
    ensures Balanced(Spent59(rate))
  {
    TwoRowsAreExplained(rate, rate, 0);
    assert CostForMinutes(rate, 59) == rate;
    hide Explained, SumBy, SpendOf;
  }

  /** Between 1 and 59 grosz an hour the sixtieth minute is free of charge when it
      comes alone, but not when it comes with more than the wallet can pay. */
  lemma SlicingMattersBelow60(rate: nat)
    requires 0 < rate < 60
    ensures Balanced(Spent59(rate))
    ensures SettleMinutes(SettleMinutes(Spent59(rate), None, 0, 60).books, None, 0, 120).books.session.billed == 60
    ensures SettleMinutes(Spent59(rate), None, 0, 120).books.session.billed == 59
  {
    hide Balanced, SettleMinutes, ChargeDelta, PaidMinutes;
    Spent59IsBalanced(rate);
    CostsBelow60(rate);
    var b := Spent59(rate);
    SettleTakes(b, None, 0, 60);
    var mid := SettleMinutes(b, None, 0, 60).books;
    SettleTakes(mid, None, 0, 120);
    SettleTakes(b, None, 0, 120);
  }

  /** With an empty wallet one more minute after fifty-nine is paid, none after sixty,
      and none of sixty-one. */
  lemma CostsBelow60(rate: nat)
    requires 0 < rate < 60
    ensures ChargeDelta(rate, 59, 1) == 0 && PaidMinutes(0, rate, 59, 1) == 1
    ensures PaidMinutes(0, rate, 60, 60) == 0 && PaidMinutes(0, rate, 59, 61) == 0
    ensures ChargeDelta(rate, 60, 0) == 0 && ChargeDelta(rate, 59, 0) == 0
  {
    assert CostForMinutes(rate, 59) == rate;
    assert CostForMinutes(rate, 60) == rate;
    assert CostForMinutes(rate, 120) == 2 * rate;
  }

  /** The rates at which restarting the job can never change what a guest pays. */
  lemma SlicingIsSafeIff(rate: int)
    ensures SlicingIsSafe(rate) <==> rate <= 0 || rate >= 60
  {
    hide Balanced;
    if rate <= 0 || rate >= 60 {
      forall b: Books, zone: Option<nat>, now1: int, t1: int, now2: int, t2: int
        | b.session.rate == rate && Balanced(b) && t1 <= t2 && SameLive(b, zone, now1, now2)
        ensures SameStanding(SettleMinutes(SettleMinutes(b, zone, now1, t1).books, zone, now2, t2).books,
                             SettleMinutes(b, zone, now2, t2).books)
      {
        BalancedIsSolvent(b);
        SettleTwiceIsOnce(b, zone, now1, t1, now2, t2);
      }
    } else {
      SlicingMattersBelow60(rate);
      assert SameLive(Spent59(rate), None, 0, 0);
    }
  }
}
