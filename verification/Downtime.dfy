/** What a stopped billing job can cost: a settlement that comes later draws from the
    packages that are live then. */
module Downtime {
  import opened Basics
  import opened Tariff
  import opened Packages
  import opened LeastWaste
  import opened Wallet
  import opened Sessions
  import opened Settlement
  import opened SessionLedger
  import opened Slicing

  lemma PrecedesAgain(a: UserPackage, b: UserPackage, c: UserPackage)
    ensures Precedes(a, b) && Precedes(b, c) ==> Precedes(a, c)
  {
  }

  /** In spending order, dropping empty packages and inserting commute. */
  lemma {:induction false} InsertNonEmpty(rows: seq<UserPackage>, order: seq<nat>, id: nat)
    requires IdsIn(rows, order) && id < |rows| && InSpendingOrder(rows, order) && rows[id].minutesLeft > 0
    ensures NonEmpty(rows, Insert(rows, order, id)) == Insert(rows, NonEmpty(rows, order), id)
  {
    if order != [] {
      var rest := order[1..];
      RestInOrder(rows, order);
      InsertNonEmpty(rows, rest, id);
      if Precedes(rows[order[0]], rows[id]) {
        assert Insert(rows, order, id)[1..] == Insert(rows, rest, id);
        if rows[order[0]].minutesLeft > 0 {
          assert NonEmpty(rows, order)[1..] == NonEmpty(rows, rest);
        }
      } else {
        assert Insert(rows, order, id)[1..] == order;
        InsertFirst(rows, order, id);
      }
    }
  }

  /** What precedes the head of an order precedes it without its empty packages. */
  lemma InsertFirst(rows: seq<UserPackage>, order: seq<nat>, id: nat)
    requires IdsIn(rows, order) && id < |rows| && InSpendingOrder(rows, order) && order != []
    requires !Precedes(rows[order[0]], rows[id])
    ensures Insert(rows, NonEmpty(rows, order), id) == [id] + NonEmpty(rows, order)
  {
    var list := NonEmpty(rows, order);
    if list != [] {
      assert list[0] in list;
      var k :| 0 <= k < |order| && order[k] == list[0];
      if k > 0 {
        assert Precedes(rows[order[0]], rows[order[k]]);
      }
      PrecedesAgain(rows[order[0]], rows[list[0]], rows[id]);
    }
  }

  lemma {:induction false} InsertEmpty(rows: seq<UserPackage>, order: seq<nat>, id: nat)
    requires IdsIn(rows, order) && id < |rows| && rows[id].minutesLeft == 0
    ensures NonEmpty(rows, Insert(rows, order, id)) == NonEmpty(rows, order)
  {
    if order != [] && Precedes(rows[order[0]], rows[id]) {
      InsertEmpty(rows, order[1..], id);
      assert Insert(rows, order, id)[1..] == Insert(rows, order[1..], id);
    } else {
      assert Insert(rows, order, id)[1..] == order;
    }
  }

  /** No package with minutes expired between the two moments. */
  ghost predicate NothingExpired(rows: seq<UserPackage>, user: nat, zone: Option<nat>, now: int, later: int) {
    zone.Some? ==> forall i :: 0 <= i < |rows| && rows[i].minutesLeft > 0 && Eligible(rows[i], user, zone.value, now) ==>
      Eligible(rows[i], user, zone.value, later)
  }

  /** Then the live packages, in their order, are the same. */
  lemma {:induction false} SameLivePackages(rows: seq<UserPackage>, user: nat, zone: nat, now: int, later: int, n: nat)
    requires n <= |rows| && now <= later && NothingExpired(rows, user, Some(zone), now, later)
    ensures NonEmpty(rows, SpendingOrder(rows, user, zone, now, n)) == NonEmpty(rows, SpendingOrder(rows, user, zone, later, n))
  {
    hide Insert, NonEmpty;
    if n > 0 {
      SameLivePackages(rows, user, zone, now, later, n - 1);
      var early, late := SpendingOrder(rows, user, zone, now, n - 1), SpendingOrder(rows, user, zone, later, n - 1);
      SpendingOrderSorted(rows, user, zone, now, n - 1);
      SpendingOrderSorted(rows, user, zone, later, n - 1);
      if rows[n - 1].minutesLeft > 0 {
        InsertNonEmpty(rows, early, n - 1);
        InsertNonEmpty(rows, late, n - 1);
      } else {
        InsertEmpty(rows, early, n - 1);
        InsertEmpty(rows, late, n - 1);
      }
    }
  }

  lemma SameListing(b: Books, zone: Option<nat>, now: int, later: int, target: int)
    requires now <= later && NothingExpired(b.packs, b.session.user, zone, now, later)
    ensures SettleMinutes(b, zone, now, target) == SettleMinutes(b, zone, later, target)
  {
    hide Post, Take, SpendingOrder, NonEmpty;
    if zone.Some? {
      SameLivePackages(b.packs, b.session.user, zone.value, now, later, |b.packs|);
    }
  }

  /** Minutes in packages of the zone that are over by the moment. */
  function Over(rows: seq<UserPackage>, user: nat, zone: nat, moment: int): int {
    AllOwned(rows, user, zone) - Beyond(rows, user, zone, Some(moment))
  }

  /** A draw in time takes what will be over first; a draw after that takes none of it. */
  lemma DrawInTime(rows: seq<UserPackage>, user: nat, zone: nat, now: int, later: int, need: nat)
    requires now <= later
    ensures var order := SpendingOrder(rows, user, zone, now, |rows|);
      Over(Drain(rows, order, need).0, user, zone, later)
        == Over(rows, user, zone, later)
           - Min(need, Beyond(rows, user, zone, Some(now)) - Beyond(rows, user, zone, Some(later)))
  {
    hide Drain, SpendingOrder, AllOwned, Beyond, Outlives;
    var order := SpendingOrder(rows, user, zone, now, |rows|);
    SpendingOrderIsComplete(rows, user, zone, now);
    EligibleIsOwned(user, zone, now);
    forall k | 0 <= k < |order| ensures Owned(rows[order[k]], user, zone) {
      assert order[k] in order;
    }
    DrainWithin(rows, order, need, user, zone, Some(later));
    OrderHoldsAllWithin(rows, user, zone, now, |rows|, Some(later));
    assert rows[..|rows|] == rows;
  }

  lemma EligibleIsOwned(user: nat, zone: nat, now: int)
    ensures forall p: UserPackage :: Eligible(p, user, zone, now) <==> Owned(p, user, zone) && Outlives(p, Some(now))
  {
  }

  lemma SomethingIsOver(rows: seq<UserPackage>, user: nat, zone: nat, now: int, later: int, i: nat)
    requires i < |rows| && now <= later && rows[i].minutesLeft > 0
    requires Eligible(rows[i], user, zone, now) && !Eligible(rows[i], user, zone, later)
    ensures Beyond(rows, user, zone, Some(now)) > Beyond(rows, user, zone, Some(later))
  {
    var without := rows[i := rows[i].(minutesLeft := 0)];
    SumByUpdate(LeftBeyond(user, zone, Some(now)), rows, i, without[i]);
    SumByUpdate(LeftBeyond(user, zone, Some(later)), rows, i, without[i]);
    SumByAtMost(LeftBeyond(user, zone, Some(later)), LeftBeyond(user, zone, Some(now)), without);
  }

  /** Settling the same minutes later leaves the same books exactly when there is
      nothing to settle, coin minutes cover it, or no package with minutes expired
      meanwhile. */
  lemma DelayIsHarmlessIff(b: Books, zone: Option<nat>, now: int, later: int, target: int)
    requires now <= later && b.account.balance >= 0
    ensures SameStanding(SettleMinutes(b, zone, now, target).books, SettleMinutes(b, zone, later, target).books) <==>
      || b.session.status != Active || target - b.session.billed <= b.coinMinutes
      || NothingExpired(b.packs, b.session.user, zone, now, later)
  {
    hide SettleMinutes, Drain, SpendingOrder, AllOwned, Beyond, ChargeDelta, PaidMinutes, MostMinutes, SumLeft, Eligible;
    var user, delta := b.session.user, target - b.session.billed;
    if b.session.status != Active || delta <= 0 {
      GoneChangesNothing(b, zone, now, target);
      GoneChangesNothing(b, zone, later, target);
    } else if delta <= b.coinMinutes {
      CoinsCoverAlike(b, zone, now, later, target);
    } else if NothingExpired(b.packs, user, zone, now, later) {
      SameListing(b, zone, now, later, target);
    } else {
      var need := delta - b.coinMinutes;
      SettleTakes(b, zone, now, target);
      SettleTakes(b, zone, later, target);
      var i :| 0 <= i < |b.packs| && b.packs[i].minutesLeft > 0 && Eligible(b.packs[i], user, zone.value, now)
            && !Eligible(b.packs[i], user, zone.value, later);
      SomethingIsOver(b.packs, user, zone.value, now, later, i);
      DrawInTime(b.packs, user, zone.value, now, later, need);
      DrawInTime(b.packs, user, zone.value, later, later, need);
    }
  }

  lemma CoinsCoverAlike(b: Books, zone: Option<nat>, now: int, later: int, target: int)
    requires b.session.billed < target <= b.session.billed + b.coinMinutes
    ensures SettleMinutes(b, zone, now, target) == SettleMinutes(b, zone, later, target)
  {
  }

  /** Half an hour at sixty zloty, with a package of half an hour that is over with it. */
  const HalfHour := Books(
    Seat(0, 0, 6000, 0, 0), Account(4000, [Entry(Deposit, 4000, 4000, 0)]), 0,
    [UserPackage(0, 1, 30, 30, 2000, false, Some(1801), 0, false)])

  /** A state the session can be in. */
  lemma HalfHourIsBalanced()
    ensures Balanced(HalfHour)
  {
    hide SpendOf;
    FreshAccountIsExplained();
    ApplyKeepsExplained(NewAccount, Op(Deposit, 4000, 0));
    assert WalletApply(NewAccount, Op(Deposit, 4000, 0)).account == HalfHour.account;
    NoSpendYet(Entry(Deposit, 4000, 4000, 0));
  }

  lemma NoSpendYet(e: Entry)
    requires e.kind != SessionSpend
    ensures SumBy(SpendOf(0), [e]) == 0
  {
    assert [e] == [] + [e];
    SumByAppend(SpendOf(0), [], e);
  }

  /** Ticked in time the package pays; settled a minute late, the wallet. */
  lemma HalfAnHourLate()
    ensures SettleMinutes(HalfHour, Some(1), 1800, 30).books.account.balance == 4000
    ensures SettleMinutes(HalfHour, Some(1), 1860, 30).books.account.balance == 1000
  {
    hide SettleMinutes;
    HalfHourLeft();
    HalfHourSettles(1800, 30);
    HalfHourSettles(1860, 0);
  }

  lemma HalfHourSettles(now: int, pack: nat)
    requires (pack == 30 || pack == 0) && SumLeft(HalfHour.packs, OrderFor(HalfHour.packs, 0, Some(1), now)) == pack
    ensures SettleMinutes(HalfHour, Some(1), now, 30).books.account.balance == if pack == 30 then 4000 else 1000
  {
    hide SettleMinutes, Drain, OrderFor, SumLeft, PaidMinutes, MostMinutes, CostForMinutes, ChargeDelta, SumBy;
    ThirtyZloty();
    SettleTakes(HalfHour, Some(1), now, 30);
  }

  lemma HalfHourLeft()
    ensures SumLeft(HalfHour.packs, OrderFor(HalfHour.packs, 0, Some(1), 1800)) == 30
    ensures SumLeft(HalfHour.packs, OrderFor(HalfHour.packs, 0, Some(1), 1860)) == 0
  {
    hide Insert, SpendingOrder;
    var pack := HalfHour.packs[0];
    LivePackMinutes(HalfHour.packs, 0, 1, 1800, 1);
    LivePackMinutes(HalfHour.packs, 0, 1, 1860, 1);
    assert HalfHour.packs[..1] == [] + [pack];
    SumByAppend(LiveLeft(0, 1, 1800), [], pack);
    SumByAppend(LiveLeft(0, 1, 1860), [], pack);
  }

  lemma ThirtyZloty()
    ensures ChargeDelta(6000, 0, 0) == 0 && ChargeDelta(6000, 0, 30) == 3000
    ensures PaidMinutes(4000, 6000, 0, 30) == 30
  {
  }
}
