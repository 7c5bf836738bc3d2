/** Coin minutes are spent before packages, as if they were the first to be lost. They
    never expire, so packages first would cover at least as many minutes, in every run. */
module CoinsFirst {
  import opened Basics
  import opened Packages
  import opened LeastWaste
  import opened Sessions
  import opened Settlement

  /** A guest's prepaid minutes, and how many minutes they have covered so far. */
  datatype Purse = Purse(rows: seq<UserPackage>, coinMinutes: nat, covered: nat)

  datatype Happening = PackageBought(pack: UserPackage) | CoinsRedeemed(minutes: nat) | Played(now: int, need: nat)

  /** The club's rule: coin minutes, then packages. */
  function CoinsFirst(p: Purse, user: nat, zone: nat, e: Happening): Purse {
    match e
    case PackageBought(pack) => p.(rows := p.rows + [pack])
    case CoinsRedeemed(minutes) => p.(coinMinutes := p.coinMinutes + minutes)
    case Played(now, need) =>
      var coin := Min(need, p.coinMinutes);
      var t := SpendSoonest(Tally(p.rows, p.covered), user, zone, Tick(now, need - coin));
      Purse(t.rows, p.coinMinutes - coin, t.covered + coin)
  }

  /** The other way round. */
  function PackagesFirst(p: Purse, user: nat, zone: nat, e: Happening): Purse {
    match e
    case PackageBought(pack) => p.(rows := p.rows + [pack])
    case CoinsRedeemed(minutes) => p.(coinMinutes := p.coinMinutes + minutes)
    case Played(now, need) =>
      var t := SpendSoonest(Tally(p.rows, p.covered), user, zone, Tick(now, need));
      var coin := Max(0, Min(need - (t.covered - p.covered), p.coinMinutes));
      Purse(t.rows, p.coinMinutes - coin, t.covered + coin)
  }

  function RunCoinsFirst(p: Purse, user: nat, zone: nat, events: seq<Happening>): Purse
    decreases |events|
  {
    if events == [] then p else RunCoinsFirst(CoinsFirst(p, user, zone, events[0]), user, zone, events[1..])
  }

  function RunPackagesFirst(p: Purse, user: nat, zone: nat, events: seq<Happening>): Purse
    decreases |events|
  {
    if events == [] then p else RunPackagesFirst(PackagesFirst(p, user, zone, events[0]), user, zone, events[1..])
  }

  /** The clock of the job never runs backwards. */
  predicate InOrder(now: int, events: seq<Happening>)
    decreases |events|
  {
    events == []
    || (if events[0].Played? then now <= events[0].now && InOrder(events[0].now, events[1..]) else InOrder(now, events[1..]))
  }

  /** A settlement takes coin minutes and package minutes by the club's rule. */
  lemma SettleIsCoinsFirst(b: Books, zone: nat, now: int, target: int)
    requires b.session.status == Active && b.account.balance >= 0 && target > b.session.billed
    ensures var r := SettleMinutes(b, Some(zone), now, target).books;
      var p := CoinsFirst(Purse(b.packs, b.coinMinutes, 0), b.session.user, zone, Played(now, target - b.session.billed));
      && (r.packs, r.coinMinutes) == (p.rows, p.coinMinutes)
      && p.covered == (r.session.coinUsed - b.session.coinUsed) + (r.session.packUsed - b.session.packUsed)
  {
    hide Post, Take, Listing, LivePackagesFor;
    var delta := target - b.session.billed;
    var coin := Min(delta, b.coinMinutes);
    var listing := ListingFor(b.packs, b.session.user, Some(zone), now);
    TakeNothing(b.packs, listing);
    var (packs, usePack) := Take(b.packs, listing, delta - coin);
    PostPays(b, coin, packs, usePack, delta - coin - usePack);
  }

  // What a purse is worth at a moment: minutes covered, and minutes that outlive it.

  function Worth(p: Purse, user: nat, zone: nat, moment: Option<int>): int {
    p.covered + Beyond(p.rows, user, zone, moment) + if moment.Some? then p.coinMinutes else 0
  }

  /** What is still good at `now` and lost by the moment. */
  function Perishing(p: Purse, user: nat, zone: nat, now: int, moment: Option<int>): int {
    Beyond(p.rows, user, zone, Some(now)) - Beyond(p.rows, user, zone, moment)
  }

  lemma BeyondShrinks(rows: seq<UserPackage>, user: nat, zone: nat, now: int, moment: Option<int>)
    requires NotBefore(moment, now)
    ensures 0 <= Beyond(rows, user, zone, moment) <= Beyond(rows, user, zone, Some(now))
  {
    SumByAtMost(LeftBeyond(user, zone, moment), LeftBeyond(user, zone, Some(now)), rows);
    SumByNonNegative(LeftBeyond(user, zone, moment), rows);
  }

  /** The club's tick spends of what would perish only what the coins leave over. */
  lemma CoinsFirstTick(p: Purse, user: nat, zone: nat, now: int, need: nat, moment: Option<int>)
    requires NotBefore(moment, now)
    ensures var q := CoinsFirst(p, user, zone, Played(now, need));
      if moment.Some?
      then Worth(q, user, zone, moment) == Worth(p, user, zone, moment)
             + Min(need - Min(need, p.coinMinutes), Perishing(p, user, zone, now, moment))
      else q.covered == p.covered + Min(need, Worth(p, user, zone, Some(now)) - p.covered)
  {
    hide SpendSoonest, Beyond;
    var coin := Min(need, p.coinMinutes);
    SoonestTick(Tally(p.rows, p.covered), user, zone, now, need - coin, moment);
    BeyondShrinks(p.rows, user, zone, now, moment);
    NothingOutlivesTheEnd(p.rows, user, zone);
    NothingOutlivesTheEnd(CoinsFirst(p, user, zone, Played(now, need)).rows, user, zone);
  }

  /** Packages first spends of it as much as the tick needs. */
  lemma PackagesFirstTick(p: Purse, user: nat, zone: nat, now: int, need: nat, moment: Option<int>)
    requires NotBefore(moment, now)
    ensures var q := PackagesFirst(p, user, zone, Played(now, need));
      if moment.Some?
      then Worth(q, user, zone, moment) == Worth(p, user, zone, moment)
             + Min(need, Perishing(p, user, zone, now, moment))
      else q.covered == p.covered + Min(need, Worth(p, user, zone, Some(now)) - p.covered)
  {
    hide SpendSoonest, Beyond;
    SoonestTick(Tally(p.rows, p.covered), user, zone, now, need, moment);
    SoonestTick(Tally(p.rows, p.covered), user, zone, now, need, None);
    BeyondShrinks(p.rows, user, zone, now, moment);
    BeyondShrinks(p.rows, user, zone, now, None);
    NothingOutlivesTheEnd(p.rows, user, zone);
    NothingOutlivesTheEnd(PackagesFirst(p, user, zone, Played(now, need)).rows, user, zone);
  }

  /** The one purse is worth at least as much as the other, at every moment to come. */
  ghost predicate WorthMore(p: Purse, c: Purse, user: nat, zone: nat, now: int) {
    forall moment :: NotBefore(moment, now) ==> Worth(p, user, zone, moment) >= Worth(c, user, zone, moment)
  }

  lemma CoveredIsWorthAtTheEnd(p: Purse, user: nat, zone: nat)
    ensures Worth(p, user, zone, None) == p.covered
  {
    NothingOutlivesTheEnd(p.rows, user, zone);
  }

  lemma TickKeepsWorthMore(p: Purse, c: Purse, user: nat, zone: nat, now: int, at: int, need: nat)
    requires WorthMore(p, c, user, zone, now) && now <= at
    ensures WorthMore(PackagesFirst(p, user, zone, Played(at, need)), CoinsFirst(c, user, zone, Played(at, need)), user, zone, at)
  {
    var p', c' := PackagesFirst(p, user, zone, Played(at, need)), CoinsFirst(c, user, zone, Played(at, need));
    hide CoinsFirst, PackagesFirst, Beyond;
    assert NotBefore(Some(at), now) && NotBefore(None, now);
    CoveredIsWorthAtTheEnd(p, user, zone);
    CoveredIsWorthAtTheEnd(c, user, zone);
    CoveredIsWorthAtTheEnd(p', user, zone);
    CoveredIsWorthAtTheEnd(c', user, zone);
    forall moment | NotBefore(moment, at) ensures Worth(p', user, zone, moment) >= Worth(c', user, zone, moment) {
      assert NotBefore(moment, now);
      PackagesFirstTick(p, user, zone, at, need, moment);
      CoinsFirstTick(c, user, zone, at, need, moment);
    }
  }

  lemma PurchaseKeepsWorthMore(p: Purse, c: Purse, user: nat, zone: nat, now: int, e: Happening)
    requires WorthMore(p, c, user, zone, now) && !e.Played?
    ensures WorthMore(PackagesFirst(p, user, zone, e), CoinsFirst(c, user, zone, e), user, zone, now)
  {
    hide SumBy;
    forall moment | NotBefore(moment, now)
      ensures Worth(PackagesFirst(p, user, zone, e), user, zone, moment) >= Worth(CoinsFirst(c, user, zone, e), user, zone, moment)
    {
      if e.PackageBought? {
        SumByAppend(LeftBeyond(user, zone, moment), p.rows, e.pack);
        SumByAppend(LeftBeyond(user, zone, moment), c.rows, e.pack);
      }
      assert Worth(p, user, zone, moment) >= Worth(c, user, zone, moment);
    }
  }

  lemma {:induction false} RunKeepsWorthMore(p: Purse, c: Purse, user: nat, zone: nat, now: int, events: seq<Happening>)
    requires WorthMore(p, c, user, zone, now) && InOrder(now, events)
    ensures RunPackagesFirst(p, user, zone, events).covered >= RunCoinsFirst(c, user, zone, events).covered
    decreases |events|
  {
    hide CoinsFirst, PackagesFirst, WorthMore;
    if events == [] {
      WorthMoreCoversMore(p, c, user, zone, now);
    } else if events[0].Played? {
      TickKeepsWorthMore(p, c, user, zone, now, events[0].now, events[0].need);
      RunKeepsWorthMore(PackagesFirst(p, user, zone, events[0]), CoinsFirst(c, user, zone, events[0]), user, zone,
                        events[0].now, events[1..]);
    } else {
      PurchaseKeepsWorthMore(p, c, user, zone, now, events[0]);
      RunKeepsWorthMore(PackagesFirst(p, user, zone, events[0]), CoinsFirst(c, user, zone, events[0]), user, zone,
                        now, events[1..]);
    }
  }

  lemma WorthMoreCoversMore(p: Purse, c: Purse, user: nat, zone: nat, now: int)
    requires WorthMore(p, c, user, zone, now)
    ensures p.covered >= c.covered
  {
    assert NotBefore(None, now);
    CoveredIsWorthAtTheEnd(p, user, zone);
    CoveredIsWorthAtTheEnd(c, user, zone);
  }

  /** Over every run of purchases, redemptions and ticks, packages before coins covers
      at least as many minutes as coins before packages. */
  lemma PackagesFirstCoversMore(p: Purse, user: nat, zone: nat, now: int, events: seq<Happening>)
    requires InOrder(now, events)
    ensures RunPackagesFirst(p, user, zone, events).covered >= RunCoinsFirst(p, user, zone, events).covered
  {
    RunKeepsWorthMore(p, p, user, zone, now, events);
  }

  // When the club's rule loses nothing.

  /** No package with minutes has a term still to run. */
  ghost predicate NothingCanExpire(rows: seq<UserPackage>, user: nat, zone: nat, now: int) {
    forall i :: 0 <= i < |rows| && Eligible(rows[i], user, zone, now) && rows[i].minutesLeft > 0 ==> rows[i].expiresAt.None?
  }

  predicate OnlyPlayed(events: seq<Happening>) {
    forall i :: 0 <= i < |events| ==> events[i].Played?
  }

  /** However the guest plays from now on, without buying more, both rules cover the same. */
  ghost predicate CoinsFirstLosesNothing(p: Purse, user: nat, zone: nat, now: int) {
    forall events :: OnlyPlayed(events) && InOrder(now, events) ==>
      RunCoinsFirst(p, user, zone, events).covered == RunPackagesFirst(p, user, zone, events).covered
  }

  lemma {:induction false} WithoutCoinsRulesAgree(p: Purse, user: nat, zone: nat, events: seq<Happening>)
    requires p.coinMinutes == 0 && OnlyPlayed(events)
    ensures RunCoinsFirst(p, user, zone, events) == RunPackagesFirst(p, user, zone, events)
    decreases |events|
  {
    hide SpendSoonest;
    if events != [] {
      WithoutCoinsRulesAgree(CoinsFirst(p, user, zone, events[0]), user, zone, events[1..]);
    }
  }

  /** Nothing the purse holds is lost by any later moment. */
  ghost predicate Lasting(p: Purse, user: nat, zone: nat, now: int) {
    forall later {:trigger Worth(p, user, zone, Some(later))} ::
      now <= later ==> Worth(p, user, zone, Some(later)) == Worth(p, user, zone, Some(now))
  }

  lemma NothingExpiresLasts(p: Purse, user: nat, zone: nat, now: int)
    requires NothingCanExpire(p.rows, user, zone, now)
    ensures Lasting(p, user, zone, now)
  {
    forall later | now <= later ensures Worth(p, user, zone, Some(later)) == Worth(p, user, zone, Some(now)) {
      BeyondShrinks(p.rows, user, zone, now, Some(later));
      SumByAtMost(LeftBeyond(user, zone, Some(now)), LeftBeyond(user, zone, Some(later)), p.rows);
    }
  }

  /** A tick keeps lasting purses lasting, and of equal worth. */
  lemma LastingTick(p: Purse, c: Purse, user: nat, zone: nat, now: int, at: int, need: nat)
    requires Lasting(p, user, zone, now) && Lasting(c, user, zone, now) && now <= at
    requires p.covered == c.covered && Worth(p, user, zone, Some(now)) == Worth(c, user, zone, Some(now))
    ensures var p', c' := PackagesFirst(p, user, zone, Played(at, need)), CoinsFirst(c, user, zone, Played(at, need));
      && Lasting(p', user, zone, at) && Lasting(c', user, zone, at)
      && p'.covered == c'.covered && Worth(p', user, zone, Some(at)) == Worth(c', user, zone, Some(at))
  {
    var p', c' := PackagesFirst(p, user, zone, Played(at, need)), CoinsFirst(c, user, zone, Played(at, need));
    hide CoinsFirst, PackagesFirst, Beyond;
    PackagesFirstTick(p, user, zone, at, need, None);
    CoinsFirstTick(c, user, zone, at, need, None);
    forall later | at <= later
      ensures Worth(p', user, zone, Some(later)) == Worth(p, user, zone, Some(now))
      ensures Worth(c', user, zone, Some(later)) == Worth(c, user, zone, Some(now))
    {
      PackagesFirstTick(p, user, zone, at, need, Some(later));
      CoinsFirstTick(c, user, zone, at, need, Some(later));
      assert Worth(p, user, zone, Some(at)) == Worth(p, user, zone, Some(later));
      assert Worth(c, user, zone, Some(at)) == Worth(c, user, zone, Some(later));
    }
  }

  lemma {:induction false} LastingRunsAgree(p: Purse, c: Purse, user: nat, zone: nat, now: int, events: seq<Happening>)
    requires Lasting(p, user, zone, now) && Lasting(c, user, zone, now)
    requires p.covered == c.covered && Worth(p, user, zone, Some(now)) == Worth(c, user, zone, Some(now))
    requires OnlyPlayed(events) && InOrder(now, events)
    ensures RunCoinsFirst(c, user, zone, events).covered == RunPackagesFirst(p, user, zone, events).covered
    decreases |events|
  {
    hide CoinsFirst, PackagesFirst, Lasting, Worth;
    if events != [] {
      LastingTick(p, c, user, zone, now, events[0].now, events[0].need);
      LastingRunsAgree(PackagesFirst(p, user, zone, events[0]), CoinsFirst(c, user, zone, events[0]), user, zone,
                       events[0].now, events[1..]);
    }
  }

  /** A tick of one minute now, and one after the package is gone that asks for
      everything left. */
  lemma TermIsLost(p: Purse, user: nat, zone: nat, now: int, i: nat)
    requires p.coinMinutes > 0 && i < |p.rows| && Eligible(p.rows[i], user, zone, now)
    requires p.rows[i].minutesLeft > 0 && p.rows[i].expiresAt.Some?
    ensures var lost := p.rows[i].expiresAt.value;
      var rest := Max(0, Beyond(p.rows, user, zone, Some(lost)) + p.coinMinutes);
      var events := [Played(now, 1), Played(lost, rest)];
      && OnlyPlayed(events) && InOrder(now, events)
      && RunPackagesFirst(p, user, zone, events).covered == RunCoinsFirst(p, user, zone, events).covered + 1
  {
    var lost := p.rows[i].expiresAt.value;
    var rest := Max(0, Beyond(p.rows, user, zone, Some(lost)) + p.coinMinutes);
    var first, second := Played(now, 1), Played(lost, rest);
    PerishingHasIt(p, user, zone, now, i);
    BeyondShrinks(p.rows, user, zone, now, Some(lost));
    TwoPlayed(p, user, zone, first, second);
    InOrderOfTwo(now, first, second);
    hide CoinsFirst, PackagesFirst, Beyond, RunCoinsFirst, RunPackagesFirst, InOrder;
    PackagesFirstTick(p, user, zone, now, 1, Some(lost));
    PackagesFirstTick(p, user, zone, now, 1, None);
    CoinsFirstTick(p, user, zone, now, 1, Some(lost));
    CoinsFirstTick(p, user, zone, now, 1, None);
    PackagesFirstTick(PackagesFirst(p, user, zone, first), user, zone, lost, rest, None);
    CoinsFirstTick(CoinsFirst(p, user, zone, first), user, zone, lost, rest, None);
  }

  lemma PerishingHasIt(p: Purse, user: nat, zone: nat, now: int, i: nat)
    requires i < |p.rows| && Eligible(p.rows[i], user, zone, now) && p.rows[i].expiresAt.Some?
    ensures Perishing(p, user, zone, now, p.rows[i].expiresAt) >= p.rows[i].minutesLeft
  {
    var moment := p.rows[i].expiresAt;
    var without := p.rows[i := p.rows[i].(minutesLeft := 0)];
    SumByUpdate(LeftBeyond(user, zone, Some(now)), p.rows, i, without[i]);
    SumByUpdate(LeftBeyond(user, zone, moment), p.rows, i, without[i]);
    BeyondShrinks(without, user, zone, now, moment);
  }

  lemma TwoPlayed(p: Purse, user: nat, zone: nat, first: Happening, second: Happening)
    ensures RunCoinsFirst(p, user, zone, [first, second]) == CoinsFirst(CoinsFirst(p, user, zone, first), user, zone, second)
    ensures RunPackagesFirst(p, user, zone, [first, second])
         == PackagesFirst(PackagesFirst(p, user, zone, first), user, zone, second)
  {
    hide CoinsFirst, PackagesFirst;
    assert [first, second][1..] == [second] && [second][1..] == [];
    var c, q := CoinsFirst(p, user, zone, first), PackagesFirst(p, user, zone, first);
    assert RunCoinsFirst(c, user, zone, [second]) == RunCoinsFirst(CoinsFirst(c, user, zone, second), user, zone, [second][1..]);
    assert RunPackagesFirst(q, user, zone, [second])
        == RunPackagesFirst(PackagesFirst(q, user, zone, second), user, zone, [second][1..]);
  }

  lemma InOrderOfTwo(now: int, first: Happening, second: Happening)
    requires first.Played? && second.Played? && now <= first.now <= second.now
    ensures InOrder(now, [first, second])
  {
    assert [first, second][1..] == [second] && [second][1..] == [];
    assert InOrder(second.now, []);
    assert InOrder(first.now, [second]);
  }

  /** Coins first loses nothing, however the guest plays on, exactly when he has no
      coin minutes or no package of the zone that can expire. */
  lemma CoinsFirstLosesNothingIff(p: Purse, user: nat, zone: nat, now: int)
    ensures CoinsFirstLosesNothing(p, user, zone, now) <==>
      p.coinMinutes == 0 || NothingCanExpire(p.rows, user, zone, now)
  {
    hide RunCoinsFirst, RunPackagesFirst, InOrder, Eligible;
    if p.coinMinutes == 0 || NothingCanExpire(p.rows, user, zone, now) {
      forall events | OnlyPlayed(events) && InOrder(now, events)
        ensures RunCoinsFirst(p, user, zone, events).covered == RunPackagesFirst(p, user, zone, events).covered
      {
        if p.coinMinutes == 0 {
          WithoutCoinsRulesAgree(p, user, zone, events);
        } else {
          NothingExpiresLasts(p, user, zone, now);
          LastingRunsAgree(p, p, user, zone, now, events);
        }
      }
    } else {
      var i :| 0 <= i < |p.rows| && Eligible(p.rows[i], user, zone, now) && p.rows[i].minutesLeft > 0
            && p.rows[i].expiresAt.Some?;
      TermIsLost(p, user, zone, now, i);
    }
  }

  /** An hour of coin minutes and an hour's package that expires with the hour: the
      club spends the coins, and the package is lost. */
  lemma AnHourIsLost()
    ensures var pack := UserPackage(0, 1, 60, 60, 3000, true, Some(3601), 1, false);
      var p, events := Purse([pack], 60, 0), [Played(3600, 60), Played(3601, 60)];
      RunCoinsFirst(p, 0, 1, events).covered == 60 && RunPackagesFirst(p, 0, 1, events).covered == 120
  {
    var pack := UserPackage(0, 1, 60, 60, 3000, true, Some(3601), 1, false);
    var p, first, second := Purse([pack], 60, 0), Played(3600, 60), Played(3601, 60);
    HourLeft(pack);
    TwoPlayed(p, 0, 1, first, second);
    hide CoinsFirst, PackagesFirst, Beyond;
    PackagesFirstTick(p, 0, 1, 3600, 60, Some(3601));
    PackagesFirstTick(p, 0, 1, 3600, 60, None);
    CoinsFirstTick(p, 0, 1, 3600, 60, Some(3601));
    CoinsFirstTick(p, 0, 1, 3600, 60, None);
    PackagesFirstTick(PackagesFirst(p, 0, 1, first), 0, 1, 3601, 60, None);
    CoinsFirstTick(CoinsFirst(p, 0, 1, first), 0, 1, 3601, 60, None);
  }

  lemma HourLeft(pack: UserPackage)
    requires pack == UserPackage(0, 1, 60, 60, 3000, true, Some(3601), 1, false)
    ensures Beyond([pack], 0, 1, Some(3600)) == 60 && Beyond([pack], 0, 1, Some(3601)) == 0
  {
    assert [pack] == [] + [pack];
    SumByAppend(LeftBeyond(0, 1, Some(3600)), [], pack);
    SumByAppend(LeftBeyond(0, 1, Some(3601)), [], pack);
  }
}
