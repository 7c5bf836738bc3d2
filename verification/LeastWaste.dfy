/** Spending the soonest-to-expire package first wastes the least: over any run of
    purchases and ticks no other way of drawing covers more minutes, and no other
    way lets fewer minutes expire. */
module LeastWaste {
  import opened Basics
  import opened Packages

  /** A package bought by the guest, or a tick that wants minutes from packages. */
  datatype Event = Bought(pack: UserPackage) | Tick(now: int, need: nat)

  /** The package table, and the minutes that packages have covered so far. */
  datatype Tally = Tally(rows: seq<UserPackage>, covered: nat)

  /** One event under the club's rule: list the live packages and take in order. */
  function SpendSoonest(t: Tally, user: nat, zone: nat, e: Event): Tally {
    match e
    case Bought(pack) => t.(rows := t.rows + [pack])
    case Tick(now, need) =>
      var (rows, used) := Take(t.rows, Listing(t.rows, LivePackagesFor(t.rows, user, Some(zone), now)), need);
      Tally(rows, t.covered + used)
  }

  function SpendSoonestRun(start: seq<UserPackage>, user: nat, zone: nat, events: seq<Event>): Tally {
    if events == [] then Tally(start, 0)
    else SpendSoonest(SpendSoonestRun(start, user, zone, events[..|events| - 1]), user, zone, events[|events| - 1])
  }

  /** Any other choice at a tick: how much to draw from each row of the table. */
  ghost predicate Lawful(rows: seq<UserPackage>, user: nat, zone: nat, e: Event, draws: seq<nat>) {
    && |draws| == |rows|
    && (forall i :: 0 <= i < |rows| ==> draws[i] <= rows[i].minutesLeft)
    && (e.Tick? ==>
          && SumDraws(draws) <= e.need
          && forall i :: 0 <= i < |rows| && draws[i] > 0 ==> Eligible(rows[i], user, zone, e.now))
  }

  function SumDraws(draws: seq<nat>): nat {
    if draws == [] then 0 else SumDraws(draws[..|draws| - 1]) + draws[|draws| - 1]
  }

  function WithdrawEach(rows: seq<UserPackage>, draws: seq<nat>): (r: seq<UserPackage>)
    requires |draws| == |rows|
    requires forall i :: 0 <= i < |rows| ==> draws[i] <= rows[i].minutesLeft
    ensures |r| == |rows|
  {
    if rows == [] then []
    else
      var n := |rows| - 1;
      WithdrawEach(rows[..n], draws[..n]) + [rows[n].(minutesLeft := rows[n].minutesLeft - draws[n])]
  }

  function DrawFreely(t: Tally, e: Event, draws: seq<nat>): Tally
    requires |draws| == |t.rows|
    requires forall i :: 0 <= i < |t.rows| ==> draws[i] <= t.rows[i].minutesLeft
  {
    match e
    case Bought(pack) => t.(rows := t.rows + [pack])
    case Tick(_, _) => Tally(WithdrawEach(t.rows, draws), t.covered + SumDraws(draws))
  }

  /** `rival` is reachable by some lawful choice of draws at every tick. */
  ghost predicate LawfulRun(start: seq<UserPackage>, user: nat, zone: nat, events: seq<Event>,
                            plan: seq<seq<nat>>, rival: Tally)
    requires |plan| == |events|
    decreases |events|
  {
    if events == [] then rival == Tally(start, 0)
    else
      var n := |events| - 1;
      exists before: Tally ::
        && LawfulRun(start, user, zone, events[..n], plan[..n], before)
        && Lawful(before.rows, user, zone, events[n], plan[n])
        && rival == DrawFreely(before, events[n], plan[n])
  }

  /** The clock of the billing job never runs backwards. */
  ghost predicate ClockMonotone(events: seq<Event>) {
    forall i, j :: 0 <= i < j < |events| && events[i].Tick? && events[j].Tick? ==> events[i].now <= events[j].now
  }

  ghost predicate NoTickAfter(events: seq<Event>, now: int) {
    forall i :: 0 <= i < |events| && events[i].Tick? ==> events[i].now <= now
  }

  predicate Owned(p: UserPackage, user: nat, zone: nat) {
    p.user == user && p.zone == zone && !p.voided
  }

  function OwnedLeft(user: nat, zone: nat): UserPackage -> int {
    (p: UserPackage) => if Owned(p, user, zone) then p.minutesLeft else 0
  }

  function LeftBeyond(user: nat, zone: nat, moment: Option<int>): UserPackage -> int {
    (p: UserPackage) => if Owned(p, user, zone) && Outlives(p, moment) then p.minutesLeft else 0
  }

  /** Minutes still in packages that outlive the moment. */
  function Beyond(rows: seq<UserPackage>, user: nat, zone: nat, moment: Option<int>): int {
    SumBy(LeftBeyond(user, zone, moment), rows)
  }

  function AllOwned(rows: seq<UserPackage>, user: nat, zone: nat): int {
    SumBy(OwnedLeft(user, zone), rows)
  }

  /** Minutes that have expired unspent by `now`. */
  function Forfeited(rows: seq<UserPackage>, user: nat, zone: nat, now: int): int {
    AllOwned(rows, user, zone) - Beyond(rows, user, zone, Some(now))
  }

  predicate NotBefore(moment: Option<int>, now: int) {
    moment.None? || now <= moment.value
  }

  // What a tick takes from the packages that do not outlive a moment.

  /** Minutes in the listed packages that do not outlive the moment. */
  function WithinLeft(rows: seq<UserPackage>, order: seq<nat>, moment: Option<int>): nat
    requires IdsIn(rows, order)
  {
    if order == [] then 0
    else (if Outlives(rows[order[0]], moment) then 0 else rows[order[0]].minutesLeft)
         + WithinLeft(rows, order[1..], moment)
  }

  lemma {:induction false} WithinLeftFrame(rows: seq<UserPackage>, rows': seq<UserPackage>, order: seq<nat>, moment: Option<int>)
    requires |rows| == |rows'| && IdsIn(rows, order)
    requires forall i :: 0 <= i < |order| ==> rows[order[i]] == rows'[order[i]]
    ensures WithinLeft(rows, order, moment) == WithinLeft(rows', order, moment)
  {
    if order != [] {
      WithinLeftFrame(rows, rows', order[1..], moment);
    }
  }

  lemma {:induction false} WithinLeftNone(rows: seq<UserPackage>, order: seq<nat>, moment: Option<int>)
    requires IdsIn(rows, order)
    requires forall i :: 0 <= i < |order| ==> Outlives(rows[order[i]], moment)
    ensures WithinLeft(rows, order, moment) == 0
  {
    if order != [] {
      WithinLeftNone(rows, order[1..], moment);
    }
  }

  /** A package later in the order outlives whatever an earlier one outlives. */
  lemma LaterOutlives(rows: seq<UserPackage>, order: seq<nat>, moment: Option<int>)
    requires IdsIn(rows, order) && InSpendingOrder(rows, order) && order != []
    requires Outlives(rows[order[0]], moment)
    ensures WithinLeft(rows, order[1..], moment) == 0
  {
    forall i | 0 <= i < |order[1..]| ensures Outlives(rows[order[1..][i]], moment) {
      assert Precedes(rows[order[0]], rows[order[i + 1]]);
    }
    WithinLeftNone(rows, order[1..], moment);
  }

  lemma WithdrawWithin(rows: seq<UserPackage>, id: nat, take: nat, user: nat, zone: nat, moment: Option<int>)
    requires id < |rows| && take <= rows[id].minutesLeft && Owned(rows[id], user, zone)
    ensures var next := Withdraw(rows, id, take);
      && AllOwned(next, user, zone) == AllOwned(rows, user, zone) - take
      && Beyond(next, user, zone, moment)
         == Beyond(rows, user, zone, moment) - if Outlives(rows[id], moment) then take else 0
  {
    var next := Withdraw(rows, id, take);
    SumByUpdate(LeftBeyond(user, zone, moment), rows, id, next[id]);
    SumByUpdate(OwnedLeft(user, zone), rows, id, next[id]);
  }

  lemma WithdrawKeepsOrder(rows: seq<UserPackage>, order: seq<nat>, id: nat, take: nat)
    requires IdsIn(rows, order) && InSpendingOrder(rows, order)
    requires id < |rows| && take <= rows[id].minutesLeft
    ensures InSpendingOrder(Withdraw(rows, id, take), order)
  {
    var next := Withdraw(rows, id, take);
    forall i, j | 0 <= i < j < |order| ensures Precedes(next[order[i]], next[order[j]]) {
      assert Precedes(rows[order[i]], rows[order[j]]);
    }
  }

  /** Drawing in spending order takes as much as it can from the packages that do
      not outlive the moment before it touches any other. */
  lemma {:induction false} DrainWithin(rows: seq<UserPackage>, order: seq<nat>, need: nat,
                                       user: nat, zone: nat, moment: Option<int>)
    requires IdsIn(rows, order) && Distinct(order) && InSpendingOrder(rows, order)
    requires forall i :: 0 <= i < |order| ==> Owned(rows[order[i]], user, zone)
    ensures var (rows', used) := Drain(rows, order, need);
      && used + Beyond(rows', user, zone, moment) - Beyond(rows, user, zone, moment)
         == Min(need, WithinLeft(rows, order, moment))
      && used + AllOwned(rows', user, zone) == AllOwned(rows, user, zone)
    decreases |order|
  {
    hide Outlives, Beyond, AllOwned, InSpendingOrder;
    if order != [] {
      var head, rest := order[0], order[1..];
      var take := Min(rows[head].minutesLeft, need);
      var next := Withdraw(rows, head, take);
      WithdrawWithin(rows, head, take, user, zone, moment);
      RestInOrder(rows, order);
      WithdrawKeepsOrder(rows, rest, head, take);
      DrainWithin(next, rest, need - take, user, zone, moment);
      WithinLeftFrame(rows, next, rest, moment);
      if Outlives(rows[head], moment) {
        LaterOutlives(rows, order, moment);
      }
    }
  }

  lemma RestInOrder(rows: seq<UserPackage>, order: seq<nat>)
    requires IdsIn(rows, order) && InSpendingOrder(rows, order) && order != []
    ensures InSpendingOrder(rows, order[1..])
  {
    forall i, j | 0 <= i < j < |order[1..]| ensures Precedes(rows[order[1..][i]], rows[order[1..][j]]) {
      assert Precedes(rows[order[i + 1]], rows[order[j + 1]]);
    }
  }

  lemma {:induction false} WithinLeftInsert(rows: seq<UserPackage>, order: seq<nat>, id: nat, moment: Option<int>)
    requires IdsIn(rows, order) && id < |rows|
    ensures WithinLeft(rows, Insert(rows, order, id), moment)
         == WithinLeft(rows, order, moment) + if Outlives(rows[id], moment) then 0 else rows[id].minutesLeft
  {
    if order != [] && Precedes(rows[order[0]], rows[id]) {
      WithinLeftInsert(rows, order[1..], id, moment);
      assert Insert(rows, order, id)[1..] == Insert(rows, order[1..], id);
    } else {
      assert Insert(rows, order, id)[1..] == order;
    }
  }

  lemma {:induction false} OrderHoldsAllWithin(rows: seq<UserPackage>, user: nat, zone: nat, now: int, n: nat, moment: Option<int>)
    requires n <= |rows| && NotBefore(moment, now)
    ensures WithinLeft(rows, SpendingOrder(rows, user, zone, now, n), moment)
         == Beyond(rows[..n], user, zone, Some(now)) - Beyond(rows[..n], user, zone, moment)
  {
    if n > 0 {
      OrderHoldsAllWithin(rows, user, zone, now, n - 1, moment);
      assert rows[..n][..n - 1] == rows[..n - 1];
      WithinLeftInsert(rows, SpendingOrder(rows, user, zone, now, n - 1), n - 1, moment);
    }
  }

  /** The club's tick, seen from any moment not before now. */
  lemma SoonestTick(t: Tally, user: nat, zone: nat, now: int, need: nat, moment: Option<int>)
    requires NotBefore(moment, now)
    ensures var t' := SpendSoonest(t, user, zone, Tick(now, need));
      var here, later := Beyond(t.rows, user, zone, Some(now)), Beyond(t.rows, user, zone, moment);
      && t'.covered + Beyond(t'.rows, user, zone, moment) == t.covered + later + Min(need, here - later)
      && t'.covered + AllOwned(t'.rows, user, zone) == t.covered + AllOwned(t.rows, user, zone)
  {
    var order := SpendingOrder(t.rows, user, zone, now, |t.rows|);
    SpendingOrderIsComplete(t.rows, user, zone, now);
    FreshTakeIsDrain(t.rows, t.rows, order, need);
    forall i | 0 <= i < |order| ensures Owned(t.rows[order[i]], user, zone) {
      assert order[i] in order;
    }
    DrainWithin(t.rows, order, need, user, zone, moment);
    OrderHoldsAllWithin(t.rows, user, zone, now, |t.rows|, moment);
    assert t.rows[..|t.rows|] == t.rows;
  }

  /** Any lawful tick, seen from any moment not before now. */
  lemma {:induction false} AnyTick(rows: seq<UserPackage>, draws: seq<nat>, user: nat, zone: nat, now: int, moment: Option<int>)
    requires NotBefore(moment, now) && |draws| == |rows|
    requires forall i :: 0 <= i < |rows| ==> draws[i] <= rows[i].minutesLeft
    requires forall i :: 0 <= i < |rows| && draws[i] > 0 ==> Eligible(rows[i], user, zone, now)
    ensures var rows' := WithdrawEach(rows, draws);
      var within := SumDraws(draws) + Beyond(rows', user, zone, moment) - Beyond(rows, user, zone, moment);
      && within <= SumDraws(draws)
      && within <= Beyond(rows, user, zone, Some(now)) - Beyond(rows, user, zone, moment)
      && SumDraws(draws) + AllOwned(rows', user, zone) == AllOwned(rows, user, zone)
  {
    if rows != [] {
      var n := |rows| - 1;
      AnyTick(rows[..n], draws[..n], user, zone, now, moment);
      assert WithdrawEach(rows, draws)[..n] == WithdrawEach(rows[..n], draws[..n]);
    }
  }

  /** The club's tally is ahead of the rival's from every moment on. */
  ghost predicate Ahead(soonest: Tally, rival: Tally, user: nat, zone: nat, now: int) {
    && soonest.covered + AllOwned(soonest.rows, user, zone) == rival.covered + AllOwned(rival.rows, user, zone)
    && forall moment :: NotBefore(moment, now) ==>
         soonest.covered + Beyond(soonest.rows, user, zone, moment)
           >= rival.covered + Beyond(rival.rows, user, zone, moment)
  }

  lemma PurchaseStaysAhead(soonest: Tally, rival: Tally, user: nat, zone: nat, now: int, pack: UserPackage)
    requires Ahead(soonest, rival, user, zone, now)
    ensures Ahead(soonest.(rows := soonest.rows + [pack]), rival.(rows := rival.rows + [pack]), user, zone, now)
  {
    SumByAppend(OwnedLeft(user, zone), soonest.rows, pack);
    SumByAppend(OwnedLeft(user, zone), rival.rows, pack);
    forall moment | NotBefore(moment, now)
      ensures soonest.covered + Beyond(soonest.rows + [pack], user, zone, moment)
           >= rival.covered + Beyond(rival.rows + [pack], user, zone, moment)
    {
      SumByAppend(LeftBeyond(user, zone, moment), soonest.rows, pack);
      SumByAppend(LeftBeyond(user, zone, moment), rival.rows, pack);
    }
  }

  lemma TickStaysAhead(soonest: Tally, rival: Tally, user: nat, zone: nat, now: int, need: nat, draws: seq<nat>)
    requires Ahead(soonest, rival, user, zone, now)
    requires Lawful(rival.rows, user, zone, Tick(now, need), draws)
    ensures Ahead(SpendSoonest(soonest, user, zone, Tick(now, need)), DrawFreely(rival, Tick(now, need), draws),
                  user, zone, now)
  {
    var soonest', rival' := SpendSoonest(soonest, user, zone, Tick(now, need)), DrawFreely(rival, Tick(now, need), draws);
    forall moment | NotBefore(moment, now)
      ensures soonest'.covered + Beyond(soonest'.rows, user, zone, moment)
           >= rival'.covered + Beyond(rival'.rows, user, zone, moment)
      ensures soonest'.covered + AllOwned(soonest'.rows, user, zone)
           == rival'.covered + AllOwned(rival'.rows, user, zone)
    {
      SoonestTick(soonest, user, zone, now, need, moment);
      AnyTick(rival.rows, draws, user, zone, now, moment);
      assert NotBefore(Some(now), now);
    }
    assert NotBefore(Some(now), now);
  }

  lemma {:induction false} RunStaysAhead(start: seq<UserPackage>, user: nat, zone: nat, events: seq<Event>,
                                         plan: seq<seq<nat>>, rival: Tally, now: int)
    requires ClockMonotone(events) && NoTickAfter(events, now)
    requires |plan| == |events| && LawfulRun(start, user, zone, events, plan, rival)
    ensures Ahead(SpendSoonestRun(start, user, zone, events), rival, user, zone, now)
    decreases |events|
  {
    if events != [] {
      var n := |events| - 1;
      var e, draws := events[n], plan[n];
      var before: Tally :|
        && LawfulRun(start, user, zone, events[..n], plan[..n], before)
        && Lawful(before.rows, user, zone, e, draws)
        && rival == DrawFreely(before, e, draws);
      var soonest := SpendSoonestRun(start, user, zone, events[..n]);
      match e {
        case Bought(pack) =>
          RunStaysAhead(start, user, zone, events[..n], plan[..n], before, now);
          PurchaseStaysAhead(soonest, before, user, zone, now, pack);
        case Tick(at, need) =>
          RunStaysAhead(start, user, zone, events[..n], plan[..n], before, at);
          TickStaysAhead(soonest, before, user, zone, at, need, draws);
          assert forall moment :: NotBefore(moment, now) ==> NotBefore(moment, at);
      }
    }
  }

  lemma {:induction false} NothingOutlivesTheEnd(rows: seq<UserPackage>, user: nat, zone: nat)
    ensures Beyond(rows, user, zone, None) == 0
  {
    if rows != [] {
      NothingOutlivesTheEnd(rows[..|rows| - 1], user, zone);
    }
  }

  /** Over every run of purchases and ticks, spending the soonest to expire first
      covers at least as many minutes as any lawful way of drawing. */
  lemma CoversMost(start: seq<UserPackage>, user: nat, zone: nat, events: seq<Event>,
                   plan: seq<seq<nat>>, rival: Tally, now: int)
    requires ClockMonotone(events) && NoTickAfter(events, now)
    requires |plan| == |events| && LawfulRun(start, user, zone, events, plan, rival)
    ensures SpendSoonestRun(start, user, zone, events).covered >= rival.covered
  {
    RunStaysAhead(start, user, zone, events, plan, rival, now);
    var soonest := SpendSoonestRun(start, user, zone, events);
    NothingOutlivesTheEnd(soonest.rows, user, zone);
    NothingOutlivesTheEnd(rival.rows, user, zone);
    assert NotBefore(None, now);
  }

  /** And at any moment after the run it has let no more minutes expire unspent. */
  lemma ForfeitsLeast(start: seq<UserPackage>, user: nat, zone: nat, events: seq<Event>,
                      plan: seq<seq<nat>>, rival: Tally, now: int)
    requires ClockMonotone(events) && NoTickAfter(events, now)
    requires |plan| == |events| && LawfulRun(start, user, zone, events, plan, rival)
    ensures Forfeited(SpendSoonestRun(start, user, zone, events).rows, user, zone, now)
         <= Forfeited(rival.rows, user, zone, now)
  {
    RunStaysAhead(start, user, zone, events, plan, rival, now);
    assert NotBefore(Some(now), now);
  }
}
