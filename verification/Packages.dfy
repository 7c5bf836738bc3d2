/** Bought packages of minutes: which are live, in which order they are spent, and
    how a tick draws minutes from them. A row's index in the table is its id. */
module Packages {
  import opened Basics

  datatype UserPackage = UserPackage(
    user: nat, zone: nat,
    minutesTotal: nat, minutesLeft: nat,
    price: nat, fromWallet: bool,
    expiresAt: Option<int>, createdAt: int,
    voided: bool)

  const SECONDS_PER_DAY := 86400

  /** When minutes issued now expire; none for a package without a term. */
  function PackageExpiry(days: int, now: int): Option<int> {
    if days <= 0 then None else Some(now + days * SECONDS_PER_DAY)
  }

  /** True when the package still has time to run after `moment`; no package
      outlives the end of time, `None`. */
  predicate Outlives(p: UserPackage, moment: Option<int>) {
    moment.Some? && (p.expiresAt.None? || moment.value < p.expiresAt.value)
  }

  predicate PackageLive(p: UserPackage, now: int) {
    if p.voided || p.minutesLeft <= 0 then false else p.expiresAt.None? || now < p.expiresAt.value
  }

  /** Spending order: what expires sooner first, packages without a term last,
      older purchases before newer ones. */
  predicate Precedes(a: UserPackage, b: UserPackage) {
    match (a.expiresAt, b.expiresAt)
    case (Some(x), Some(y)) => x < y || (x == y && a.createdAt <= b.createdAt)
    case (Some(_), None) => true
    case (None, Some(_)) => false
    case (None, None) => a.createdAt <= b.createdAt
  }

  /** A row of this guest and zone that is neither voided nor expired. */
  predicate Eligible(p: UserPackage, user: nat, zone: nat, now: int) {
    p.user == user && p.zone == zone && !p.voided && Outlives(p, Some(now))
  }

  predicate IdsIn(rows: seq<UserPackage>, order: seq<nat>) {
    forall i :: 0 <= i < |order| ==> order[i] < |rows|
  }

  predicate Distinct(order: seq<nat>) {
    forall i, j :: 0 <= i < j < |order| ==> order[i] != order[j]
  }

  ghost predicate InSpendingOrder(rows: seq<UserPackage>, order: seq<nat>)
    requires IdsIn(rows, order)
  {
    forall i, j :: 0 <= i < j < |order| ==> Precedes(rows[order[i]], rows[order[j]])
  }

  function Insert(rows: seq<UserPackage>, order: seq<nat>, id: nat): (r: seq<nat>)
    requires IdsIn(rows, order) && id < |rows|
    ensures IdsIn(rows, r)
    ensures multiset(r) == multiset(order) + multiset{id}
  {
    if order == [] then [id]
    else
      assert order == [order[0]] + order[1..];
      if Precedes(rows[order[0]], rows[id]) then [order[0]] + Insert(rows, order[1..], id)
      else [id] + order
  }

  /** The eligible rows among the first `n`, in spending order. */
  function SpendingOrder(rows: seq<UserPackage>, user: nat, zone: nat, now: int, n: nat): (order: seq<nat>)
    requires n <= |rows|
    ensures IdsIn(rows, order)
  {
    if n == 0 then []
    else
      var earlier := SpendingOrder(rows, user, zone, now, n - 1);
      if Eligible(rows[n - 1], user, zone, now) then Insert(rows, earlier, n - 1) else earlier
  }

  lemma InsertKeepsOrder(rows: seq<UserPackage>, order: seq<nat>, id: nat)
    requires IdsIn(rows, order) && id < |rows| && InSpendingOrder(rows, order)
    ensures InSpendingOrder(rows, Insert(rows, order, id))
  {
    if order != [] && Precedes(rows[order[0]], rows[id]) {
      InsertKeepsOrder(rows, order[1..], id);
      var rest := Insert(rows, order[1..], id);
      forall k | 0 <= k < |rest| ensures Precedes(rows[order[0]], rows[rest[k]]) {
        assert rest[k] in multiset(rest);
        assert rest[k] in multiset(order[1..]) || rest[k] == id;
      }
    }
  }

  lemma DistinctByCount(order: seq<nat>)
    requires forall id :: multiset(order)[id] <= 1
    ensures Distinct(order)
  {
    forall i, j | 0 <= i < j < |order| ensures order[i] != order[j] {
      var head, tail := order[..j], order[j..];
      assert order == head + tail;
      assert head[i] in multiset(head) && tail[0] in multiset(tail);
      assert multiset(order)[order[i]] == multiset(head)[order[i]] + multiset(tail)[order[i]];
    }
  }

  lemma {:induction false} SpendingOrderCounts(rows: seq<UserPackage>, user: nat, zone: nat, now: int, n: nat, id: nat)
    requires n <= |rows|
    ensures var expected := if id < n && Eligible(rows[id], user, zone, now) then 1 else 0;
      multiset(SpendingOrder(rows, user, zone, now, n))[id] == expected
  {
    if n > 0 {
      SpendingOrderCounts(rows, user, zone, now, n - 1, id);
    }
  }

  lemma EmptyInOrder(rows: seq<UserPackage>)
    ensures InSpendingOrder(rows, [])
  {
  }

  lemma {:induction false} SpendingOrderSorted(rows: seq<UserPackage>, user: nat, zone: nat, now: int, n: nat)
    requires n <= |rows|
    ensures InSpendingOrder(rows, SpendingOrder(rows, user, zone, now, n))
  {
    hide Insert, InSpendingOrder;
    if n == 0 {
      EmptyInOrder(rows);
    } else {
      SpendingOrderSorted(rows, user, zone, now, n - 1);
      if Eligible(rows[n - 1], user, zone, now) {
        InsertKeepsOrder(rows, SpendingOrder(rows, user, zone, now, n - 1), n - 1);
      }
    }
  }

  /** The order holds every eligible row exactly once, soonest to expire first. */
  lemma SpendingOrderIsComplete(rows: seq<UserPackage>, user: nat, zone: nat, now: int)
    ensures var order := SpendingOrder(rows, user, zone, now, |rows|);
      && Distinct(order)
      && InSpendingOrder(rows, order)
      && forall id: nat :: id in order <==> id < |rows| && Eligible(rows[id], user, zone, now)
  {
    var order := SpendingOrder(rows, user, zone, now, |rows|);
    SpendingOrderSorted(rows, user, zone, now, |rows|);
    var count: multiset<nat> := multiset(order);
    forall id: nat
      ensures count[id] <= 1
      ensures id in order <==> id < |rows| && Eligible(rows[id], user, zone, now)
    {
      SpendingOrderCounts(rows, user, zone, now, |rows|, id);
      assert id in order <==> id in count;
    }
    DistinctByCount(order);
  }

  /** What strictly comes first stands first. */
  lemma StandsFirst(rows: seq<UserPackage>, order: seq<nat>, at: nat, bt: nat)
    requires IdsIn(rows, order) && InSpendingOrder(rows, order) && at < |order| && bt < |order|
    ensures var p, q := rows[order[at]], rows[order[bt]];
      var sooner := p.expiresAt.Some? && (q.expiresAt.None? || p.expiresAt.value < q.expiresAt.value);
      var older := p.expiresAt == q.expiresAt && p.createdAt < q.createdAt;
      sooner || older ==> at < bt
  {
    if bt < at {
      assert Precedes(rows[order[bt]], rows[order[at]]);
    }
  }

  function NonEmpty(rows: seq<UserPackage>, order: seq<nat>): (r: seq<nat>)
    requires IdsIn(rows, order)
    ensures IdsIn(rows, r)
    ensures forall id :: id in r <==> id in order && rows[id].minutesLeft > 0
  {
    if order == [] then []
    else if rows[order[0]].minutesLeft > 0 then [order[0]] + NonEmpty(rows, order[1..])
    else NonEmpty(rows, order[1..])
  }

  /** The live packages of a guest in a zone, in spending order. */
  function LivePackagesFor(rows: seq<UserPackage>, user: nat, zone: Option<nat>, now: int): (r: seq<nat>)
    ensures IdsIn(rows, r)
  {
    if zone.None? then [] else NonEmpty(rows, SpendingOrder(rows, user, zone.value, now, |rows|))
  }

  /** The list holds exactly the live packages of the guest in that zone. */
  lemma LivePackagesAreLive(rows: seq<UserPackage>, user: nat, zone: nat, now: int, id: nat)
    ensures id in LivePackagesFor(rows, user, Some(zone), now)
       <==> id < |rows| && rows[id].user == user && rows[id].zone == zone && PackageLive(rows[id], now)
  {
    SpendingOrderIsComplete(rows, user, zone, now);
  }

  lemma {:induction false} NonEmptyKeepsOrder(rows: seq<UserPackage>, order: seq<nat>)
    requires IdsIn(rows, order) && InSpendingOrder(rows, order)
    ensures InSpendingOrder(rows, NonEmpty(rows, order))
  {
    if order != [] {
      forall i, j | 0 <= i < j < |order[1..]| ensures Precedes(rows[order[1..][i]], rows[order[1..][j]]) {
        assert Precedes(rows[order[i + 1]], rows[order[j + 1]]);
      }
      NonEmptyKeepsOrder(rows, order[1..]);
      var rest := NonEmpty(rows, order[1..]);
      forall k | 0 <= k < |rest| ensures Precedes(rows[order[0]], rows[rest[k]]) {
        assert rest[k] in rest;
        var at :| 0 <= at < |order[1..]| && order[1..][at] == rest[k];
        assert Precedes(rows[order[0]], rows[order[at + 1]]);
      }
    }
  }

  /** In the listing a package comes before another only if it has a term and the other
      has none or a later one, or if their terms are equal and it was not bought later. */
  lemma ListingIsInOrder(rows: seq<UserPackage>, user: nat, zone: nat, now: int, i: nat, j: nat)
    requires i < j < |LivePackagesFor(rows, user, Some(zone), now)|
    ensures var list := LivePackagesFor(rows, user, Some(zone), now);
      var a, b := rows[list[i]], rows[list[j]];
      || (a.expiresAt.Some? && (b.expiresAt.None? || a.expiresAt.value < b.expiresAt.value))
      || (a.expiresAt == b.expiresAt && a.createdAt <= b.createdAt)
  {
    var order := SpendingOrder(rows, user, zone, now, |rows|);
    SpendingOrderIsComplete(rows, user, zone, now);
    NonEmptyKeepsOrder(rows, order);
    var list := NonEmpty(rows, order);
    assert Precedes(rows[list[i]], rows[list[j]]);
  }

  /** A package as the query listed it: its remainder may since have changed. */
  datatype Listed = Listed(id: nat, minutesLeft: nat)

  function Listing(rows: seq<UserPackage>, order: seq<nat>): seq<Listed>
    requires IdsIn(rows, order)
  {
    if order == [] then []
    else [Listed(order[0], rows[order[0]].minutesLeft)] + Listing(rows, order[1..])
  }

  /** Draw `need` minutes from the listed packages; a package whose remainder was
      taken meanwhile is passed over. Returns the rows and the minutes drawn. */
  function Take(rows: seq<UserPackage>, packs: seq<Listed>, need: nat): (r: (seq<UserPackage>, nat))
    ensures r.1 <= need
    decreases |packs|
  {
    if packs == [] || need == 0 then (rows, 0)
    else
      var p := packs[0];
      var take := Min(p.minutesLeft, need);
      if p.id < |rows| && rows[p.id].minutesLeft >= take then
        var (rest, used) := Take(Withdraw(rows, p.id, take), packs[1..], need - take);
        (rest, take + used)
      else
        Take(rows, packs[1..], need)
  }

  /** One listed package: drawn from as far as the listing says, or passed over if the
      table holds less by now. */
  lemma TakeFromOne(rows: seq<UserPackage>, p: Listed, need: nat)
    ensures var take := if p.minutesLeft <= need then p.minutesLeft else need;
      Take(rows, [p], need) ==
        if p.id < |rows| && take <= rows[p.id].minutesLeft
        then (rows[p.id := rows[p.id].(minutesLeft := rows[p.id].minutesLeft - take)], take)
        else (rows, 0)
  {
    var rest: seq<Listed> := [p][1..];
    assert rest == [];
    if p.id < |rows| {
      assert rows[p.id := rows[p.id].(minutesLeft := rows[p.id].minutesLeft - 0)] == rows;
    }
  }

  lemma TakeStep(rows: seq<UserPackage>, packs: seq<Listed>, need: nat)
    requires packs != []
    ensures var one := Take(rows, [packs[0]], need);
      var rest := Take(one.0, packs[1..], need - one.1);
      Take(rows, packs, need) == (rest.0, one.1 + rest.1)
  {
    TakeFromOne(rows, packs[0], need);
    if need == 0 {
      TakeNothing(Take(rows, [packs[0]], need).0, packs[1..]);
    }
  }

  /** A listing is worked through from its front. */
  lemma {:induction false} TakeInParts(rows: seq<UserPackage>, first: seq<Listed>, rest: seq<Listed>, need: nat)
    ensures var (mid, used1) := Take(rows, first, need);
      var (end, used2) := Take(mid, rest, need - used1);
      Take(rows, first + rest, need) == (end, used1 + used2)
    decreases |first|
  {
    hide Take;
    TakeFromNone(rows, need);
    if first == [] {
      assert first + rest == rest;
    } else {
      var one := Take(rows, [first[0]], need);
      assert (first + rest)[1..] == first[1..] + rest && (first + rest)[0] == first[0];
      TakeStep(rows, first, need);
      TakeStep(rows, first + rest, need);
      TakeInParts(one.0, first[1..], rest, need - one.1);
    }
  }

  lemma TakeFromNone(rows: seq<UserPackage>, need: nat)
    ensures Take(rows, [], need) == (rows, 0)
  {
  }

  function Withdraw(rows: seq<UserPackage>, id: nat, take: nat): seq<UserPackage>
    requires id < |rows| && take <= rows[id].minutesLeft
  {
    rows[id := rows[id].(minutesLeft := rows[id].minutesLeft - take)]
  }

  /** The package rows as the database holds them. */
  class PackageTable {
    var rows: seq<UserPackage>

    constructor ()
      ensures rows == []
    {
      rows := [];
    }

    /** Draw minutes from the listed packages, one conditional update each. */
    method TakePackageMinutes(packs: seq<Listed>, wanted: nat) returns (used: nat)
      modifies this
      ensures (rows, used) == Take(old(rows), packs, wanted)
    {
      used := 0;
      var need := wanted;
      var i := 0;
      assert packs[0..] == packs;
      while i < |packs|
        invariant i <= |packs|
        invariant used + need == wanted
        invariant var (rest, more) := Take(rows, packs[i..], need);
          Take(old(rows), packs, wanted) == (rest, used + more)
      {
        assert packs[i..][1..] == packs[i + 1..];
        if need <= 0 {
          break;
        }
        var take := packs[i].minutesLeft;
        if take > need {
          take := need;
        }
        if packs[i].id < |rows| && rows[packs[i].id].minutesLeft >= take {
          rows := Withdraw(rows, packs[i].id, take);
          used := used + take;
          need := need - take;
        }
        i := i + 1;
      }
    }
  }

  function LeftOf(p: UserPackage): int {
    p.minutesLeft
  }

  /** The two tables are the same purchases; only remainders may differ. */
  ghost predicate SamePurchases(rows: seq<UserPackage>, rows': seq<UserPackage>) {
    && |rows| == |rows'|
    && forall i :: 0 <= i < |rows| ==> rows'[i] == rows[i].(minutesLeft := rows'[i].minutesLeft)
  }

  ghost predicate NoneGrew(rows: seq<UserPackage>, rows': seq<UserPackage>)
    requires |rows| == |rows'|
  {
    forall i :: 0 <= i < |rows| ==> rows'[i].minutesLeft <= rows[i].minutesLeft
  }

  lemma SamePurchasesSelf(rows: seq<UserPackage>)
    ensures SamePurchases(rows, rows) && NoneGrew(rows, rows)
  {
  }

  /** However stale the listing, drawing takes minutes only out of remainders, no
      remainder grows or goes below zero, and the minutes drawn are what the table lost. */
  lemma {:induction false} TakeConserves(rows: seq<UserPackage>, packs: seq<Listed>, need: nat)
    ensures var (rows', used) := Take(rows, packs, need);
      && SamePurchases(rows, rows')
      && NoneGrew(rows, rows')
      && SumBy(LeftOf, rows') == SumBy(LeftOf, rows) - used
    decreases |packs|
  {
    hide SamePurchases, NoneGrew, Withdraw;
    SamePurchasesSelf(rows);
    if packs != [] && need > 0 {
      var p := packs[0];
      var take := Min(p.minutesLeft, need);
      if p.id < |rows| && rows[p.id].minutesLeft >= take {
        var next := Withdraw(rows, p.id, take);
        WithdrawConserves(rows, p.id, take);
        TakeConserves(next, packs[1..], need - take);
        SamePurchasesTwice(rows, next, Take(rows, packs, need).0);
      } else {
        TakeConserves(rows, packs[1..], need);
      }
    }
  }

  lemma WithdrawConserves(rows: seq<UserPackage>, id: nat, take: nat)
    requires id < |rows| && take <= rows[id].minutesLeft
    ensures var next := Withdraw(rows, id, take);
      && SamePurchases(rows, next) && NoneGrew(rows, next)
      && SumBy(LeftOf, next) == SumBy(LeftOf, rows) - take
  {
    SumByUpdate(LeftOf, rows, id, Withdraw(rows, id, take)[id]);
  }

  lemma SamePurchasesTwice(a: seq<UserPackage>, b: seq<UserPackage>, c: seq<UserPackage>)
    requires SamePurchases(a, b) && SamePurchases(b, c) && NoneGrew(a, b) && NoneGrew(b, c)
    ensures SamePurchases(a, c) && NoneGrew(a, c)
  {
    forall i | 0 <= i < |a|
      ensures c[i] == a[i].(minutesLeft := c[i].minutesLeft) && c[i].minutesLeft <= a[i].minutesLeft
    {
      assert b[i] == a[i].(minutesLeft := b[i].minutesLeft);
    }
  }

  /** Drawing straight from the table in a given order. */
  function Drain(rows: seq<UserPackage>, order: seq<nat>, need: nat): (r: (seq<UserPackage>, nat))
    requires IdsIn(rows, order)
    ensures |r.0| == |rows|
    ensures r.1 <= need
    decreases |order|
  {
    if order == [] then (rows, 0)
    else
      var take := Min(rows[order[0]].minutesLeft, need);
      var (rest, used) := Drain(Withdraw(rows, order[0], take), order[1..], need - take);
      (rest, take + used)
  }

  function SumLeft(rows: seq<UserPackage>, order: seq<nat>): nat
    requires IdsIn(rows, order)
  {
    if order == [] then 0 else rows[order[0]].minutesLeft + SumLeft(rows, order[1..])
  }

  /** The minutes of a row, if it may be drawn from. */
  function LiveLeft(user: nat, zone: nat, now: int): UserPackage -> int {
    (p: UserPackage) => if Eligible(p, user, zone, now) then p.minutesLeft else 0
  }

  lemma {:induction false} InsertAddsLeft(rows: seq<UserPackage>, order: seq<nat>, id: nat)
    requires IdsIn(rows, order) && id < |rows|
    ensures SumLeft(rows, Insert(rows, order, id)) == SumLeft(rows, order) + rows[id].minutesLeft
  {
    if order != [] && Precedes(rows[order[0]], rows[id]) {
      InsertAddsLeft(rows, order[1..], id);
      assert Insert(rows, order, id)[1..] == Insert(rows, order[1..], id);
    } else {
      assert Insert(rows, order, id)[1..] == order;
    }
  }

  /** The total of live minutes shown to the guest is what drawing in order can reach. */
  lemma {:induction false} LivePackMinutes(rows: seq<UserPackage>, user: nat, zone: nat, now: int, n: nat)
    requires n <= |rows|
    ensures SumLeft(rows, SpendingOrder(rows, user, zone, now, n)) == SumBy(LiveLeft(user, zone, now), rows[..n])
  {
    hide Insert, Eligible;
    if n > 0 {
      LivePackMinutes(rows, user, zone, now, n - 1);
      assert rows[..n][..n - 1] == rows[..n - 1];
      if Eligible(rows[n - 1], user, zone, now) {
        InsertAddsLeft(rows, SpendingOrder(rows, user, zone, now, n - 1), n - 1);
      }
    }
  }

  lemma DrainStep(rows: seq<UserPackage>, order: seq<nat>, need: nat)
    requires IdsIn(rows, order) && order != []
    ensures var take := Min(rows[order[0]].minutesLeft, need);
      var rest := Drain(Withdraw(rows, order[0], take), order[1..], need - take);
      Drain(rows, order, need) == (rest.0, take + rest.1)
  {
  }

  lemma {:induction false} DrainNothing(rows: seq<UserPackage>, order: seq<nat>)
    requires IdsIn(rows, order)
    ensures Drain(rows, order, 0) == (rows, 0)
  {
    if order != [] {
      assert Withdraw(rows, order[0], 0) == rows;
      DrainNothing(rows, order[1..]);
    }
  }

  lemma ListingHead(rows: seq<UserPackage>, order: seq<nat>)
    requires IdsIn(rows, order) && order != [] && rows[order[0]].minutesLeft > 0
    ensures Listing(rows, NonEmpty(rows, order))
         == [Listed(order[0], rows[order[0]].minutesLeft)] + Listing(rows, NonEmpty(rows, order[1..]))
  {
    assert NonEmpty(rows, order)[1..] == NonEmpty(rows, order[1..]);
  }

  lemma TakeNothing(rows: seq<UserPackage>, packs: seq<Listed>)
    ensures Take(rows, packs, 0) == (rows, 0)
  {
  }

  lemma TakeFresh(rows: seq<UserPackage>, order: seq<nat>, packs: seq<Listed>, need: nat)
    requires IdsIn(rows, order) && order != [] && need > 0
    requires var take := Min(rows[order[0]].minutesLeft, need);
      var next := Withdraw(rows, order[0], take);
      Take(next, packs, need - take) == Drain(next, order[1..], need - take)
    ensures Take(rows, [Listed(order[0], rows[order[0]].minutesLeft)] + packs, need) == Drain(rows, order, need)
  {
    assert ([Listed(order[0], rows[order[0]].minutesLeft)] + packs)[1..] == packs;
  }

  ghost predicate AgreeOn(listed: seq<UserPackage>, rows: seq<UserPackage>, order: seq<nat>)
    requires |listed| == |rows| && IdsIn(rows, order)
  {
    forall i :: 0 <= i < |order| ==> rows[order[i]] == listed[order[i]]
  }

  lemma AgreeAfterHead(listed: seq<UserPackage>, rows: seq<UserPackage>, order: seq<nat>, take: nat)
    requires |listed| == |rows| && IdsIn(rows, order) && AgreeOn(listed, rows, order)
    requires Distinct(order) && order != [] && take <= rows[order[0]].minutesLeft
    ensures rows[order[0]] == listed[order[0]]
    ensures Distinct(order[1..]) && AgreeOn(listed, Withdraw(rows, order[0], take), order[1..])
  {
  }

  /** With a fresh listing of the non-empty rows, the conditional updates all
      succeed and draw exactly as from the table itself. */
  lemma {:induction false} FreshTakeIsDrain(listed: seq<UserPackage>, rows: seq<UserPackage>, order: seq<nat>, need: nat)
    requires |listed| == |rows| && IdsIn(rows, order) && AgreeOn(listed, rows, order) && Distinct(order)
    ensures Take(rows, Listing(listed, NonEmpty(listed, order)), need) == Drain(rows, order, need)
    decreases |order|
  {
    hide Take, Drain, NonEmpty, Listing, AgreeOn, Distinct;
    if need == 0 {
      DrainNothing(rows, order);
      TakeNothing(rows, Listing(listed, NonEmpty(listed, order)));
    } else if order == [] {
      NothingListed(listed, rows, need);
    } else {
      AgreeAfterHead(listed, rows, order, 0);
      var take := Min(rows[order[0]].minutesLeft, need);
      AgreeAfterHead(listed, rows, order, take);
      FreshTakeIsDrain(listed, Withdraw(rows, order[0], take), order[1..], need - take);
      if rows[order[0]].minutesLeft > 0 {
        ListingHead(listed, order);
        TakeFresh(rows, order, Listing(listed, NonEmpty(listed, order[1..])), need);
      } else {
        EmptyHeadDrains(listed, rows, order, need);
      }
    }
  }

  lemma NothingListed(listed: seq<UserPackage>, rows: seq<UserPackage>, need: nat)
    ensures Take(rows, Listing(listed, NonEmpty(listed, [])), need) == Drain(rows, [], need)
  {
  }

  lemma EmptyHeadDrains(listed: seq<UserPackage>, rows: seq<UserPackage>, order: seq<nat>, need: nat)
    requires IdsIn(listed, order) && |listed| == |rows| && order != []
    requires rows[order[0]] == listed[order[0]] && rows[order[0]].minutesLeft == 0
    requires Take(Withdraw(rows, order[0], 0), Listing(listed, NonEmpty(listed, order[1..])), need)
          == Drain(Withdraw(rows, order[0], 0), order[1..], need)
    ensures Take(rows, Listing(listed, NonEmpty(listed, order)), need) == Drain(rows, order, need)
  {
    assert Withdraw(rows, order[0], 0) == rows;
    hide Take, Withdraw, Listing;
    assert NonEmpty(listed, order) == NonEmpty(listed, order[1..]);
    DrainStep(rows, order, need);
  }

  /** Drawing touches only the listed rows and only their remainders, and draws
      everything that was asked unless the listed rows run out. */
  lemma {:induction false} DrainDraws(rows: seq<UserPackage>, order: seq<nat>, need: nat)
    requires IdsIn(rows, order) && Distinct(order)
    ensures var (rows', used) := Drain(rows, order, need);
      && SamePurchases(rows, rows')
      && (forall id :: 0 <= id < |rows| && id !in order ==> rows'[id] == rows[id])
      && used == Min(need, SumLeft(rows, order))
    decreases |order|
  {
    if order != [] {
      var take := Min(rows[order[0]].minutesLeft, need);
      var next := Withdraw(rows, order[0], take);
      SumLeftFrame(rows, next, order[1..]);
      DrainDraws(next, order[1..], need - take);
      assert order == [order[0]] + order[1..];
    }
  }

  lemma {:induction false} SumLeftFrame(rows: seq<UserPackage>, rows': seq<UserPackage>, order: seq<nat>)
    requires |rows| == |rows'| && IdsIn(rows, order)
    requires forall id :: id in order ==> rows[id] == rows'[id]
    ensures SumLeft(rows, order) == SumLeft(rows', order)
  {
    if order != [] {
      SumLeftFrame(rows, rows', order[1..]);
    }
  }

  lemma {:induction false} DrainCommutes(rows: seq<UserPackage>, order: seq<nat>, need: nat, id: nat, take: nat)
    requires IdsIn(rows, order) && id < |rows| && id !in order && take <= rows[id].minutesLeft
    ensures var (rows', used) := Drain(rows, order, need);
      && rows'[id] == rows[id]
      && Drain(Withdraw(rows, id, take), order, need) == (Withdraw(rows', id, take), used)
    decreases |order|
  {
    if order != [] {
      var t := Min(rows[order[0]].minutesLeft, need);
      var next := Withdraw(rows, order[0], t);
      assert Withdraw(next, id, take) == Withdraw(Withdraw(rows, id, take), order[0], t);
      DrainCommutes(next, order[1..], need - t, id, take);
    }
  }

  lemma WithdrawTwice(rows: seq<UserPackage>, id: nat, first: nat, second: nat)
    requires id < |rows| && first + second <= rows[id].minutesLeft
    ensures var next := Withdraw(rows, id, first);
      && |next| == |rows| && next[id].minutesLeft == rows[id].minutesLeft - first
      && Withdraw(next, id, second) == Withdraw(rows, id, first + second)
  {
  }

  /** Drawing `first` and then `second` minutes is drawing them together. */
  lemma {:induction false} DrainTwice(rows: seq<UserPackage>, order: seq<nat>, first: nat, second: nat)
    requires IdsIn(rows, order) && Distinct(order)
    ensures var (mid, used1) := Drain(rows, order, first);
      var (end, used2) := Drain(mid, order, second);
      Drain(rows, order, first + second) == (end, used1 + used2)
    decreases |order|
  {
    hide Withdraw, Drain;
    if order == [] {
      DrainOfEmpty(rows, first);
      DrainOfEmpty(rows, second);
      DrainOfEmpty(rows, first + second);
    } else {
      var id, rest := order[0], order[1..];
      var left := rows[id].minutesLeft;
      var take1, take2 := Min(left, first), Min(left - Min(left, first), second);
      WithdrawTwice(rows, id, take1, take2);
      var next := Withdraw(rows, id, take1);
      DrainStep(rows, order, first);
      DrainCommutes(next, rest, first - take1, id, take2);
      DrainStep(Drain(rows, order, first).0, order, second);
      DrainTwice(Withdraw(rows, id, take1 + take2), rest, first - take1, second - take2);
      DrainStep(rows, order, first + second);
    }
  }

  lemma DrainOfEmpty(rows: seq<UserPackage>, need: nat)
    ensures Drain(rows, [], need) == (rows, 0)
  {
  }

  /** Once a draw has come up short, drawing again yields nothing. */
  lemma DrainExhausted(rows: seq<UserPackage>, order: seq<nat>, first: nat, second: nat)
    requires IdsIn(rows, order) && Distinct(order)
    ensures var (mid, used) := Drain(rows, order, first);
      used < first ==> Drain(mid, order, second).1 == 0
  {
    DrainTwice(rows, order, first, second);
    DrainDraws(rows, order, first);
    DrainDraws(rows, order, first + second);
  }

  /** A package is drawn from only when all before it in the order are used up. */
  lemma {:induction false} DrainInOrder(rows: seq<UserPackage>, order: seq<nat>, need: nat, i: nat, j: nat)
    requires IdsIn(rows, order) && Distinct(order) && i < j < |order|
    ensures var left := Drain(rows, order, need).0;
      left[order[j]].minutesLeft < rows[order[j]].minutesLeft ==> left[order[i]].minutesLeft == 0
    decreases |order|
  {
    hide Drain;
    var take := Min(rows[order[0]].minutesLeft, need);
    var next := Withdraw(rows, order[0], take);
    DrainStep(rows, order, need);
    if i > 0 {
      DrainInOrder(next, order[1..], need - take, i - 1, j - 1);
    } else {
      DrainDraws(next, order[1..], need - take);
      DrainNothing(next, order[1..]);
    }
  }

  /** Share of the price returned when a package is voided: unplayed minutes only,
      rounded down to a grosz. */
  function RefundForVoid(price: int, total: int, left: int): (refund: int)
    ensures 0 <= refund <= Max(price, 0)
    ensures price > 0 && 0 < left <= total ==> refund * total <= price * left < (refund + 1) * total
    ensures left <= 0 ==> refund == 0
    ensures price >= 0 && total > 0 && left >= total ==> refund == price
  {
    if total <= 0 || left <= 0 || price <= 0 then 0
    else
      var share := Min(left, total);
      ShareBounds(price, total, share);
      price * share / total
  }

  lemma ShareBounds(price: nat, total: nat, share: nat)
    requires 0 < share <= total
    ensures 0 <= price * share / total <= price
    ensures (price * share / total) * total <= price * share < (price * share / total + 1) * total
    ensures share == total ==> price * share / total == price
  {
    var q := price * share / total;
    assert price * share == q * total + price * share % total;
    assert (q + 1) * total == q * total + total;
    ProductOrder(price, q, total);
    ProductOrder(q, price, total);
    ProductOrder(total, share, price);
  }
}
