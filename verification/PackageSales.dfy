/** Selling packages of minutes and voiding mistaken sales. */
module PackageSales {
  import opened Basics
  import opened Packages
  import opened Wallet

  /** A package of the catalogue: minutes of a zone, valid for some days or for ever. */
  datatype Offer = Offer(zone: nat, minutes: nat, price: nat, days: int)

  function NewPackage(user: nat, o: Offer, fromWallet: bool, now: int): UserPackage {
    UserPackage(user, o.zone, o.minutes, o.minutes, o.price, fromWallet, PackageExpiry(o.days, now), now, false)
  }

  /** A package bought for some days can be used until they are over to the second; one
      without days can be used for ever. */
  lemma PackageLastsItsDays(user: nat, o: Offer, fromWallet: bool, now: int, later: int)
    ensures PackageLive(NewPackage(user, o, fromWallet, now), later)
       <==> o.minutes > 0 && (o.days <= 0 || later < now + o.days * 86400)
  {
  }

  /** A package paid at the counter is simply added; one paid from the wallet only
      if the wallet covers it, together with the charge. */
  function IssuePackage(a: Account, rows: seq<UserPackage>, pack: UserPackage): (Account, seq<UserPackage>) {
    if !pack.fromWallet then (a, rows + [pack])
    else if a.balance < pack.price then (a, rows)
    else (Pay(a, Op(PackageSpend, 0 - pack.price, |rows|)), rows + [pack])
  }

  /** What a void returns, from the remainder `seenLeft` that was read before it. */
  function VoidRefund(p: UserPackage, seenLeft: int): (refund: int)
    ensures 0 <= refund <= p.price
    ensures !p.fromWallet ==> refund == 0
  {
    if p.fromWallet then RefundForVoid(p.price, p.minutesTotal, seenLeft) else 0
  }

  function VoidPackage(a: Account, rows: seq<UserPackage>, at: nat, seenLeft: int): (Account, seq<UserPackage>) {
    if at >= |rows| || rows[at].voided then (a, rows)
    else
      var refund := VoidRefund(rows[at], seenLeft);
      (if refund > 0 then Pay(a, Op(Refund, refund, at)) else a,
       rows[at := rows[at].(voided := true, minutesLeft := 0)])
  }

  /** What a sale writes: the package, and from the wallet its price with a row for it;
      nothing if the wallet holds less. */
  lemma SaleOfPackageWrites(a: Account, rows: seq<UserPackage>, pack: UserPackage)
    ensures var (a', rows') := IssuePackage(a, rows, pack);
      if pack.fromWallet && a.balance < pack.price then
        a' == a && rows' == rows
      else
        && rows' == rows + [pack]
        && a' == if !pack.fromWallet then a
             else Account(a.balance - pack.price,
                          a.journal + [Entry(PackageSpend, 0 - pack.price, a.balance - pack.price, |rows|)])
  {
  }

  /** What a void writes: once, no minutes left, and for a package from the wallet its
      price in proportion to the minutes that were read as left. */
  lemma VoidOfPackageWrites(a: Account, rows: seq<UserPackage>, at: nat, seenLeft: nat)
    requires a.balance >= 0 && at < |rows| && !rows[at].voided && 0 < rows[at].minutesTotal && seenLeft <= rows[at].minutesTotal
    ensures var (a', rows') := VoidPackage(a, rows, at, seenLeft);
      var p := rows[at];
      var refund := if p.fromWallet then p.price * seenLeft / p.minutesTotal else 0;
      && rows' == rows[at := p.(voided := true, minutesLeft := 0)]
      && VoidPackage(a', rows', at, seenLeft) == (a', rows')
      && a' == if refund > 0
           then Account(a.balance + refund, a.journal + [Entry(Refund, refund, a.balance + refund, at)])
           else a
  {
    hide RefundForVoid;
    RefundIsQuotient(rows[at].price, rows[at].minutesTotal, seenLeft);
  }

  lemma ProductCancels(a: int, b: int, k: int)
    requires k > 0 && a * k < b * k
    ensures a < b
  {
    if a >= b {
      ProductOrder(a, b, k);
    }
  }

  lemma RefundGrows(price: nat, total: nat, left: nat, more: nat)
    requires 0 < total && left < more <= total && price > 0
    ensures RefundForVoid(price, total, left) <= RefundForVoid(price, total, more)
    ensures price >= total ==> RefundForVoid(price, total, left) < RefundForVoid(price, total, more)
  {
    hide RefundForVoid;
    var r, r' := RefundForVoid(price, total, left), RefundForVoid(price, total, more);
    ProductOrder(left, more, price);
    assert left * price == price * left && more * price == price * more;
    assert r * total <= price * left;
    ProductCancels(r, r' + 1, total);
    if price >= total {
      assert (r + 1) * total == r * total + total;
      ProductCancels(r + 1, r' + 1, total);
    }
  }

  lemma FloorStays(a: nat, d: nat, t: int)
    requires t > 0
    ensures (a + d) / t == a / t <==> a % t + d < t
  {
    var q := a / t;
    assert a == q * t + a % t;
    ProductOrder((a + d) / t, q, t);
    ProductOrder(q, (a + d) / t, t);
    assert (a + d) / t * t <= a + d < (a + d) / t * t + t;
  }

  /** A void returns the price of the minutes it takes back exactly when those played
      between its reading of the row and its commit cost less than what rounding had
      left to the next grosz; at a grosz a minute or more, exactly when none were
      played. Otherwise it returns too much, never too little. */
  lemma VoidIsFairIff(p: UserPackage, seenLeft: nat)
    requires p.minutesLeft <= seenLeft <= p.minutesTotal
    ensures VoidRefund(p, seenLeft) >= VoidRefund(p, p.minutesLeft)
    ensures VoidRefund(p, seenLeft) == VoidRefund(p, p.minutesLeft) <==>
      || !p.fromWallet || p.minutesTotal == 0
      || p.price * p.minutesLeft % p.minutesTotal + p.price * (seenLeft - p.minutesLeft) < p.minutesTotal
    ensures p.fromWallet && 0 < p.minutesTotal <= p.price ==>
      (VoidRefund(p, seenLeft) == VoidRefund(p, p.minutesLeft) <==> seenLeft == p.minutesLeft)
  {
    if p.fromWallet && p.minutesTotal > 0 {
      RefundIsQuotient(p.price, p.minutesTotal, seenLeft);
      RefundIsQuotient(p.price, p.minutesTotal, p.minutesLeft);
      SplitShare(p.price, p.minutesLeft, seenLeft);
      FloorStays(p.price * p.minutesLeft, p.price * (seenLeft - p.minutesLeft), p.minutesTotal);
      if p.minutesLeft < seenLeft && p.price > 0 {
        RefundGrows(p.price, p.minutesTotal, p.minutesLeft, seenLeft);
      }
    }
  }

  lemma SplitShare(price: nat, left: nat, seen: nat)
    requires left <= seen
    ensures price * seen == price * left + price * (seen - left)
    ensures price * left >= 0 && price * (seen - left) >= 0
  {
  }

  lemma RefundIsQuotient(price: nat, total: nat, left: nat)
    requires 0 < total && left <= total
    ensures RefundForVoid(price, total, left) == price * left / total
  {
    if left == 0 || price == 0 {
      assert price * left == 0;
    }
  }

  /** The counter: a guest's row and the table of packages. */
  class PackageCounter {
    const guest: GuestRow
    const table: PackageTable

    constructor (guest: GuestRow, table: PackageTable)
      ensures this.guest == guest && this.table == table
    {
      this.guest, this.table := guest, table;
    }

    ghost function View(): (Account, seq<UserPackage>)
      reads guest, table
    {
      (guest.AccountView(), table.rows)
    }

    method Issue(pack: UserPackage) returns (ok: bool)
      modifies guest`balance, guest`journal, table
      ensures View() == IssuePackage(old(View().0), old(View().1), pack)
      ensures ok <==> (pack.fromWallet ==> old(guest.balance) >= pack.price)
      ensures table.rows == if ok then old(table.rows) + [pack] else old(table.rows)
      ensures guest.balance == old(guest.balance) - if ok && pack.fromWallet then pack.price else 0
    {
      if pack.fromWallet {
        if guest.balance < pack.price {
          return false;
        }
        var _ := guest.Apply(Op(PackageSpend, 0 - pack.price, |table.rows|));
      }
      table.rows := table.rows + [pack];
      ok := true;
    }

    /** `seen` is the row as it was read before the transaction. */
    method Void(at: nat, seen: UserPackage) returns (ok: bool)
      requires at < |table.rows| ==> seen == table.rows[at].(minutesLeft := seen.minutesLeft, voided := seen.voided)
      requires at < |table.rows| ==> table.rows[at].voided || !seen.voided
      modifies guest`balance, guest`journal, table
      ensures View() == VoidPackage(old(View().0), old(View().1), at, seen.minutesLeft)
      ensures ok <==> at < |old(table.rows)| && !old(table.rows)[at].voided
      ensures table.rows == if ok then old(table.rows)[at := old(table.rows)[at].(voided := true, minutesLeft := 0)]
        else old(table.rows)
    {
      if at >= |table.rows| || seen.voided {
        return false;
      }
      var refund := 0;
      if seen.fromWallet {
        refund := RefundForVoid(seen.price, seen.minutesTotal, seen.minutesLeft);
      }
      if table.rows[at].voided {
        return false;
      }
      table.rows := table.rows[at := table.rows[at].(voided := true, minutesLeft := 0)];
      if refund > 0 {
        var _ := guest.Apply(Op(Refund, refund, at));
      }
      ok := true;
    }
  }
}
