/** What every transaction on a guest's books writes, in the columns of his rows. */
module GuestTable {
  import opened Basics
  import opened Packages
  import opened PackageSales
  import opened Wallet
  import opened Sessions
  import opened Settlement
  import opened Coins
  import opened GuestBooks

  /** The account with one more row. */
  function Booked(a: Account, kind: Kind, amount: int, ref: nat): Account {
    Account(a.balance + amount, a.journal + [Entry(kind, amount, a.balance + amount, ref)])
  }

  /** A deposit brings its grosz to the wallet and its coins to the balance. */
  lemma TopUpWrites(g: GuestBook, grosz: nat, coins: nat)
    requires g.account.balance >= 0
    ensures GuestBooks.Step(g, TopUp(grosz, coins)) ==
      g.(account := Booked(g.account, Deposit, grosz, |g.coins.deposits|),
         coins := g.coins.(balance := g.coins.balance + coins, deposits := g.coins.deposits + [DepositRow(grosz, coins)]))
  {
  }

  /** A guest without an open session is seated under the next id, with a place for what
      the session will earn. */
  lemma SeatWrites(g: GuestBook, rate: int, now: int, waitMin: int)
    ensures GuestBooks.Step(g, SeatGuest(rate, now, waitMin)) ==
      if exists i :: 0 <= i < |g.sessions| && g.sessions[i].status == Active then g
      else g.(sessions := g.sessions + [Seat(|g.sessions|, g.user, rate, now, waitMin)],
              coins := g.coins.(earned := g.coins.earned + [None]))
  {
  }

  /** Who closes an open session gives it its end and pays its coins, if they were not
      paid; who finds it closed does nothing. */
  lemma CloseWrites(g: GuestBook, i: nat, now: int, reason: Reason, coins: nat)
    requires i < |g.sessions| == |g.coins.earned|
    ensures var s, c := g.sessions[i], g.coins;
      GuestBooks.Step(g, CloseSession(i, now, reason, coins)) ==
        if s.status != Active then g
        else g.(sessions := g.sessions[i := s.(status := Completed, endedAt := Some(now), endedReason := Some(reason))],
                coins := if c.earned[i] != None then c
                         else c.(balance := c.balance + coins, earned := c.earned[i := Some(coins)]))
  {
  }

  /** A settlement writes the session, the account, coin minutes and packages, and notes
      what each package gave. */
  lemma SettleWrites(g: GuestBook, i: nat, seen: Counters, zone: Option<nat>, now: int, target: int, p: nat)
    requires i < |g.sessions| && p < |g.usage| == |g.packs|
    ensures var b := SettleFrom(BooksOf(g, i), seen, zone, now, target).books;
      var g' := GuestBooks.Step(g, Settle(i, seen, zone, now, target));
      && g' == g.(sessions := g.sessions[i := b.session], account := b.account, coinMinutes := b.coinMinutes,
                  packs := b.packs, usage := g'.usage)
      && (|b.packs| == |g.packs| ==>
            && |g'.usage| == |g.usage|
            && g'.usage[p] == g.usage[p].(drained := g.usage[p].drained + g.packs[p].minutesLeft - b.packs[p].minutesLeft))
  {
    hide SettleFrom;
  }

  /** Clock columns are written as given, counters and status are not; a seat is cancelled
      while its session waits. */
  lemma ClockWrites(g: GuestBook, i: nat, t: Session, now: int)
    requires i < |g.sessions|
    ensures var s := g.sessions[i];
      && GuestBooks.Step(g, SetClock(i, t)) ==
           (if (s.id, s.user, s.rate, s.status) == (t.id, t.user, t.rate, t.status) && CountersOf(s) == CountersOf(t)
            then g.(sessions := g.sessions[i := t]) else g)
      && GuestBooks.Step(g, GuestBooks.CancelSeat(i, now)) ==
           (if s.status == Active && s.readyDeadline != None && s.readyAt == None
            then g.(sessions := g.sessions[i := s.(status := Cancelled)]) else g)
  {
  }

  /** Coins are exchanged for their minutes, or nothing happens. */
  lemma ExchangeWrites(g: GuestBook, minutes: int, rate: int, spend: int)
    ensures var price := CoinsForMinutes(minutes, rate, spend);
      GuestBooks.Step(g, RedeemCoins(minutes, rate, spend)) ==
        if minutes > 0 && rate > 0 && spend > 0 && price <= g.coins.balance
        then g.(coinMinutes := g.coinMinutes + minutes,
                coins := g.coins.(balance := g.coins.balance - price,
                                  redemptions := g.coins.redemptions + [Redemption(minutes, price, false, 0, 0)]))
        else g
  {
    hide CoinsForMinutes;
    RedemptionWrites(g.coins, minutes, rate, spend);
    NothingIsFree(minutes, rate, spend);
  }

  /** A void takes back what the guest still holds of the minutes, with their share of
      the coins. */
  lemma ExchangeVoidWrites(g: GuestBook, at: nat)
    requires at < |g.coins.redemptions| && g.coins.redemptions[at].minutes > 0
    ensures var r := g.coins.redemptions[at];
      var takenBack := if g.coinMinutes < r.minutes then g.coinMinutes else r.minutes;
      var returned := r.coins * takenBack / r.minutes;
      GuestBooks.Step(g, GuestBooks.VoidRedemption(at)) ==
        if r.voided then g
        else g.(coinMinutes := g.coinMinutes - takenBack,
                coins := g.coins.(balance := g.coins.balance + returned,
                  redemptions := g.coins.redemptions[at := Redemption(r.minutes, r.coins, true, takenBack, returned)]))
  {
    VoidWrites(g.coins, at, g.coinMinutes);
    hide RefundForVoid;
  }

  /** Cases, burns and freezes act on the coins alone. */
  lemma CoinsOnlyWrites(g: GuestBook, e: Coins.Event)
    ensures GuestBooks.Step(g, OtherCoins(e)) ==
      if e.CaseGranted? || e.CaseOpened? || e.Burnt? || e.FreezeBought? || e.GapFrozen?
      then g.(coins := Coins.Step(g.coins, e)) else g
  {
    hide Coins.Step;
  }

  /** A package is bought new, with a price from the wallet if it is paid from there. */
  lemma BuyWrites(g: GuestBook, o: Offer, fromWallet: bool, now: int)
    requires g.account.balance >= 0
    ensures var expires := if o.days > 0 then Some(now + o.days * 86400) else None;
      var pack := UserPackage(g.user, o.zone, o.minutes, o.minutes, o.price, fromWallet, expires, now, false);
      GuestBooks.Step(g, BuyPackage(o, fromWallet, now)) ==
        if fromWallet && g.account.balance < o.price then g
        else g.(packs := g.packs + [pack], usage := g.usage + [Usage(0, 0, 0)],
                account := if fromWallet then Booked(g.account, PackageSpend, 0 - o.price, |g.packs|) else g.account)
  {
  }

  /** A revoked package loses its minutes and returns their share of a price that came
      from the wallet, as the minutes were read. */
  lemma RevokeWrites(g: GuestBook, at: nat, seenLeft: nat)
    requires g.account.balance >= 0 && at < |g.packs| == |g.usage|
    requires 0 < g.packs[at].minutesTotal && seenLeft <= g.packs[at].minutesTotal
    ensures var p := g.packs[at];
      var refund := if p.fromWallet then p.price * seenLeft / p.minutesTotal else 0;
      GuestBooks.Step(g, RevokePackage(at, seenLeft)) ==
        if p.voided then g
        else g.(packs := g.packs[at := p.(voided := true, minutesLeft := 0)],
                usage := g.usage[at := Usage(g.usage[at].drained, p.minutesLeft, Max(refund, 0))],
                account := if refund > 0 then Booked(g.account, Refund, refund, at) else g.account)
  {
    hide RefundForVoid;
    RefundIsQuotient(g.packs[at].price, g.packs[at].minutesTotal, seenLeft);
    if !g.packs[at].voided {
      VoidOfPackageWrites(g.account, g.packs, at, seenLeft);
    }
  }

  /** A kitchen order is paid if the wallet covers it; a void returns what was paid, once. */
  lemma KitchenWrites(g: GuestBook, total: nat, at: nat)
    requires g.account.balance >= 0
    ensures GuestBooks.Step(g, PayKitchen(total)) ==
      if g.account.balance < total then g
      else g.(account := Booked(g.account, KitchenSpend, 0 - total, |g.tabs|), tabs := g.tabs + [Tab(total, false)])
    ensures GuestBooks.Step(g, VoidKitchen(at)) ==
      if at < |g.tabs| && !g.tabs[at].returned
      then g.(account := Booked(g.account, Refund, g.tabs[at].total, at), tabs := g.tabs[at := Tab(g.tabs[at].total, true)])
      else g
  {
  }
}
