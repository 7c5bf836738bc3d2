/** Everything one guest owns or owes, and every transaction on it: deposits,
    settlements and closings of any of his sessions, coins, packages, kitchen
    payments and voids, in any interleaving. */
module GuestBooks {
  import opened Basics
  import opened Packages
  import opened PackageSales
  import opened Wallet
  import opened Sessions
  import opened Settlement
  import opened Coins

  /** What happened to a package: minutes drawn by sessions, minutes taken back by
      a void, and the money returned for them. */
  datatype Usage = Usage(drained: int, takenBack: nat, refund: nat)

  /** A kitchen order paid from the wallet, and whether its sale was voided. */
  datatype Tab = Tab(total: nat, returned: bool)

  datatype GuestBook = GuestBook(
    user: nat, account: Account, coins: CoinBook, coinMinutes: nat,
    packs: seq<UserPackage>, usage: seq<Usage>, sessions: seq<Session>, tabs: seq<Tab>)

  function NewGuest(user: nat): GuestBook {
    GuestBook(user, NewAccount, EmptyBook, 0, [], [], [], [])
  }

  datatype Move =
    | TopUp(grosz: nat, coins: nat)
    | SeatGuest(rate: int, now: int, waitMin: int)
    | Settle(session: nat, seen: Counters, zone: Option<nat>, now: int, target: int)
    | SetClock(session: nat, clock: Session)
    | CloseSession(session: nat, now: int, reason: Reason, coins: nat)
    | CancelSeat(session: nat, now: int)
    | RedeemCoins(minutes: int, rate: int, spend: int)
    | VoidRedemption(at: nat)
    | OtherCoins(event: Coins.Event)
    | BuyPackage(offer: Offer, fromWallet: bool, now: int)
    | RevokePackage(at: nat, seenLeft: int)
    | PayKitchen(total: nat)
    | VoidKitchen(at: nat)

  /** The rows a settlement of one session works on. */
  function BooksOf(g: GuestBook, i: nat): Books
    requires i < |g.sessions|
  {
    Books(g.sessions[i], g.account, g.coinMinutes, g.packs)
  }

  /** `t` differs from `s` in clock, pause, warning and grace columns only. */
  predicate SameButClock(s: Session, t: Session) {
    && (s.id, s.user, s.rate, s.status) == (t.id, t.user, t.rate, t.status)
    && (s.billed, s.coinUsed, s.packUsed, s.money, s.charged) == (t.billed, t.coinUsed, t.packUsed, t.money, t.charged)
  }

  predicate Playing(sessions: seq<Session>) {
    exists i :: 0 <= i < |sessions| && sessions[i].status == Active
  }

  /** The usage beside each package after its remainder changed. */
  function Drawn(usage: seq<Usage>, before: seq<UserPackage>, after: seq<UserPackage>): seq<Usage> {
    if |usage| == |before| == |after| then
      seq(|usage|, p requires 0 <= p < |usage| =>
        usage[p].(drained := usage[p].drained + before[p].minutesLeft - after[p].minutesLeft))
    else
      usage
  }

  /** A settlement by a caller who read the counters of the session as `seen`. */
  function AfterSettle(g: GuestBook, i: nat, seen: Counters, zone: Option<nat>, now: int, target: int): GuestBook
    requires i < |g.sessions|
  {
    var b := SettleFrom(BooksOf(g, i), seen, zone, now, target).books;
    g.(account := b.account, coinMinutes := b.coinMinutes, packs := b.packs, sessions := g.sessions[i := b.session],
       usage := Drawn(g.usage, g.packs, b.packs))
  }

  /** Closing is conditional on the row; who closes it pays the coins for it. */
  function AfterClose(g: GuestBook, i: nat, now: int, reason: Reason, coins: nat): GuestBook
    requires i < |g.sessions|
  {
    if g.sessions[i].status != Active then g
    else g.(sessions := g.sessions[i := Close(g.sessions[i], now, reason)],
            coins := Coins.Step(g.coins, SessionFinished(i, coins)))
  }

  function AfterExchange(g: GuestBook, minutes: int, rate: int, spend: int): GuestBook {
    var coins := Coins.Step(g.coins, Redeemed(minutes, rate, spend));
    if |coins.redemptions| == |g.coins.redemptions| then g
    else g.(coins := coins, coinMinutes := g.coinMinutes + Max(minutes, 0))
  }

  function AfterExchangeVoid(g: GuestBook, at: nat): GuestBook {
    if at >= |g.coins.redemptions| || g.coins.redemptions[at].voided then g
    else g.(coins := Coins.Step(g.coins, RedemptionVoided(at, g.coinMinutes)),
            coinMinutes := g.coinMinutes - Min(g.coins.redemptions[at].minutes, g.coinMinutes))
  }

  function AfterBuy(g: GuestBook, pack: UserPackage): GuestBook {
    var (account, packs) := IssuePackage(g.account, g.packs, pack);
    g.(account := account, packs := packs,
       usage := if |packs| == |g.packs| then g.usage else g.usage + [Usage(0, 0, 0)])
  }

  function AfterRevoke(g: GuestBook, at: nat, seenLeft: int): GuestBook {
    var (account, packs) := VoidPackage(g.account, g.packs, at, seenLeft);
    g.(account := account, packs := packs,
       usage := if at < |g.packs| && at < |g.usage| && !g.packs[at].voided
         then g.usage[at := g.usage[at].(takenBack := g.packs[at].minutesLeft, refund := VoidRefund(g.packs[at], seenLeft))]
         else g.usage)
  }

  /** The order is paid only if the wallet covers it. */
  function AfterKitchen(g: GuestBook, total: nat): GuestBook {
    var r := WalletApply(g.account, Op(KitchenSpend, 0 - total, |g.tabs|));
    if r.Insufficient? then g else g.(account := r.account, tabs := g.tabs + [Tab(total, false)])
  }

  function AfterVoidKitchen(g: GuestBook, at: nat): GuestBook {
    if at >= |g.tabs| || g.tabs[at].returned then g
    else g.(account := Pay(g.account, Op(Refund, g.tabs[at].total, at)), tabs := g.tabs[at := g.tabs[at].(returned := true)])
  }

  function AfterTopUp(g: GuestBook, grosz: nat, coins: nat): GuestBook {
    var r := WalletApply(g.account, Op(Deposit, grosz, |g.coins.deposits|));
    if r.Insufficient? then g else g.(account := r.account, coins := Coins.Step(g.coins, Deposited(grosz, coins)))
  }

  function AfterSeat(g: GuestBook, rate: int, now: int, waitMin: int): GuestBook {
    if Playing(g.sessions) then g
    else g.(sessions := g.sessions + [Seat(|g.sessions|, g.user, rate, now, waitMin)],
            coins := Coins.Step(g.coins, SessionStarted))
  }

  /** Coin events that concern nothing else: cases, burns, freezes. */
  predicate CoinsOnly(e: Coins.Event) {
    e.CaseGranted? || e.CaseOpened? || e.Burnt? || e.FreezeBought? || e.GapFrozen?
  }

  function Step(g: GuestBook, e: Move): GuestBook {
    match e
    case TopUp(grosz, coins) => AfterTopUp(g, grosz, coins)
    case SeatGuest(rate, now, waitMin) => AfterSeat(g, rate, now, waitMin)
    case Settle(i, seen, zone, now, target) =>
      if i < |g.sessions| then AfterSettle(g, i, seen, zone, now, target) else g
    case SetClock(i, clock) =>
      if i < |g.sessions| && SameButClock(g.sessions[i], clock) then g.(sessions := g.sessions[i := clock]) else g
    case CloseSession(i, now, reason, coins) => if i < |g.sessions| then AfterClose(g, i, now, reason, coins) else g
    case CancelSeat(i, now) =>
      if i < |g.sessions| && g.sessions[i].status == Active && SessionWaitingReady(g.sessions[i])
      then g.(sessions := g.sessions[i := g.sessions[i].(status := Cancelled)]) else g
    case RedeemCoins(minutes, rate, spend) => AfterExchange(g, minutes, rate, spend)
    case VoidRedemption(at) => AfterExchangeVoid(g, at)
    case OtherCoins(event) => if CoinsOnly(event) then g.(coins := Coins.Step(g.coins, event)) else g
    case BuyPackage(offer, fromWallet, now) => AfterBuy(g, NewPackage(g.user, offer, fromWallet, now))
    case RevokePackage(at, seenLeft) => AfterRevoke(g, at, seenLeft)
    case PayKitchen(total) => AfterKitchen(g, total)
    case VoidKitchen(at) => AfterVoidKitchen(g, at)
  }

  function Run(g: GuestBook, moves: seq<Move>): GuestBook
    decreases |moves|
  {
    if moves == [] then g else Run(Step(g, moves[0]), moves[1..])
  }
}
