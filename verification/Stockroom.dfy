/** The shop and the kitchen: stock changes only together with a stock move; an
    order reserves its units, is paid after it was handed over, and gives its
    units back once at most. Each transaction is one step guarded by the condition
    of its update; what was read before it may be out of date. */
module Stockroom {
  import opened Basics
  import opened Wallet

  datatype KitchenStatus = New | Accepted | Preparing | Delivering | Done | Cancelled
  datatype Method = Cash | Card | Blik | FromWallet

  datatype Good = Good(stock: int, price: nat, active: bool)

  datatype Order = Order(user: nat, good: nat, qty: nat, total: nat, status: KitchenStatus, sale: Option<nat>)

  /** A sale at the counter, to a named guest or not, or of a kitchen order when it is
      paid. */
  datatype Sale = Sale(
    user: Option<nat>, good: nat, qty: nat, total: nat, how: Method, order: Option<nat>, voided: bool)

  /** Why stock moved: by hand, for an order, or for a sale. */
  datatype Cause = ByHand | ForOrder(order: nat) | ForSale(sale: nat)

  datatype StockMove = StockMove(good: nat, delta: int, cause: Cause)

  datatype Shop = Shop(goods: seq<Good>, moves: seq<StockMove>, orders: seq<Order>, sales: seq<Sale>)

  datatype Event =
    | AddGood(stock: int, price: nat)
    | EditGood(good: nat, price: nat, active: bool)
    | CorrectStock(good: nat, delta: int, supply: bool)
    | Sell(to: Option<nat>, good: nat, qty: int, how: Method)
    | VoidSale(sale: nat)
    | PlaceOrder(user: nat, good: nat, qty: int)
    | MoveOrder(order: nat, read: KitchenStatus, next: KitchenStatus)
    | CancelOrder(order: nat, byGuest: bool)
    | PayOrder(order: nat, how: Method, covered: bool)

  const MAX_ORDER_QTY := 5
  const MAX_SALE_QTY := 99

  predicate Open(status: KitchenStatus) {
    status != Done && status != Cancelled
  }

  /** The guest may change his mind only while the order is new. */
  predicate Cancellable(status: KitchenStatus, byGuest: bool) {
    if byGuest then status == New else Open(status)
  }

  predicate AllowedKitchenNext(cur: KitchenStatus, next: KitchenStatus) {
    match next
    case Accepted => cur == New
    case Preparing => cur == New || cur == Accepted
    case Delivering => cur == New || cur == Accepted || cur == Preparing
    case Done => cur == New || cur == Accepted || cur == Preparing || cur == Delivering
    case _ => false
  }

  function Rank(status: KitchenStatus): nat {
    match status
    case New => 0
    case Accepted => 1
    case Preparing => 2
    case Delivering => 3
    case Done => 4
    case Cancelled => 5
  }

  /** The flow only goes forward, may skip stages, and never passes through a
      cancellation. */
  lemma FlowIsForward(cur: KitchenStatus, next: KitchenStatus)
    ensures AllowedKitchenNext(cur, next) <==> Rank(cur) < Rank(next) <= 4
  {
    match next case _ =>
  }

  /** Change the stock of a good and record the move. */
  function Shift(s: Shop, good: nat, delta: int, cause: Cause): Shop
    requires good < |s.goods|
  {
    s.(goods := s.goods[good := s.goods[good].(stock := s.goods[good].stock + delta)],
       moves := s.moves + [StockMove(good, delta, cause)])
  }

  function AfterAdd(s: Shop, stock: int, price: nat): Shop {
    if stock < 0 then s
    else s.(goods := s.goods + [Good(stock, price, true)],
            moves := if stock > 0 then s.moves + [StockMove(|s.goods|, stock, ByHand)] else s.moves)
  }

  function AfterCorrection(s: Shop, good: nat, delta: int, supply: bool): Shop {
    if good >= |s.goods| || delta == 0 || (supply && delta < 0) || s.goods[good].stock + delta < 0 then s
    else Shift(s, good, delta, ByHand)
  }

  /** A missing quantity means one piece. */
  function Pieces(qty: int): nat {
    if qty <= 0 then 1 else qty
  }

  function AfterSale(s: Shop, to: Option<nat>, good: nat, qty: int, how: Method): Shop {
    var n := Pieces(qty);
    if n > MAX_SALE_QTY || how == FromWallet || good >= |s.goods| || s.goods[good].stock < n then s
    else Shift(s, good, 0 - n, ForSale(|s.sales|)).(
           sales := s.sales + [Sale(to, good, n, s.goods[good].price * n, how, None, false)])
  }

  function AfterVoid(s: Shop, k: nat): Shop {
    if k >= |s.sales| || s.sales[k].voided || s.sales[k].good >= |s.goods| then s
    else Shift(s, s.sales[k].good, s.sales[k].qty, ForSale(k)).(sales := s.sales[k := s.sales[k].(voided := true)])
  }

  function AfterOrder(s: Shop, user: nat, good: nat, qty: int): Shop {
    var n := Pieces(qty);
    if n > MAX_ORDER_QTY || good >= |s.goods| || s.goods[good].stock < n then s
    else Shift(s, good, 0 - n, ForOrder(|s.orders|)).(
           orders := s.orders + [Order(user, good, n, s.goods[good].price * n, New, None)])
  }

  /** The status that was read decides whether the move is allowed; the update
      requires that it is still the status. */
  function AfterMove(s: Shop, o: nat, read: KitchenStatus, next: KitchenStatus): Shop {
    if o >= |s.orders| || !AllowedKitchenNext(read, next) || s.orders[o].status != read then s
    else s.(orders := s.orders[o := s.orders[o].(status := next)])
  }

  function AfterCancel(s: Shop, o: nat, byGuest: bool): Shop {
    if o >= |s.orders| || !Cancellable(s.orders[o].status, byGuest) || s.orders[o].good >= |s.goods| then s
    else Shift(s, s.orders[o].good, s.orders[o].qty, ForOrder(o)).(
           orders := s.orders[o := s.orders[o].(status := Cancelled)])
  }

  /** `covered` says whether the guest's wallet holds the price. */
  function AfterPay(s: Shop, o: nat, how: Method, covered: bool): Shop {
    if o >= |s.orders| || s.orders[o].status != Done || s.orders[o].sale.Some? || (how == FromWallet && !covered) then s
    else
      var order := s.orders[o];
      s.(orders := s.orders[o := order.(sale := Some(|s.sales|))],
         sales := s.sales + [Sale(Some(order.user), order.good, order.qty, order.total, how, Some(o), false)])
  }

  function Step(s: Shop, e: Event): Shop {
    match e
    case AddGood(stock, price) => AfterAdd(s, stock, price)
    case EditGood(good, price, active) =>
      if good < |s.goods| then s.(goods := s.goods[good := Good(s.goods[good].stock, price, active)]) else s
    case CorrectStock(good, delta, supply) => AfterCorrection(s, good, delta, supply)
    case Sell(to, good, qty, how) => AfterSale(s, to, good, qty, how)
    case VoidSale(k) => AfterVoid(s, k)
    case PlaceOrder(user, good, qty) => AfterOrder(s, user, good, qty)
    case MoveOrder(o, read, next) => AfterMove(s, o, read, next)
    case CancelOrder(o, byGuest) => AfterCancel(s, o, byGuest)
    case PayOrder(o, how, covered) => AfterPay(s, o, how, covered)
  }

  function Run(s: Shop, events: seq<Event>): Shop
    decreases |events|
  {
    if events == [] then s else Run(Step(s, events[0]), events[1..])
  }

  // What each step writes.

  /** A new good starts with its stock, and with a move if there is any. */
  lemma GoodWrites(s: Shop, stock: int, price: nat)
    ensures Step(s, AddGood(stock, price)) ==
      if stock < 0 then s
      else s.(goods := s.goods + [Good(stock, price, true)],
              moves := s.moves + if stock == 0 then [] else [StockMove(|s.goods|, stock, ByHand)])
  {
    assert s.moves + [] == s.moves;
  }

  /** The price list changes price and activity, never stock. */
  lemma EditWrites(s: Shop, good: nat, price: nat, active: bool)
    requires good < |s.goods|
    ensures Step(s, EditGood(good, price, active))
         == s.(goods := s.goods[good := s.goods[good].(price := price, active := active)])
  {
  }

  /** A correction changes the stock by exactly what is asked, unless that is nothing,
      a negative supply, or more than there is. */
  lemma CorrectionWrites(s: Shop, good: nat, delta: int, supply: bool)
    requires good < |s.goods|
    ensures var g := s.goods[good];
      Step(s, CorrectStock(good, delta, supply)) ==
        if delta != 0 && (supply ==> delta > 0) && g.stock + delta >= 0
        then s.(goods := s.goods[good := g.(stock := g.stock + delta)], moves := s.moves + [StockMove(good, delta, ByHand)])
        else s
  {
  }

  /** A counter sale, of one piece if no number is given and 99 at most, costs price
      times pieces and takes them out of stock; refused if stock is short. */
  lemma SaleWrites(s: Shop, to: Option<nat>, good: nat, qty: int, how: Method)
    requires good < |s.goods|
    ensures var g := s.goods[good];
      var n: nat := if qty <= 0 then 1 else qty;
      Step(s, Sell(to, good, qty, how)) ==
        if n <= 99 && how != FromWallet && n <= g.stock
        then Shop(s.goods[good := g.(stock := g.stock - n)],
                  s.moves + [StockMove(good, 0 - n, ForSale(|s.sales|))],
                  s.orders,
                  s.sales + [Sale(to, good, n, g.price * n, how, None, false)])
        else s
  {
  }

  /** A void gives the pieces of the sale back to its good. */
  lemma VoidWrites(s: Shop, k: nat)
    requires k < |s.sales| && s.sales[k].good < |s.goods|
    ensures var sale := s.sales[k];
      var g := s.goods[sale.good];
      Step(s, VoidSale(k)) ==
        if sale.voided then s
        else Shop(s.goods[sale.good := g.(stock := g.stock + sale.qty)],
                  s.moves + [StockMove(sale.good, sale.qty, ForSale(k))],
                  s.orders,
                  s.sales[k := sale.(voided := true)])
  {
  }

  /** An order, of one piece if no number is given and five at most, is new and unpaid,
      totals price times pieces and takes them out of stock; refused if stock is short. */
  lemma OrderWrites(s: Shop, user: nat, good: nat, qty: int)
    requires good < |s.goods|
    ensures var g := s.goods[good];
      var n: nat := if qty <= 0 then 1 else qty;
      Step(s, PlaceOrder(user, good, qty)) ==
        if n <= 5 && n <= g.stock
        then Shop(s.goods[good := g.(stock := g.stock - n)],
                  s.moves + [StockMove(good, 0 - n, ForOrder(|s.orders|))],
                  s.orders + [Order(user, good, n, g.price * n, New, None)],
                  s.sales)
        else s
  {
  }

  /** An order moves on if nobody moved it since it was read. */
  lemma MoveWrites(s: Shop, o: nat, read: KitchenStatus, next: KitchenStatus)
    requires o < |s.orders|
    ensures Step(s, MoveOrder(o, read, next)) ==
      if s.orders[o].status == read && Rank(read) < Rank(next) && next != Cancelled
      then s.(orders := s.orders[o := s.orders[o].(status := next)]) else s
  {
    FlowIsForward(read, next);
    hide AllowedKitchenNext;
  }

  /** A cancelled order gives its pieces back to its good. Staff may cancel until it is
      handed over, the guest while it is new. */
  lemma CancelWrites(s: Shop, o: nat, byGuest: bool)
    requires o < |s.orders| && s.orders[o].good < |s.goods|
    ensures var order := s.orders[o];
      var g := s.goods[order.good];
      var open := order.status == New
        || (!byGuest && (order.status == Accepted || order.status == Preparing || order.status == Delivering));
      Step(s, CancelOrder(o, byGuest)) ==
        if open
        then Shop(s.goods[order.good := g.(stock := g.stock + order.qty)],
                  s.moves + [StockMove(order.good, order.qty, ForOrder(o))],
                  s.orders[o := order.(status := Cancelled)],
                  s.sales)
        else s
  {
  }

  /** A handed over and unpaid order is paid by a sale of the same pieces and total. */
  lemma PaymentWrites(s: Shop, o: nat, how: Method, covered: bool)
    requires o < |s.orders|
    ensures var order := s.orders[o];
      Step(s, PayOrder(o, how, covered)) ==
        if order.status == Done && order.sale == None && (how == FromWallet ==> covered)
        then s.(orders := s.orders[o := order.(sale := Some(|s.sales|))],
                sales := s.sales + [Sale(Some(order.user), order.good, order.qty, order.total, how, Some(o), false)])
        else s
  {
  }

  // Conservation.

  function DeltaOf(good: nat): StockMove -> int {
    (m: StockMove) => if m.good == good then m.delta else 0
  }

  function DeltaFor(cause: Cause, good: nat): StockMove -> int {
    (m: StockMove) => if m.cause == cause && m.good == good then m.delta else 0
  }

  function StockOf(goods: seq<Good>, good: nat): int {
    if good < |goods| then goods[good].stock else 0
  }

  ghost predicate StockAgrees(s: Shop) {
    && (forall g: nat :: StockOf(s.goods, g) == SumBy(DeltaOf(g), s.moves))
    && (forall g: nat :: StockOf(s.goods, g) >= 0)
  }

  /** What an order's own moves add up to: its units are out unless it was cancelled. */
  function OrderOut(orders: seq<Order>, o: nat, good: nat): int {
    if o < |orders| && orders[o].good == good && orders[o].status != Cancelled then 0 - orders[o].qty else 0
  }

  /** A counter sale takes its units; the sale of an order finds them taken. A void
      gives them back. */
  function SaleOut(sales: seq<Sale>, k: nat, good: nat): int {
    if k >= |sales| || sales[k].good != good then 0
    else (if sales[k].order.None? then 0 - sales[k].qty else 0) + if sales[k].voided then sales[k].qty else 0
  }

  ghost predicate CausesAgree(s: Shop) {
    && (forall o: nat, g: nat :: SumBy(DeltaFor(ForOrder(o), g), s.moves) == OrderOut(s.orders, o, g))
    && (forall k: nat, g: nat :: SumBy(DeltaFor(ForSale(k), g), s.moves) == SaleOut(s.sales, k, g))
  }

  /** An order that is paid was handed over, and it and its sale name each other. */
  ghost predicate Linked(s: Shop) {
    && (forall o :: 0 <= o < |s.orders| ==> s.orders[o].good < |s.goods|)
    && (forall k :: 0 <= k < |s.sales| ==> s.sales[k].good < |s.goods|)
    && (forall o :: 0 <= o < |s.orders| && s.orders[o].sale.Some? ==> PaidBy(s, o, s.orders[o].sale.value))
    && (forall k :: 0 <= k < |s.sales| && s.sales[k].order.Some? ==>
          s.sales[k].order.value < |s.orders| && s.orders[s.sales[k].order.value].sale == Some(k))
  }

  ghost predicate PaidBy(s: Shop, o: nat, k: nat)
    requires o < |s.orders|
  {
    && s.orders[o].status == Done && k < |s.sales|
    && (s.sales[k].user, s.sales[k].good, s.sales[k].qty, s.sales[k].total)
       == (Some(s.orders[o].user), s.orders[o].good, s.orders[o].qty, s.orders[o].total)
    && s.sales[k].order == Some(o)
  }

  ghost predicate Sound(s: Shop) {
    StockAgrees(s) && CausesAgree(s) && Linked(s)
  }

  /** One more move changes only the totals it belongs to. */
  lemma MoveTotals(moves: seq<StockMove>, m: StockMove)
    ensures forall g: nat :: SumBy(DeltaOf(g), moves + [m]) == SumBy(DeltaOf(g), moves) + if g == m.good then m.delta else 0
    ensures forall c: Cause, g: nat ::
      SumBy(DeltaFor(c, g), moves + [m]) == SumBy(DeltaFor(c, g), moves) + if c == m.cause && g == m.good then m.delta else 0
  {
    forall g: nat
      ensures SumBy(DeltaOf(g), moves + [m]) == SumBy(DeltaOf(g), moves) + if g == m.good then m.delta else 0
    {
      SumByAppend(DeltaOf(g), moves, m);
    }
    forall c: Cause, g: nat
      ensures SumBy(DeltaFor(c, g), moves + [m])
           == SumBy(DeltaFor(c, g), moves) + if c == m.cause && g == m.good then m.delta else 0
    {
      SumByAppend(DeltaFor(c, g), moves, m);
    }
  }

  lemma ShiftKeepsStock(s: Shop, good: nat, delta: int, cause: Cause)
    requires StockAgrees(s) && good < |s.goods| && s.goods[good].stock + delta >= 0
    ensures StockAgrees(Shift(s, good, delta, cause))
  {
    hide SumBy, DeltaOf, DeltaFor;
    MoveTotals(s.moves, StockMove(good, delta, cause));
    var s' := Shift(s, good, delta, cause);
    forall g: nat ensures StockOf(s'.goods, g) == SumBy(DeltaOf(g), s'.moves) && StockOf(s'.goods, g) >= 0 {
      assert StockOf(s.goods, g) == SumBy(DeltaOf(g), s.moves) && StockOf(s.goods, g) >= 0;
    }
  }

  lemma AddKeepsSound(s: Shop, stock: int, price: nat)
    requires Sound(s)
    ensures Sound(AfterAdd(s, stock, price))
  {
    hide SumBy, DeltaOf, DeltaFor;
    if stock >= 0 {
      MoveTotals(s.moves, StockMove(|s.goods|, stock, ByHand));
      var s' := AfterAdd(s, stock, price);
      forall g: nat ensures StockOf(s'.goods, g) == SumBy(DeltaOf(g), s'.moves) && StockOf(s'.goods, g) >= 0 {
        assert StockOf(s.goods, g) == SumBy(DeltaOf(g), s.moves) && StockOf(s.goods, g) >= 0;
      }
    }
  }

  lemma CorrectionKeepsSound(s: Shop, good: nat, delta: int, supply: bool)
    requires Sound(s)
    ensures Sound(AfterCorrection(s, good, delta, supply))
  {
    hide SumBy, DeltaOf, DeltaFor, StockAgrees;
    if AfterCorrection(s, good, delta, supply) != s {
      ShiftKeepsStock(s, good, delta, ByHand);
      MoveTotals(s.moves, StockMove(good, delta, ByHand));
    }
  }

  lemma SaleKeepsSound(s: Shop, to: Option<nat>, good: nat, qty: int, how: Method)
    requires Sound(s)
    ensures Sound(AfterSale(s, to, good, qty, how))
  {
    hide SumBy, DeltaOf, DeltaFor, StockAgrees, Pieces;
    var s' := AfterSale(s, to, good, qty, how);
    if s' != s {
      var n: int := Pieces(qty);
      ShiftKeepsStock(s, good, 0 - n, ForSale(|s.sales|));
      StockIgnoresRows(Shift(s, good, 0 - n, ForSale(|s.sales|)), s');
      MoveTotals(s.moves, StockMove(good, 0 - n, ForSale(|s.sales|)));
    }
  }

  lemma StockIgnoresRows(s: Shop, s': Shop)
    requires StockAgrees(s) && (s.goods, s.moves) == (s'.goods, s'.moves)
    ensures StockAgrees(s')
  {
    hide SumBy, StockOf, DeltaOf;
  }

  lemma VoidKeepsSound(s: Shop, k: nat)
    requires Sound(s)
    ensures Sound(AfterVoid(s, k))
  {
    hide SumBy, DeltaOf, DeltaFor, StockAgrees;
    var s' := AfterVoid(s, k);
    if s' != s {
      var sale := s.sales[k];
      StockIsNotNegative(s, sale.good);
      ShiftKeepsStock(s, sale.good, sale.qty, ForSale(k));
      StockIgnoresRows(Shift(s, sale.good, sale.qty, ForSale(k)), s');
      MoveTotals(s.moves, StockMove(sale.good, sale.qty, ForSale(k)));
    }
  }

  lemma StockIsNotNegative(s: Shop, good: nat)
    requires StockAgrees(s) && good < |s.goods|
    ensures s.goods[good].stock >= 0
  {
    assert StockOf(s.goods, good) >= 0;
  }

  lemma OrderKeepsSound(s: Shop, user: nat, good: nat, qty: int)
    requires Sound(s)
    ensures Sound(AfterOrder(s, user, good, qty))
  {
    hide SumBy, DeltaOf, DeltaFor, StockAgrees, Pieces;
    var s' := AfterOrder(s, user, good, qty);
    if s' != s {
      var n: int := Pieces(qty);
      ShiftKeepsStock(s, good, 0 - n, ForOrder(|s.orders|));
      StockIgnoresRows(Shift(s, good, 0 - n, ForOrder(|s.orders|)), s');
      MoveTotals(s.moves, StockMove(good, 0 - n, ForOrder(|s.orders|)));
    }
  }

  lemma CancelKeepsSound(s: Shop, o: nat, byGuest: bool)
    requires Sound(s)
    ensures Sound(AfterCancel(s, o, byGuest))
  {
    hide SumBy, DeltaOf, DeltaFor, StockAgrees;
    var s' := AfterCancel(s, o, byGuest);
    if s' != s {
      var order := s.orders[o];
      StockIsNotNegative(s, order.good);
      ShiftKeepsStock(s, order.good, order.qty, ForOrder(o));
      StockIgnoresRows(Shift(s, order.good, order.qty, ForOrder(o)), s');
      MoveTotals(s.moves, StockMove(order.good, order.qty, ForOrder(o)));
    }
  }

  lemma MoveKeepsSound(s: Shop, o: nat, read: KitchenStatus, next: KitchenStatus)
    requires Sound(s)
    ensures Sound(AfterMove(s, o, read, next))
  {
    hide SumBy, DeltaFor, StockAgrees;
    StockIgnoresRows(s, AfterMove(s, o, read, next));
  }

  lemma PayKeepsSound(s: Shop, o: nat, how: Method, covered: bool)
    requires Sound(s)
    ensures Sound(AfterPay(s, o, how, covered))
  {
    hide SumBy, DeltaFor, StockAgrees;
    StockIgnoresRows(s, AfterPay(s, o, how, covered));
  }

  lemma EditKeepsSound(s: Shop, good: nat, price: nat, active: bool)
    requires Sound(s)
    ensures Sound(Step(s, EditGood(good, price, active)))
  {
    hide SumBy, DeltaOf, DeltaFor;
    var s' := Step(s, EditGood(good, price, active));
    forall g: nat ensures StockOf(s'.goods, g) == SumBy(DeltaOf(g), s'.moves) && StockOf(s'.goods, g) >= 0 {
      assert StockOf(s.goods, g) == SumBy(DeltaOf(g), s.moves) && StockOf(s.goods, g) >= 0;
    }
  }

  /** After any run the stock of every good is the sum of its moves and not
      negative; every order and sale accounts for its own moves; and an order is
      paid by one sale at most, only after it was handed over. */
  lemma {:induction false} RunKeepsSound(s: Shop, events: seq<Event>)
    requires Sound(s)
    ensures Sound(Run(s, events))
    decreases |events|
  {
    hide Sound, Step;
    if events != [] {
      StepKeepsSound(s, events[0]);
      RunKeepsSound(Step(s, events[0]), events[1..]);
    }
  }

  lemma StepKeepsSound(s: Shop, e: Event)
    requires Sound(s)
    ensures Sound(Step(s, e))
  {
    hide Sound, AfterAdd, AfterCorrection, AfterSale, AfterVoid, AfterOrder, AfterMove, AfterCancel, AfterPay;
    match e
    case AddGood(stock, price) => AddKeepsSound(s, stock, price);
    case EditGood(good, price, active) => EditKeepsSound(s, good, price, active);
    case CorrectStock(good, delta, supply) => CorrectionKeepsSound(s, good, delta, supply);
    case Sell(to, good, qty, how) => SaleKeepsSound(s, to, good, qty, how);
    case VoidSale(k) => VoidKeepsSound(s, k);
    case PlaceOrder(user, good, qty) => OrderKeepsSound(s, user, good, qty);
    case MoveOrder(o, read, next) => MoveKeepsSound(s, o, read, next);
    case CancelOrder(o, byGuest) => CancelKeepsSound(s, o, byGuest);
    case PayOrder(o, how, covered) => PayKeepsSound(s, o, how, covered);
  }

  lemma EmptyShopIsSound()
    ensures Sound(Shop([], [], [], []))
  {
  }

  /** From an empty shop on, whatever happens. */
  lemma ShopsStaySound(events: seq<Event>)
    ensures Sound(Run(Shop([], [], [], []), events))
  {
    hide Sound, Run;
    EmptyShopIsSound();
    RunKeepsSound(Shop([], [], [], []), events);
  }

  /** The money of a sale paid from the wallet goes back to whoever paid the order. */
  lemma RefundGoesToThePayer(s: Shop, k: nat)
    requires Linked(s) && k < |s.sales| && s.sales[k].order.Some?
    ensures s.sales[k].order.value < |s.orders|
    ensures s.sales[k].user == Some(s.orders[s.sales[k].order.value].user)
    ensures s.sales[k].total == s.orders[s.sales[k].order.value].total
  {
    assert PaidBy(s, s.sales[k].order.value, k);
  }

  /** The moves of an order and of the sale that paid it. */
  function NetOfOrder(s: Shop, o: nat): int
    requires o < |s.orders|
  {
    var order := s.orders[o];
    SumBy(DeltaFor(ForOrder(o), order.good), s.moves)
    + if order.sale.Some? then SumBy(DeltaFor(ForSale(order.sale.value), order.good), s.moves) else 0
  }

  /** An order's units are either all out or all back, never back twice: it was
      cancelled or its sale was voided, and never both. */
  lemma UnitsReturnAtMostOnce(s: Shop, o: nat)
    requires Sound(s) && o < |s.orders|
    ensures var order := s.orders[o];
      var voided := order.sale.Some? && order.sale.value < |s.sales| && s.sales[order.sale.value].voided;
      && NetOfOrder(s, o) == (if order.status == Cancelled || voided then 0 else 0 - order.qty)
      && !(order.status == Cancelled && voided)
  {
    hide SumBy, DeltaFor, StockAgrees;
    var order := s.orders[o];
    assert SumBy(DeltaFor(ForOrder(o), order.good), s.moves) == OrderOut(s.orders, o, order.good);
    if order.sale.Some? {
      var k := order.sale.value;
      assert PaidBy(s, o, k);
      assert SumBy(DeltaFor(ForSale(k), order.good), s.moves) == SaleOut(s.sales, k, order.good);
    }
  }

  /** Two different orders are never paid by one sale. */
  lemma SaleOfOneOrder(s: Shop, o: nat, p: nat)
    requires Linked(s) && o < |s.orders| && p < |s.orders| && s.orders[o].sale.Some?
    requires s.orders[o].sale == s.orders[p].sale
    ensures o == p
  {
    var k := s.orders[o].sale.value;
    assert PaidBy(s, o, k) && PaidBy(s, p, k);
  }

  /** Paid orders stay paid by the same sale, cancelled ones stay cancelled, and
      voided sales stay voided. */
  ghost predicate Final(s: Shop, s': Shop) {
    && |s.orders| <= |s'.orders| && |s.sales| <= |s'.sales|
    && (forall o :: 0 <= o < |s.orders| ==> Rank(s.orders[o].status) <= Rank(s'.orders[o].status))
    && (forall o :: 0 <= o < |s.orders| && s.orders[o].sale.Some? ==> s'.orders[o] == s.orders[o])
    && (forall k :: 0 <= k < |s.sales| && s.sales[k].voided ==> s'.sales[k] == s.sales[k])
  }

  lemma StepIsFinal(s: Shop, e: Event)
    requires Linked(s)
    ensures Final(s, Step(s, e))
  {
    hide SumBy, Pieces;
    if e.CancelOrder? && e.order < |s.orders| && s.orders[e.order].sale.Some? {
      assert PaidBy(s, e.order, s.orders[e.order].sale.value);
    }
    if e.MoveOrder? && e.order < |s.orders| && s.orders[e.order].sale.Some? {
      assert PaidBy(s, e.order, s.orders[e.order].sale.value);
    }
  }

  lemma {:induction false} RunIsFinal(s: Shop, events: seq<Event>)
    requires Sound(s)
    ensures Final(s, Run(s, events))
    decreases |events|
  {
    hide Step, StockAgrees, CausesAgree, Linked;
    if events != [] {
      StepIsFinal(s, events[0]);
      StepKeepsSound(s, events[0]);
      RunIsFinal(Step(s, events[0]), events[1..]);
    }
  }

  /** Whatever happens in between, a paid order is not paid, cancelled or moved
      again, and a voided sale is not voided again. */
  lemma LaterAttemptsDoNothing(s: Shop, events: seq<Event>, o: nat, k: nat, again: Event)
    requires Sound(s)
    requires
      || (o < |s.orders| && (s.orders[o].sale.Some? || s.orders[o].status == Cancelled)
          && (again.PayOrder? || again.CancelOrder? || again.MoveOrder?) && again.order == o)
      || (k < |s.sales| && s.sales[k].voided && again == VoidSale(k))
    ensures Step(Run(s, events), again) == Run(s, events)
  {
    hide SumBy, StockAgrees, CausesAgree, Run;
    RunIsFinal(s, events);
    if o < |s.orders| && s.orders[o].sale.Some? {
      assert PaidBy(s, o, s.orders[o].sale.value);
    }
  }

  /** A price-list edit that writes the whole row back as it was read. */
  function SaveAsRead(s: Shop, good: nat, read: Good, price: nat, active: bool): Shop
    requires good < |s.goods|
  {
    s.(goods := s.goods[good := Good(read.stock, price, active)])
  }

  /** Such an edit keeps the stock equal to its moves exactly when no move came
      between the reading and the writing that left the stock different. */
  lemma SavingKeepsStockIff(s: Shop, good: nat, read: Good, price: nat, active: bool)
    requires StockAgrees(s) && good < |s.goods| && read.stock >= 0
    ensures StockAgrees(SaveAsRead(s, good, read, price, active)) <==> read.stock == s.goods[good].stock
  {
    hide SumBy, DeltaOf;
    var s' := SaveAsRead(s, good, read, price, active);
    assert StockOf(s.goods, good) == SumBy(DeltaOf(good), s.moves);
    if read.stock == s.goods[good].stock {
      forall g: nat ensures StockOf(s'.goods, g) == SumBy(DeltaOf(g), s'.moves) && StockOf(s'.goods, g) >= 0 {
        assert StockOf(s.goods, g) == SumBy(DeltaOf(g), s.moves) && StockOf(s.goods, g) >= 0;
      }
    } else {
      assert StockOf(s'.goods, good) == read.stock;
    }
  }

  /** The tables of goods, moves, orders and sales. */
  class ShopTables {
    var goods: seq<Good>
    var moves: seq<StockMove>
    var orders: seq<Order>
    var sales: seq<Sale>

    constructor ()
      ensures View() == Shop([], [], [], [])
    {
      goods, moves, orders, sales := [], [], [], [];
    }

    ghost function View(): Shop
      reads this
    {
      Shop(goods, moves, orders, sales)
    }

    /** The one way stock changes: the column and its move together. */
    method MoveStock(good: nat, delta: int, cause: Cause)
      requires good < |goods|
      modifies this`goods, this`moves
      ensures View() == Shift(old(View()), good, delta, cause)
    {
      goods := goods[good := goods[good].(stock := goods[good].stock + delta)];
      moves := moves + [StockMove(good, delta, cause)];
    }

    method CorrectStock(good: nat, delta: int, supply: bool) returns (ok: bool)
      modifies this
      ensures View() == Step(old(View()), Event.CorrectStock(good, delta, supply))
      ensures ok <==> good < |old(goods)| && delta != 0 && (supply ==> delta > 0) && old(goods)[good].stock + delta >= 0
      ensures ok ==> goods == old(goods)[good := old(goods)[good].(stock := old(goods)[good].stock + delta)]
      ensures ok ==> moves == old(moves) + [StockMove(good, delta, ByHand)]
      ensures !ok ==> View() == old(View())
    {
      if good >= |goods| || delta == 0 || (supply && delta < 0) || goods[good].stock + delta < 0 {
        return false;
      }
      MoveStock(good, delta, ByHand);
      ok := true;
    }

    method Sell(to: Option<nat>, good: nat, requested: int, how: Method) returns (ok: bool)
      modifies this
      ensures View() == Step(old(View()), Event.Sell(to, good, requested, how))
      ensures var n := if requested <= 0 then 1 else requested;
        && (ok <==> n <= 99 && how != FromWallet && good < |old(goods)| && n <= old(goods)[good].stock)
        && (ok ==>
              && sales == old(sales) + [Sale(to, good, n, old(goods)[good].price * n, how, None, false)]
              && goods == old(goods)[good := old(goods)[good].(stock := old(goods)[good].stock - n)])
      ensures !ok ==> View() == old(View())
    {
      var qty := requested;
      if qty <= 0 {
        qty := 1;
      }
      if qty > MAX_SALE_QTY || how == FromWallet || good >= |goods| || goods[good].stock < qty {
        return false;
      }
      sales := sales + [Sale(to, good, qty, goods[good].price * qty, how, None, false)];
      MoveStock(good, 0 - qty, ForSale(|sales| - 1));
      ok := true;
    }

    /** Voiding a sale paid from the wallet returns the money, to the guest the sale
        names, with the goods. */
    method VoidSale(sale: nat, guest: GuestRow) returns (ok: bool)
      requires sale < |sales| ==> sales[sale].good < |goods|
      requires sale < |sales| && sales[sale].user.Some? ==> guest.id == sales[sale].user.value
      requires guest.balance >= 0
      modifies this, guest`balance, guest`journal
      ensures View() == Step(old(View()), Event.VoidSale(sale))
      ensures ok <==> sale < |old(sales)| && !old(sales)[sale].voided
      ensures ok ==>
        var row := old(sales)[sale];
        && sales == old(sales)[sale := row.(voided := true)]
        && goods == old(goods)[row.good := old(goods)[row.good].(stock := old(goods)[row.good].stock + row.qty)]
      ensures !ok ==> View() == old(View())
      ensures guest.AccountView() ==
        if ok && old(sales)[sale].how == FromWallet && old(sales)[sale].user.Some?
        then Pay(old(guest.AccountView()), Op(Refund, old(sales)[sale].total, sale))
        else old(guest.AccountView())
    {
      if sale >= |sales| || sales[sale].voided {
        return false;
      }
      var row := sales[sale];
      sales := sales[sale := row.(voided := true)];
      if row.how == FromWallet && row.user.Some? {
        var _ := guest.Apply(Op(Refund, row.total, sale));
      }
      MoveStock(row.good, row.qty, ForSale(sale));
      ok := true;
    }

    method PlaceOrder(user: nat, good: nat, requested: int) returns (ok: bool)
      modifies this
      ensures View() == Step(old(View()), Event.PlaceOrder(user, good, requested))
      ensures var n := if requested <= 0 then 1 else requested;
        && (ok <==> n <= 5 && good < |old(goods)| && n <= old(goods)[good].stock)
        && (ok ==>
              && orders == old(orders) + [Order(user, good, n, old(goods)[good].price * n, New, None)]
              && goods == old(goods)[good := old(goods)[good].(stock := old(goods)[good].stock - n)])
      ensures !ok ==> View() == old(View())
    {
      var qty := requested;
      if qty <= 0 {
        qty := 1;
      }
      if qty > MAX_ORDER_QTY || good >= |goods| || goods[good].stock < qty {
        return false;
      }
      orders := orders + [Order(user, good, qty, goods[good].price * qty, New, None)];
      MoveStock(good, 0 - qty, ForOrder(|orders| - 1));
      ok := true;
    }

    method CancelOrder(order: nat, byGuest: bool) returns (ok: bool)
      requires order < |orders| ==> orders[order].good < |goods|
      modifies this
      ensures View() == Step(old(View()), Event.CancelOrder(order, byGuest))
      ensures ok <==> order < |old(orders)| && Cancellable(old(orders)[order].status, byGuest)
      ensures ok ==>
        var row := old(orders)[order];
        && orders == old(orders)[order := row.(status := Cancelled)]
        && goods == old(goods)[row.good := old(goods)[row.good].(stock := old(goods)[row.good].stock + row.qty)]
      ensures !ok ==> View() == old(View())
    {
      if order >= |orders| {
        return false;
      }
      var row := orders[order];
      if !Cancellable(row.status, byGuest) {
        return false;
      }
      orders := orders[order := row.(status := Cancelled)];
      MoveStock(row.good, row.qty, ForOrder(order));
      ok := true;
    }

    /** Payment after the order was handed over: the guest's wallet is charged or
        nothing happens at all. */
    method PayOrder(order: nat, how: Method, guest: GuestRow) returns (ok: bool)
      requires order < |orders| ==> guest.id == orders[order].user
      modifies this, guest`balance, guest`journal
      ensures order < |old(orders)| ==>
        var covered := old(guest.balance) >= old(orders)[order].total;
        && View() == Step(old(View()), Event.PayOrder(order, how, covered))
        && (ok <==> old(orders)[order].status == Done && old(orders)[order].sale.None? && (how == FromWallet ==> covered))
        && guest.AccountView() ==
             if ok && how == FromWallet
             then Pay(old(guest.AccountView()), Op(KitchenSpend, 0 - old(orders)[order].total, order))
             else old(guest.AccountView())
      ensures ok && order < |old(orders)| ==>
        var row := old(orders)[order];
        && orders == old(orders)[order := row.(sale := Some(|old(sales)|))] && goods == old(goods)
        && sales == old(sales) + [Sale(Some(row.user), row.good, row.qty, row.total, how, Some(order), false)]
      ensures !ok ==> View() == old(View())
      ensures order >= |old(orders)| ==> !ok && View() == old(View()) && guest.AccountView() == old(guest.AccountView())
    {
      if order >= |orders| || orders[order].status != Done || orders[order].sale.Some? {
        return false;
      }
      var row := orders[order];
      if how == FromWallet {
        var paid := guest.Apply(Op(KitchenSpend, 0 - row.total, order));
        if !paid {
          return false;
        }
      }
      sales := sales + [Sale(Some(row.user), row.good, row.qty, row.total, how, Some(order), false)];
      orders := orders[order := row.(sale := Some(|sales| - 1))];
      ok := true;
    }
  }
}
