/** Orders over the inventory: checkout, payment, and status changes, and what they do to physical stock. */
module Orders {
  import opened Common
  import opened OrderMachine
  import opened CartSplit
  import Inv = Inventory

  datatype HistoryRow = HistoryRow(order: Id, from: Option<OrderStatus>, to: OrderStatus)

  datatype CartRow = CartRow(product: Id, quantity: nat)

  /** Orders are identified by their position in the table. */
  datatype Market = Market(inv: Inv.State, orders: seq<Order>, history: seq<HistoryRow>, carts: map<Id, seq<CartRow>>)

  /** The product catalogue as a checkout sees it. */
  datatype Catalog = Catalog(shopOf: Id -> Id, price: Id -> nat, sellable: Id -> bool)

  datatype OrderError =
    | CartEmpty | ProductNotAvailable | NotEnoughStock | Stock(error: Inv.StockError)
    | OrderNotFound | NotAllowed | ReasonRequired | InvalidStatus

  const RESERVATION_TTL: Time := 30 * 60 * 1000

  // ------------------------------------------------------------------ cart

  function CartOf(m: Market, cart: Id): seq<CartRow> {
    if cart in m.carts then m.carts[cart] else []
  }

  function FindCartRow(rows: seq<CartRow>, product: Id): (r: Option<nat>)
    ensures r.Some? ==> r.value < |rows| && rows[r.value].product == product
    ensures r.None? ==> forall i :: 0 <= i < |rows| ==> rows[i].product != product
  {
    if |rows| == 0 then None
    else if rows[|rows| - 1].product == product then Some(|rows| - 1)
    else FindCartRow(rows[..|rows| - 1], product)
  }

  /** `addItem`: one row per product on offer, its quantity raised, never above the product's stock. */
  function AddItem(m: Market, cart: Id, product: Id, quantity: nat, sellable: bool): Market {
    if product !in m.inv.products || !sellable then m
    else
      var rows := CartOf(m, cart);
      var found := FindCartRow(rows, product);
      var next := quantity + (if found.Some? then rows[found.value].quantity else 0);
      if next > m.inv.products[product].stock then m
      else
        var row := CartRow(product, next);
        m.(carts := m.carts[cart := if found.Some? then rows[found.value := row] else rows + [row]])
  }

  function Resolve(rows: seq<CartRow>, catalog: Catalog): (items: seq<CartItem>)
    ensures |items| == |rows|
    ensures forall i :: 0 <= i < |rows| ==>
              items[i] == CartItem(rows[i].product, catalog.shopOf(rows[i].product), catalog.price(rows[i].product),
                  rows[i].quantity)
  {
    seq(|rows|, i requires 0 <= i < |rows| =>
      CartItem(rows[i].product, catalog.shopOf(rows[i].product), catalog.price(rows[i].product), rows[i].quantity))
  }

  // -------------------------------------------------------------- checkout

  /** A reservation for each line, or the first failure. */
  function ReserveLines(s: Inv.State, order: Id, lines: seq<OrderLine>, now: Time): Result<Inv.State, Inv.StockError> {
    if |lines| == 0 then Success(s)
    else
      var n := |lines| - 1;
      var before := ReserveLines(s, order, lines[..n], now);
      if before.Failure? || lines[n].product.None? then before
      else Inv.Reserve(before.value, lines[n].product.value, lines[n].quantity, order, lines[n].warehouse, now,
          RESERVATION_TTL)
  }

  predicate LineAvailable(s: Inv.State, line: OrderLine, now: Time) {
    line.product.Some? && line.product.value in s.products
        && Inv.GetAvailable(s, line.product.value, now).available >= line.quantity
  }

  /** One turn of the checkout loop: check every line, create the order, reserve its lines. */
  function PlaceOrder(m: Market, order: Order, now: Time): Result<Market, OrderError> {
    if exists i :: 0 <= i < |order.lines| && !LineAvailable(m.inv, order.lines[i], now) then Failure(NotEnoughStock)
    else
      match ReserveLines(m.inv, |m.orders|, order.lines, now)
      case Failure(e) => Failure(Stock(e))
      case Success(inv) =>
        Success(m.(inv := inv, orders := m.orders + [order],
            history := m.history + [HistoryRow(|m.orders|, None, PendingPayment)]))
  }

  function PlaceOrders(m: Market, orders: seq<Order>, now: Time): Result<Market, OrderError> {
    if |orders| == 0 then Success(m)
    else
      var before := PlaceOrders(m, orders[..|orders| - 1], now);
      if before.Failure? then before else PlaceOrder(before.value, orders[|orders| - 1], now)
  }

  predicate RowSellable(m: Market, row: CartRow, catalog: Catalog) {
    row.product in m.inv.products && catalog.sellable(row.product)
  }

  predicate RowInStock(m: Market, row: CartRow) {
    row.product in m.inv.products && Inv.TotalAvailable(m.inv, row.product) >= row.quantity
  }

  /** What is wrong with the first cart row that cannot be sold, if there is one. */
  function CartObjection(m: Market, rows: seq<CartRow>, catalog: Catalog): Option<OrderError> {
    if |rows| == 0 then None
    else
      var n := |rows| - 1;
      var earlier := CartObjection(m, rows[..n], catalog);
      if earlier.Some? then earlier
      else if !RowSellable(m, rows[n], catalog) then Some(ProductNotAvailable)
      else if !RowInStock(m, rows[n]) then Some(NotEnoughStock)
      else None
  }

  function OrdersFor(rows: seq<CartRow>, catalog: Catalog, terms: Terms): seq<Order> {
    var items := Resolve(rows, catalog);
    BuildOrders(items, terms, |ShopsOf(items)|)
  }

  /** `checkout`: all orders and reservations, and an empty cart; or a failure, and nothing. */
  function Checkout(m: Market, cart: Id, catalog: Catalog, terms: Terms, now: Time): Result<Market, OrderError> {
    var rows := CartOf(m, cart);
    if |rows| == 0 then Failure(CartEmpty)
    else if CartObjection(m, rows, catalog).Some? then Failure(CartObjection(m, rows, catalog).value)
    else
      match PlaceOrders(m, OrdersFor(rows, catalog, terms), now)
      case Failure(e) => Failure(e)
      case Success(t) => Success(t.(carts := t.carts[cart := []]))
  }

  // ------------------------------------------------- payment and status changes

  function SetStatus(m: Market, order: Id, to: OrderStatus): Market
    requires order < |m.orders|
  {
    m.(orders := m.orders[order := m.orders[order].(status := to)],
       history := m.history + [HistoryRow(order, Some(m.orders[order].status), to)])
  }

  /** `markPaidFromPayment`: confirm the stock and mark the order PAID, once. */
  function MarkPaid(m: Market, order: Id): Result<Market, OrderError> {
    if order >= |m.orders| then Failure(OrderNotFound)
    else if m.orders[order].status.Paid? then Success(m)
    else if !m.orders[order].status.PendingPayment? then Failure(InvalidStatus)
    else
      match Inv.Confirm(m.inv, order)
      case Failure(e) => Failure(Stock(e))
      case Success(inv) => Success(SetStatus(m.(inv := inv), order, Paid))
  }

  function RestockLines(s: Inv.State, lines: seq<OrderLine>): Inv.State {
    if |lines| == 0 then s
    else
      var n := |lines| - 1;
      var before := RestockLines(s, lines[..n]);
      if lines[n].product.None? then before
          else Inv.GiveBack(before, lines[n].product.value, lines[n].warehouse, lines[n].quantity, true)
  }

  predicate WasPaid(status: OrderStatus) {
    status.Paid? || status.Processing? || status.Shipped? || status.Completed? || status.Disputed?
  }

  predicate IsAdmin(role: Role) {
    role.Admin? || role.SuperAdmin?
  }

  /** `updateStatus`; `mayAct` says whether the actor owns the order (or is an administrator). */
  function UpdateStatus(m: Market, role: Role, mayAct: bool, order: Id, to: OrderStatus,
      reasonGiven: bool): Result<Market, OrderError> {
    if order >= |m.orders| then Failure(OrderNotFound)
    else if !mayAct || role.System? then Failure(NotAllowed)
    else
      var from := m.orders[order].status;
      if !CanTransition(role, from, to) then Failure(InvalidStatus)
      else if IsAdmin(role) && (to.Cancelled? || to.Refunded? || to.PartiallyRefunded?) && !reasonGiven
          then Failure(ReasonRequired)
      else
        var inv :=
          if !(to.Cancelled? || to.Refunded?) then m.inv
          else if WasPaid(from) then RestockLines(m.inv, m.orders[order].lines)
          else Inv.ReleaseOrder(m.inv, order);
        Success(SetStatus(m.(inv := inv), order, to))
  }

  /** Provider webhooks (disputes, refunds) write a status over an order whatever it was, outside the machine. */
  function Overwrite(m: Market, order: Id, status: OrderStatus): Market {
    if order < |m.orders| then m.(orders := m.orders[order := m.orders[order].(status := status)]) else m
  }

  // ------------------------------------------------------------------- runs

  datatype Step =
    | AddItemStep(cart: Id, product: Id, quantity: nat, sellable: bool)
    | CheckoutStep(cart: Id, catalog: Catalog, terms: Terms, now: Time)
    | PayStep(order: Id)
    | StatusStep(role: Role, mayAct: bool, order: Id, to: OrderStatus, reasonGiven: bool)
    | ExpireStep(reservation: nat)

  function OrElse(r: Result<Market, OrderError>, m: Market): Market {
    if r.Success? then r.value else m
  }

  function Next(m: Market, step: Step): Market {
    match step
    case AddItemStep(cart, product, quantity, sellable) => AddItem(m, cart, product, quantity, sellable)
    case CheckoutStep(cart, catalog, terms, now) => OrElse(Checkout(m, cart, catalog, terms, now), m)
    case PayStep(order) => OrElse(MarkPaid(m, order), m)
    case StatusStep(role, mayAct, order, to, reason) => OrElse(UpdateStatus(m, role, mayAct, order, to, reason), m)
    case ExpireStep(i) => m.(inv := Inv.ExpireOne(m.inv, i))
  }

  function Run(m: Market, steps: seq<Step>): Market {
    if |steps| == 0 then m else Next(Run(m, steps[..|steps| - 1]), steps[|steps| - 1])
  }
}
