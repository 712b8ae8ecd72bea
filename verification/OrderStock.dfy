/** The net effect of an order on physical stock, over whole runs. */
module OrderStock {
  import opened Common
  import opened Sums
  import opened OrderMachine
  import opened CartSplit
  import opened Orders
  import Inv = Inventory
  import Runs = InventoryRuns

  /** Statuses of an order whose units have left physical stock and not come back. */
  predicate Taken(status: OrderStatus) {
    WasPaid(status) || status.PartiallyRefunded?
  }

  function LineUnits(product: Id): OrderLine -> int {
    (l: OrderLine) => if l.product == Some(product) then l.quantity else 0
  }

  function Units(o: Order, product: Id): int {
    Sum(o.lines, LineUnits(product))
  }

  function TakenUnits(product: Id): Order -> int {
    (o: Order) => if Taken(o.status) then Units(o, product) else 0
  }

  function Stock(s: Inv.State, product: Id): int {
    if product in s.products then s.products[product].stock else 0
  }

  /** Units on the shelf plus units out with orders. */
  function StockAndTaken(m: Market, product: Id): int {
    Stock(m.inv, product) + Sum(m.orders, TakenUnits(product))
  }

  /** Units ever reserved for an order, whatever became of the reservations. */
  function PlacedBy(order: Id, product: Id): Inv.Reservation -> int {
    (r: Inv.Reservation) => if r.order == order && r.product == product then r.quantity else 0
  }

  predicate LinePlaced(s: Inv.State, line: OrderLine) {
    line.product.Some? ==>
      line.quantity > 0 && line.product.value in s.products
          && (line.warehouse.Some? ==> Inv.FindRow(s.rows, line.product.value, line.warehouse.value).Some?)
  }

  ghost predicate OrderPlaced(m: Market, order: Id)
    requires order < |m.orders|
  {
    && (forall i :: 0 <= i < |m.orders[order].lines| ==> LinePlaced(m.inv, m.orders[order].lines[i]))
    && (forall p: Id :: Sum(m.inv.reservations, PlacedBy(order, p)) == Units(m.orders[order], p))
  }

  ghost predicate MarketInv(m: Market) {
    && Inv.Inv(m.inv)
    && (forall o :: 0 <= o < |m.orders| ==> OrderPlaced(m, o))
    && (forall i :: 0 <= i < |m.inv.reservations| ==> m.inv.reservations[i].order < |m.orders|)
    && (forall c :: c in m.carts ==> forall i, j :: 0 <= i < j < |m.carts[c]| ==>
         m.carts[c][i].product != m.carts[c][j].product)
  }

  // --------------------------------------------------- reserving an order's lines

  /** Reservations keep everything but their status. */
  predicate StatusOnly(before: seq<Inv.Reservation>, after: seq<Inv.Reservation>) {
    && |before| <= |after|
    && (forall i :: 0 <= i < |before| ==> after[i] == before[i].(status := after[i].status))
  }

  /** Rows of the table that a sweep at `now` may have expired; every other row is as it was. */
  predicate SweptOnly(before: seq<Inv.Reservation>, after: seq<Inv.Reservation>, now: Time) {
    && |before| <= |after|
    && (forall i :: 0 <= i < |before| ==>
          after[i] == before[i]
          || (before[i].status.Active? && before[i].expiresAt < now && after[i] == before[i].(status := Inv.Expired)))
  }

  /** Row lookups and products stay; physical stock of every product stays. */
  ghost predicate ShelvesSame(s: Inv.State, t: Inv.State) {
    && t.products.Keys == s.products.Keys
    && (forall p :: p in s.products ==> t.products[p].stock == s.products[p].stock)
    && (forall p, w :: Inv.FindRow(s.rows, p, w).Some? ==> Inv.FindRow(t.rows, p, w).Some?)
  }

  function NewReservation(order: Id, line: OrderLine, now: Time): Inv.Reservation
    requires line.product.Some?
  {
    Inv.Reservation(line.product.value, order, line.warehouse, line.quantity, Inv.Active, now + RESERVATION_TTL)
  }

  /** From `s` to `t`: exactly one ACTIVE reservation more per line, at rows that exist. */
  ghost predicate LinesReserved(s: Inv.State, t: Inv.State, order: Id, lines: seq<OrderLine>, now: Time) {
    && ShelvesSame(s, t)
    && SweptOnly(s.reservations, t.reservations, now)
    && |t.reservations| == |s.reservations| + |lines|
    && (forall k :: 0 <= k < |lines| ==>
          && lines[k].product.Some?
          && t.reservations[|s.reservations| + k] == NewReservation(order, lines[k], now)
          && LinePlaced(t, lines[k]))
  }

  lemma {:induction false} ReserveOne(s: Inv.State, order: Id, line: OrderLine, now: Time)
    requires line.product.Some?
    requires Inv.Reserve(s, line.product.value, line.quantity, order, line.warehouse, now, RESERVATION_TTL).Success?
    ensures var t := Inv.Reserve(s, line.product.value, line.quantity, order, line.warehouse, now,
              RESERVATION_TTL).value;
            && ShelvesSame(s, t)
            && t.reservations == Inv.ExpireStale(s.reservations, line.product.value, now)
                 + [NewReservation(order, line, now)]
            && LinePlaced(t, line)
  {
    var t := Inv.Reserve(s, line.product.value, line.quantity, order, line.warehouse, now, RESERVATION_TTL).value;
    Runs.ReserveShape(s, line.product.value, line.quantity, order, line.warehouse, now, RESERVATION_TTL);
    if line.warehouse.Some? {
      ReserveRowsLookups(s.rows, line.product.value, line.warehouse.value, line.quantity,
          s.products[line.product.value].stock);
    }
  }

  lemma {:induction false} ReserveRowsLookups(rows: seq<Inv.StockRow>, product: Id, warehouse: Id,
      quantity: int, legacy: int)
    requires Inv.ReserveRows(rows, product, warehouse, quantity, legacy).Success?
    ensures var after := Inv.ReserveRows(rows, product, warehouse, quantity, legacy).value;
            && (forall p, w :: Inv.FindRow(rows, p, w).Some? ==> Inv.FindRow(after, p, w).Some?)
            && Inv.FindRow(after, product, warehouse).Some?
  {
    var after := Inv.ReserveRows(rows, product, warehouse, quantity, legacy).value;
    forall p, w | Inv.FindRow(rows, p, w).Some? || (p == product && w == warehouse)
        ensures Inv.FindRow(after, p, w).Some? {
      if Inv.FindRow(rows, p, w).Some? {
        var i := Inv.FindRow(rows, p, w).value;
        assert after[i].product == p && after[i].warehouse == w;
      } else {
        assert after[|rows|].product == p && after[|rows|].warehouse == w;
      }
    }
  }

  /** Each line's reservation is tame in the state it meets. */
  predicate TameLines(s: Inv.State, order: Id, lines: seq<OrderLine>, now: Time) {
    |lines| == 0 ||
    var n := |lines| - 1;
    && TameLines(s, order, lines[..n], now)
    && (ReserveLines(s, order, lines[..n], now).Success? && lines[n].product.Some?
        ==> Runs.TameReserve(ReserveLines(s, order, lines[..n], now).value, lines[n].product.value, lines[n].quantity,
            lines[n].warehouse, now))
  }

  lemma {:induction false} LinesReservedOneMore(s: Inv.State, mid: Inv.State, t: Inv.State, order: Id,
      lines: seq<OrderLine>, line: OrderLine, now: Time)
    requires line.product.Some?
    requires LinesReserved(s, mid, order, lines, now)
    requires ShelvesSame(mid, t) && LinePlaced(t, line)
    requires t.reservations == Inv.ExpireStale(mid.reservations, line.product.value, now)
               + [NewReservation(order, line, now)]
    ensures LinesReserved(s, t, order, lines + [line], now)
  {
    forall k | 0 <= k < |lines|
      ensures t.reservations[|s.reservations| + k] == NewReservation(order, lines[k], now) && LinePlaced(t, lines[k])
    {
      assert mid.reservations[|s.reservations| + k] == NewReservation(order, lines[k], now);
    }
  }

  lemma {:induction false} ReserveLinesPlaces(s: Inv.State, order: Id, lines: seq<OrderLine>, now: Time)
    requires Inv.Inv(s) && TameLines(s, order, lines, now)
    requires forall i :: 0 <= i < |lines| ==> lines[i].product.Some?
    requires ReserveLines(s, order, lines, now).Success?
    ensures Inv.Inv(ReserveLines(s, order, lines, now).value)
    ensures LinesReserved(s, ReserveLines(s, order, lines, now).value, order, lines, now)
  {
    hide Inv.Inv, LinesReserved;
    if |lines| == 0 {
      NoLinesReserved(s, order, now);
      assert lines == [];
    } else {
      var n := |lines| - 1;
      ReserveLinesPlaces(s, order, lines[..n], now);
      var mid := ReserveLines(s, order, lines[..n], now).value;
      ReserveOne(mid, order, lines[n], now);
      Runs.ReserveExactly(mid, lines[n].product.value, lines[n].quantity, order, lines[n].warehouse, now,
          RESERVATION_TTL);
      LinesReservedOneMore(s, mid, ReserveLines(s, order, lines, now).value, order, lines[..n], lines[n], now);
      assert lines == lines[..n] + [lines[n]];
    }
  }

  lemma {:induction false} NoLinesReserved(s: Inv.State, order: Id, now: Time)
    ensures LinesReserved(s, s, order, [], now)
  {
  }

  lemma {:induction false} StatusOnlySums(before: seq<Inv.Reservation>, after: seq<Inv.Reservation>)
    requires StatusOnly(before, after)
    ensures forall o, p :: Sum(after[..|before|], PlacedBy(o, p)) == Sum(before, PlacedBy(o, p))
  {
    forall o, p ensures Sum(after[..|before|], PlacedBy(o, p)) == Sum(before, PlacedBy(o, p)) {
      SumSame(after[..|before|], PlacedBy(o, p), before, PlacedBy(o, p));
    }
  }

  /** The table after reserving: the old rows with perhaps other statuses, then one row per line. */
  lemma {:induction false} ReservedTable(s: Inv.State, t: Inv.State, order: Id, lines: seq<OrderLine>, now: Time)
    requires LinesReserved(s, t, order, lines, now)
    ensures var n := |s.reservations|;
            && StatusOnly(s.reservations, t.reservations) && |t.reservations| == n + |lines|
            && t.reservations == t.reservations[..n] + t.reservations[n..]
            && forall k :: 0 <= k < |lines| ==>
                 lines[k].product.Some? && t.reservations[n..][k] == NewReservation(order, lines[k], now)
  {
  }

  lemma {:induction false} NewRowsUnits(new': seq<Inv.Reservation>, order: Id, lines: seq<OrderLine>,
      now: Time, o: Id, p: Id)
    requires |new'| == |lines|
    requires forall k :: 0 <= k < |lines| ==> lines[k].product.Some? && new'[k] == NewReservation(order, lines[k], now)
    ensures Sum(new', PlacedBy(o, p)) == if o == order then Sum(lines, LineUnits(p)) else 0
  {
    if o == order {
      SumSame(new', PlacedBy(o, p), lines, LineUnits(p));
    } else {
      SumZero(new', PlacedBy(o, p));
    }
  }

  /** Reserving for a new order adds exactly its lines' units to its own count, and nothing to any other's. */
  lemma {:induction false} ReservedUnits(s: Inv.State, t: Inv.State, order: Id, lines: seq<OrderLine>, now: Time)
    requires LinesReserved(s, t, order, lines, now)
    requires forall i :: 0 <= i < |s.reservations| ==> s.reservations[i].order != order
    ensures forall p: Id :: Sum(t.reservations, PlacedBy(order, p)) == Sum(lines, LineUnits(p))
    ensures forall o: Id, p: Id :: o != order ==>
              Sum(t.reservations, PlacedBy(o, p)) == Sum(s.reservations, PlacedBy(o, p))
  {
    hide LinesReserved, NewReservation;
    ReservedTable(s, t, order, lines, now);
    StatusOnlySums(s.reservations, t.reservations);
    var n := |s.reservations|;
    forall o: Id, p: Id
      ensures Sum(t.reservations, PlacedBy(o, p)) == Sum(s.reservations, PlacedBy(o, p))
                + (if o == order then Sum(lines, LineUnits(p)) else 0)
    {
      SumConcat(t.reservations[..n], t.reservations[n..], PlacedBy(o, p));
      NewRowsUnits(t.reservations[n..], order, lines, now, o, p);
    }
    forall p: Id ensures Sum(s.reservations, PlacedBy(order, p)) == 0 {
      SumZero(s.reservations, PlacedBy(order, p));
    }
  }

  // ---------------------------------------------------------------- checkout

  /** A market whose reservations only changed status keeps every order placed. */
  lemma {:induction false} ShelvesKeepOrdersPlaced(m: Market, t: Market)
    requires MarketInv(m)
    requires ShelvesKept(m.inv, t.inv) && |t.inv.reservations| == |m.inv.reservations|
               && StatusOnly(m.inv.reservations, t.inv.reservations)
    requires |t.orders| == |m.orders| && forall o :: 0 <= o < |m.orders| ==> t.orders[o].lines == m.orders[o].lines
    ensures forall o :: 0 <= o < |t.orders| ==> OrderPlaced(t, o)
    ensures forall i :: 0 <= i < |t.inv.reservations| ==> t.inv.reservations[i].order < |t.orders|
  {
    StatusOnlySums(m.inv.reservations, t.inv.reservations);
    assert t.inv.reservations[..|m.inv.reservations|] == t.inv.reservations;
    forall o | 0 <= o < |t.orders| ensures OrderPlaced(t, o) {
      assert OrderPlaced(m, o);
      forall i | 0 <= i < |t.orders[o].lines| ensures LinePlaced(t.inv, t.orders[o].lines[i]) {
        assert LinePlaced(m.inv, m.orders[o].lines[i]);
      }
    }
    forall i | 0 <= i < |t.inv.reservations| ensures t.inv.reservations[i].order < |t.orders| {
      assert t.inv.reservations[i] == m.inv.reservations[i].(status := t.inv.reservations[i].status);
    }
  }

  /** Products and row lookups survive; physical stock may move. */
  ghost predicate ShelvesKept(s: Inv.State, t: Inv.State) {
    && t.products.Keys == s.products.Keys
    && (forall p, w :: Inv.FindRow(s.rows, p, w).Some? ==> Inv.FindRow(t.rows, p, w).Some?)
  }

  lemma {:induction false} PlaceOrderKeeps(m: Market, order: Order, now: Time)
    requires MarketInv(m) && order.status.PendingPayment?
    requires forall i :: 0 <= i < |order.lines| ==> order.lines[i].product.Some?
    requires TameLines(m.inv, |m.orders|, order.lines, now)
    requires PlaceOrder(m, order, now).Success?
    ensures var t := PlaceOrder(m, order, now).value;
            && MarketInv(t)
            && t.orders == m.orders + [order] && t.carts == m.carts
            && LinesReserved(m.inv, t.inv, |m.orders|, order.lines, now)
            && (forall p: Id :: StockAndTaken(t, p) == StockAndTaken(m, p))
  {
    hide Inv.Inv, LinesReserved, StockAndTaken, OrderPlaced;
    var t := PlaceOrder(m, order, now).value;
    ReserveLinesPlaces(m.inv, |m.orders|, order.lines, now);
    ReservedUnits(m.inv, t.inv, |m.orders|, order.lines, now);
    ReservedStock(m, t, order, now);
    PlacedOrdersStay(m, t, order, now);
  }

  lemma {:induction false} ReservedStock(m: Market, t: Market, order: Order, now: Time)
    requires order.status.PendingPayment? && t.orders == m.orders + [order]
    requires LinesReserved(m.inv, t.inv, |m.orders|, order.lines, now)
    ensures forall p: Id :: StockAndTaken(t, p) == StockAndTaken(m, p)
  {
    forall p: Id ensures StockAndTaken(t, p) == StockAndTaken(m, p) {
      SumAppend(m.orders, order, TakenUnits(p));
    }
  }

  lemma {:induction false} PlacedOrdersStay(m: Market, t: Market, order: Order, now: Time)
    requires MarketInv(m)
    requires t.orders == m.orders + [order]
    requires LinesReserved(m.inv, t.inv, |m.orders|, order.lines, now)
    requires forall p: Id :: Sum(t.inv.reservations, PlacedBy(|m.orders|, p)) == Sum(order.lines, LineUnits(p))
    requires forall o: Id, p: Id :: o != |m.orders| ==>
               Sum(t.inv.reservations, PlacedBy(o, p)) == Sum(m.inv.reservations, PlacedBy(o, p))
    ensures forall o :: 0 <= o < |t.orders| ==> OrderPlaced(t, o)
    ensures forall i :: 0 <= i < |t.inv.reservations| ==> t.inv.reservations[i].order < |t.orders|
  {
    forall o | 0 <= o < |t.orders| ensures OrderPlaced(t, o) {
      if o < |m.orders| {
        assert OrderPlaced(m, o);
        forall i | 0 <= i < |t.orders[o].lines| ensures LinePlaced(t.inv, t.orders[o].lines[i]) {
          assert LinePlaced(m.inv, m.orders[o].lines[i]);
        }
      }
    }
    var n := |m.inv.reservations|;
    forall i | 0 <= i < |t.inv.reservations| ensures t.inv.reservations[i].order < |t.orders| {
      if i < n {
        assert t.inv.reservations[i] == m.inv.reservations[i].(status := t.inv.reservations[i].status);
      } else {
        assert t.inv.reservations[n + (i - n)] == NewReservation(|m.orders|, order.lines[i - n], now);
      }
    }
  }

  /** Each order of a checkout is tame in the market it meets. */
  predicate TameOrders(m: Market, orders: seq<Order>, now: Time) {
    |orders| == 0 ||
    var n := |orders| - 1;
    && TameOrders(m, orders[..n], now)
    && (PlaceOrders(m, orders[..n], now).Success?
        ==> var mid := PlaceOrders(m, orders[..n], now).value; TameLines(mid.inv, |mid.orders|, orders[n].lines, now))
  }

  predicate FreshOrders(orders: seq<Order>) {
    forall k :: 0 <= k < |orders| ==> orders[k].status.PendingPayment? && forall i :: 0 <= i < |orders[k].lines| ==>
        orders[k].lines[i].product.Some?
  }

  /** The reservations of a run of new orders, in order: one ACTIVE reservation per line. */
  function LineReservations(order: Id, lines: seq<OrderLine>, now: Time): (rs: seq<Inv.Reservation>)
    requires forall i :: 0 <= i < |lines| ==> lines[i].product.Some?
    ensures |rs| == |lines| && forall i :: 0 <= i < |lines| ==> rs[i] == NewReservation(order, lines[i], now)
  {
    seq(|lines|, i requires 0 <= i < |lines| => NewReservation(order, lines[i], now))
  }

  function NewReservations(first: Id, orders: seq<Order>, now: Time): seq<Inv.Reservation>
    requires FreshOrders(orders)
  {
    if |orders| == 0 then []
    else
      var n := |orders| - 1;
      NewReservations(first, orders[..n], now) + LineReservations(first + n, orders[n].lines, now)
  }

  /** From `s` to `t`: stale reservations swept, and exactly these new ones appended. */
  predicate Appended(s: Inv.State, t: Inv.State, new': seq<Inv.Reservation>, now: Time) {
    && SweptOnly(s.reservations, t.reservations, now)
    && t.reservations[|s.reservations|..] == new'
  }

  lemma {:induction false} NewReservationsLast(first: Id, orders: seq<Order>, now: Time)
    requires FreshOrders(orders)
    ensures forall i :: 0 <= i < |NewReservations(first, orders, now)| ==>
              NewReservations(first, orders, now)[i].status.Active?
                  && NewReservations(first, orders, now)[i].expiresAt == now + RESERVATION_TTL
  {
    if |orders| == 0 {
    } else {
      NewReservationsLast(first, orders[..|orders| - 1], now);
    }
  }

  lemma {:induction false} AppendedOneMore(s: Inv.State, mid: Inv.State, t: Inv.State, new': seq<Inv.Reservation>,
      order: Id, lines: seq<OrderLine>, now: Time)
    requires Appended(s, mid, new', now)
    requires forall i :: 0 <= i < |new'| ==> new'[i].expiresAt >= now
    requires LinesReserved(mid, t, order, lines, now)
    requires forall i :: 0 <= i < |lines| ==> lines[i].product.Some?
    ensures Appended(s, t, new' + LineReservations(order, lines, now), now)
  {
    var n := |s.reservations|;
    forall i | n <= i < |mid.reservations| ensures t.reservations[i] == mid.reservations[i] {
      assert mid.reservations[i] == mid.reservations[n..][i - n];
    }
    forall k | 0 <= k < |lines| ensures t.reservations[|mid.reservations| + k]
        == LineReservations(order, lines, now)[k] {
    }
    assert t.reservations[n..] == t.reservations[n..|mid.reservations|] + t.reservations[|mid.reservations|..];
    assert t.reservations[n..|mid.reservations|] == mid.reservations[n..];
    assert t.reservations[|mid.reservations|..] == LineReservations(order, lines, now);
  }

  lemma {:induction false} PlaceOrdersKeeps(m: Market, orders: seq<Order>, now: Time)
    requires MarketInv(m) && FreshOrders(orders) && TameOrders(m, orders, now)
    requires PlaceOrders(m, orders, now).Success?
    ensures var t := PlaceOrders(m, orders, now).value;
            && MarketInv(t)
            && t.orders == m.orders + orders && t.carts == m.carts
            && (forall p: Id :: StockAndTaken(t, p) == StockAndTaken(m, p))
            && Appended(m.inv, t.inv, NewReservations(|m.orders|, orders, now), now)
  {
    hide MarketInv, LinesReserved, StockAndTaken, Appended, PlaceOrder, TameLines;
    if |orders| > 0 {
      var n := |orders| - 1;
      PlaceOrdersKeeps(m, orders[..n], now);
      var mid := PlaceOrders(m, orders[..n], now).value;
      PlaceOrderKeeps(mid, orders[n], now);
      NewReservationsLast(|m.orders|, orders[..n], now);
      AppendedOneMore(m.inv, mid.inv, PlaceOrders(m, orders, now).value.inv,
          NewReservations(|m.orders|, orders[..n], now), |mid.orders|, orders[n].lines, now);
      assert m.orders + orders == (m.orders + orders[..n]) + [orders[n]];
    } else {
      assert m.orders + orders == m.orders;
      NothingAppended(m.inv, now);
    }
  }

  lemma {:induction false} NothingAppended(s: Inv.State, now: Time)
    ensures Appended(s, s, [], now)
  {
  }

  predicate TameCheckout(m: Market, cart: Id, catalog: Catalog, terms: Terms, now: Time) {
    TameOrders(m, OrdersFor(CartOf(m, cart), catalog, terms), now)
  }

  lemma {:induction false} BuiltOrdersFresh(rows: seq<CartRow>, catalog: Catalog, terms: Terms)
    ensures FreshOrders(OrdersFor(rows, catalog, terms))
  {
  }

  /**
   * A successful checkout creates one order per shop of the cart and exactly one ACTIVE reservation per
   * order line, empties the cart, and takes no physical stock.
   */
  lemma {:induction false} CheckoutKeeps(m: Market, cart: Id, catalog: Catalog, terms: Terms, now: Time)
    requires MarketInv(m)
    ensures var r := Checkout(m, cart, catalog, terms, now);
            var orders := OrdersFor(CartOf(m, cart), catalog, terms);
            r.Success? && TameCheckout(m, cart, catalog, terms, now) ==>
              && MarketInv(r.value)
              && (forall p: Id :: StockAndTaken(r.value, p) == StockAndTaken(m, p))
              && r.value.orders == m.orders + orders
              && r.value.carts == m.carts[cart := []]
              && FreshOrders(orders)
              && Appended(m.inv, r.value.inv, NewReservations(|m.orders|, orders, now), now)
  {
    var orders := OrdersFor(CartOf(m, cart), catalog, terms);
    BuiltOrdersFresh(CartOf(m, cart), catalog, terms);
    if Checkout(m, cart, catalog, terms, now).Success? && TameCheckout(m, cart, catalog, terms, now) {
      PlaceOrdersKeeps(m, orders, now);
      EmptyCartKeeps(PlaceOrders(m, orders, now).value, cart);
    }
  }

  lemma {:induction false} EmptyCartKeeps(m: Market, cart: Id)
    requires MarketInv(m)
    ensures MarketInv(m.(carts := m.carts[cart := []]))
    ensures forall p: Id :: StockAndTaken(m.(carts := m.carts[cart := []]), p) == StockAndTaken(m, p)
  {
    OrdersOnly(m, m.(carts := m.carts[cart := []]));
  }

  lemma {:induction false} OrdersOnly(m: Market, t: Market)
    requires t.inv == m.inv && t.orders == m.orders
    requires forall o :: 0 <= o < |m.orders| ==> OrderPlaced(m, o)
    ensures forall o :: 0 <= o < |t.orders| ==> OrderPlaced(t, o)
  {
    forall o | 0 <= o < |t.orders| ensures OrderPlaced(t, o) {
      assert OrderPlaced(m, o);
    }
  }

  lemma {:induction false} AddItemKeeps(m: Market, cart: Id, product: Id, quantity: nat, sellable: bool)
    requires MarketInv(m)
    ensures MarketInv(AddItem(m, cart, product, quantity, sellable))
    ensures forall p: Id :: StockAndTaken(AddItem(m, cart, product, quantity, sellable), p) == StockAndTaken(m, p)
  {
    OrdersOnly(m, AddItem(m, cart, product, quantity, sellable));
  }

  // ----------------------------------------------------------------- payment

  /** Every reservation of the order is still ACTIVE. */
  predicate StillReserved(s: Inv.State, order: Id) {
    forall i :: 0 <= i < |s.reservations| && s.reservations[i].order == order ==> s.reservations[i].status.Active?
  }

  /** Units an order holds fall short of its units exactly when some reservation of it is no longer ACTIVE. */
  lemma {:induction false} HeldAgainstPlaced(reservations: seq<Inv.Reservation>, order: Id)
    requires forall i :: 0 <= i < |reservations| ==> reservations[i].quantity > 0
    ensures forall p: Id :: Sum(reservations, Runs.HeldBy(order, p)) <= Sum(reservations, PlacedBy(order, p))
    ensures (forall p: Id :: Sum(reservations, Runs.HeldBy(order, p)) == Sum(reservations, PlacedBy(order, p)))
            <==> (forall i :: 0 <= i < |reservations| && reservations[i].order == order ==>
                reservations[i].status.Active?)
  {
    forall p: Id ensures Sum(reservations, Runs.HeldBy(order, p)) <= Sum(reservations, PlacedBy(order, p)) {
      SumLe(reservations, Runs.HeldBy(order, p), reservations, PlacedBy(order, p));
    }
    if forall i :: 0 <= i < |reservations| && reservations[i].order == order ==> reservations[i].status.Active? {
      forall p: Id ensures Sum(reservations, Runs.HeldBy(order, p)) == Sum(reservations, PlacedBy(order, p)) {
        SumSame(reservations, Runs.HeldBy(order, p), reservations, PlacedBy(order, p));
      }
    } else {
      var i :| 0 <= i < |reservations| && reservations[i].order == order && !reservations[i].status.Active?;
      StrictlyLess(reservations, order, reservations[i].product, i);
    }
  }

  lemma {:induction false} StrictlyLess(reservations: seq<Inv.Reservation>, order: Id, p: Id, i: nat)
    requires forall k :: 0 <= k < |reservations| ==> reservations[k].quantity > 0
    requires i < |reservations| && reservations[i].order == order && !reservations[i].status.Active?
               && reservations[i].product == p
    ensures Sum(reservations, Runs.HeldBy(order, p)) < Sum(reservations, PlacedBy(order, p))
  {
    var n := |reservations| - 1;
    if i < n {
      StrictlyLess(reservations[..n], order, p, i);
    } else {
      SumLe(reservations[..n], Runs.HeldBy(order, p), reservations[..n], PlacedBy(order, p));
    }
  }

  lemma {:induction false} ConfirmKeepsShelves(s: Inv.State, order: Id)
    requires Inv.Inv(s)
    ensures var r := Inv.Confirm(s, order);
            && r.Success? && Inv.Inv(r.value) && ShelvesKept(s, r.value)
            && |r.value.reservations| == |s.reservations| && StatusOnly(s.reservations, r.value.reservations)
            && (forall p: Id :: Stock(r.value, p)
                                == Stock(s, p) - (if p in s.products then Sum(s.reservations,
                 Runs.HeldBy(order, p)) else 0))
  {
    hide Inv.Inv, Inv.ConfirmEach, Runs.RowExchanged;
    Runs.ConfirmTakesExactly(s, order);
    var t := Inv.Confirm(s, order).value;
    TookKeepsShelves(s, t, order, Inv.Confirmed, 1);
  }

  lemma {:induction false} TookKeepsShelves(s: Inv.State, t: Inv.State, order: Id,
      status: Inv.ReservationStatus, take: int)
    requires Runs.TookExactly(s, t, order, status, take)
    ensures ShelvesKept(s, t)
  {
    forall p, w | Inv.FindRow(s.rows, p, w).Some? ensures Inv.FindRow(t.rows, p, w).Some? {
      var i := Inv.FindRow(s.rows, p, w).value;
      assert Runs.RowExchanged(s.rows[i], t.rows[i], take,
          Sum(s.reservations, Runs.HeldAt(order, s.rows[i].product, Some(s.rows[i].warehouse))), 0);
      assert t.rows[i].product == p && t.rows[i].warehouse == w;
    }
  }

  lemma {:induction false} ReleaseKeepsShelves(s: Inv.State, order: Id)
    requires Inv.Inv(s)
    ensures var t := Inv.ReleaseOrder(s, order);
            && Inv.Inv(t) && ShelvesKept(s, t)
            && |t.reservations| == |s.reservations| && StatusOnly(s.reservations, t.reservations)
            && (forall p: Id :: Stock(t, p) == Stock(s, p))
  {
    hide Inv.Inv, Inv.LetGoEach, Runs.RowExchanged;
    Runs.ReleaseFreesExactly(s, order);
    TookKeepsShelves(s, Inv.ReleaseOrder(s, order), order, Inv.Released, 0);
  }

  /** A new status for one order moves the taken units by that order's units, or not at all. */
  lemma {:induction false} StatusMovesTaken(orders: seq<Order>, o: Id, to: OrderStatus)
    requires o < |orders|
    ensures forall p: Id :: Sum(orders[o := orders[o].(status := to)], TakenUnits(p)) == Sum(orders, TakenUnits(p))
              + (if Taken(to) then Units(orders[o], p) else 0)
                  - (if Taken(orders[o].status) then Units(orders[o], p) else 0)
  {
    forall p: Id
      ensures Sum(orders[o := orders[o].(status := to)], TakenUnits(p)) == Sum(orders, TakenUnits(p))
              + (if Taken(to) then Units(orders[o], p) else 0)
                  - (if Taken(orders[o].status) then Units(orders[o], p) else 0)
    {
      SumUpdate(orders, o, orders[o].(status := to), TakenUnits(p));
    }
  }

  lemma {:induction false} ForeignProductsUnplaced(m: Market, o: Id, p: Id)
    requires MarketInv(m) && o < |m.orders| && p !in m.inv.products
    ensures Units(m.orders[o], p) == 0
    ensures Sum(m.inv.reservations, Runs.HeldBy(o, p)) == 0
  {
    assert OrderPlaced(m, o);
    forall i | 0 <= i < |m.inv.reservations| ensures m.inv.reservations[i].product != p {
      assert Inv.ReservationPlaced(m.inv, m.inv.reservations[i]);
    }
    SumZero(m.inv.reservations, PlacedBy(o, p));
    SumZero(m.inv.reservations, Runs.HeldBy(o, p));
  }

  /**
   * Paying a pending order never fails in a good market, and keeps "shelf plus taken" for every
   * product exactly when every reservation of the order is still ACTIVE.
   */
  lemma {:induction false} PaymentTakesExactly(m: Market, order: Id)
    requires MarketInv(m)
    requires order < |m.orders| && m.orders[order].status.PendingPayment?
    ensures MarkPaid(m, order).Success?
    ensures var t := MarkPaid(m, order).value;
            && MarketInv(t) && t.orders == m.orders[order := m.orders[order].(status := Paid)]
            && ((forall p: Id :: StockAndTaken(t, p) == StockAndTaken(m, p)) <==> StillReserved(m.inv, order))
  {
    hide Inv.Inv, StockAndTaken, OrderPlaced, Inv.Confirm;
    ConfirmKeepsShelves(m.inv, order);
    var t := MarkPaid(m, order).value;
    ShelvesKeepOrdersPlaced(m, t);
    PaidDifference(m, t, order);
    PlacedQuantities(m);
    HeldAgainstPlaced(m.inv.reservations, order);
    assert (forall p: Id :: StockAndTaken(t, p) == StockAndTaken(m, p))
      <==> (forall p: Id :: Sum(m.inv.reservations, Runs.HeldBy(order, p))
                            == Sum(m.inv.reservations, PlacedBy(order, p)));
  }

  lemma {:induction false} PlacedQuantities(m: Market)
    requires MarketInv(m)
    ensures forall i :: 0 <= i < |m.inv.reservations| ==> m.inv.reservations[i].quantity > 0
  {
    forall i | 0 <= i < |m.inv.reservations| ensures m.inv.reservations[i].quantity > 0 {
      assert Inv.ReservationPlaced(m.inv, m.inv.reservations[i]);
    }
  }

  /** What payment changes: the shelf loses what was held, "taken" gains what was placed. */
  lemma {:induction false} PaidDifference(m: Market, t: Market, order: Id)
    requires MarketInv(m) && order < |m.orders| && m.orders[order].status.PendingPayment?
    requires t.orders == m.orders[order := m.orders[order].(status := Paid)]
    requires forall p: Id :: Stock(t.inv, p) == Stock(m.inv, p)
                             - (if p in m.inv.products then Sum(m.inv.reservations, Runs.HeldBy(order, p)) else 0)
    ensures forall p: Id :: StockAndTaken(t, p) - StockAndTaken(m, p)
                            == Sum(m.inv.reservations, PlacedBy(order, p))
                                - Sum(m.inv.reservations, Runs.HeldBy(order, p))
  {
    StatusMovesTaken(m.orders, order, Paid);
    assert OrderPlaced(m, order);
    forall p: Id
      ensures StockAndTaken(t, p) - StockAndTaken(m, p) == Sum(m.inv.reservations, PlacedBy(order, p))
                - Sum(m.inv.reservations, Runs.HeldBy(order, p))
    {
      if p !in m.inv.products {
        ForeignProductsUnplaced(m, order, p);
      }
    }
  }

  // ---------------------------------------------------------- status changes

  predicate TameRestockLines(s: Inv.State, lines: seq<OrderLine>) {
    forall i :: 0 <= i < |lines| && lines[i].product.Some? ==>
        Runs.TameRestock(s, lines[i].product.value, lines[i].warehouse, lines[i].quantity)
  }

  /** Row lookups and row presence are the same in both states. */
  ghost predicate SameRowKeys(s: Inv.State, t: Inv.State) {
    && t.reservations == s.reservations && t.products.Keys == s.products.Keys
    && (forall p :: Inv.HasRows(t.rows, p) == Inv.HasRows(s.rows, p))
    && (forall p, w :: Inv.FindRow(t.rows, p, w) == Inv.FindRow(s.rows, p, w))
  }

  lemma {:induction false} RestockOne(s: Inv.State, line: OrderLine)
    requires Inv.Inv(s)
    requires LinePlaced(s, line) && line.product.Some?
               && Runs.TameRestock(s, line.product.value, line.warehouse, line.quantity)
    ensures var t := Inv.GiveBack(s, line.product.value, line.warehouse, line.quantity, true);
            && Inv.Inv(t) && SameRowKeys(s, t)
            && (forall p: Id :: Stock(t, p) == Stock(s, p) + LineUnits(p)(line))
  {
    Runs.RestockKeepsInv(s, line.product.value, line.warehouse, line.quantity);
    Runs.RestockExact(s, line.product.value, line.warehouse, line.quantity);
  }

  lemma {:induction false} RestockReturnsExactly(s: Inv.State, lines: seq<OrderLine>)
    requires Inv.Inv(s)
    requires TameRestockLines(s, lines)
    requires forall i :: 0 <= i < |lines| ==> LinePlaced(s, lines[i])
    ensures var t := RestockLines(s, lines);
            && Inv.Inv(t) && SameRowKeys(s, t)
            && (forall p: Id :: Stock(t, p) == Stock(s, p) + Sum(lines, LineUnits(p)))
  {
    if |lines| == 0 {
    } else {
      var n := |lines| - 1;
      RestockReturnsExactly(s, lines[..n]);
      if lines[n].product.Some? {
        assert LinePlaced(s, lines[n]);
        RestockOne(RestockLines(s, lines[..n]), lines[n]);
      }
    }
  }

  predicate TameStatus(m: Market, order: Id, to: OrderStatus) {
    order < |m.orders| && (to.Cancelled? || to.Refunded?) && WasPaid(m.orders[order].status) ==>
        TameRestockLines(m.inv, m.orders[order].lines)
  }

  lemma {:induction false} SetStatusKeeps(m: Market, t: Market, order: Id, to: OrderStatus)
    requires MarketInv(m) && order < |m.orders|
    requires Inv.Inv(t.inv) && ShelvesKept(m.inv, t.inv)
    requires |t.inv.reservations| == |m.inv.reservations| && StatusOnly(m.inv.reservations, t.inv.reservations)
    requires t.orders == m.orders[order := m.orders[order].(status := to)] && t.carts == m.carts
    ensures MarketInv(t)
  {
    ShelvesKeepOrdersPlaced(m, t);
  }

  lemma {:induction false} StatusKeeps(m: Market, role: Role, mayAct: bool, order: Id, to: OrderStatus, reason: bool)
    requires MarketInv(m) && TameStatus(m, order, to)
    requires UpdateStatus(m, role, mayAct, order, to, reason).Success?
    ensures var t := UpdateStatus(m, role, mayAct, order, to, reason).value;
            MarketInv(t) && (forall p: Id :: StockAndTaken(t, p) == StockAndTaken(m, p))
  {
    var t := UpdateStatus(m, role, mayAct, order, to, reason).value;
    var from := m.orders[order].status;
    StatusMovesTaken(m.orders, order, to);
    TransitionsMoveForward(role, from, to);
    assert OrderPlaced(m, order);
    if to.Cancelled? || to.Refunded? {
      if WasPaid(from) {
        RestockReturnsExactly(m.inv, m.orders[order].lines);
      } else {
        ReleaseKeepsShelves(m.inv, order);
      }
    }
    SetStatusKeeps(m, t, order, to);
  }

  // ------------------------------------------------- exactly which steps keep it

  /** The market's books are right, and no unit has appeared or vanished between shelf and orders. */
  ghost predicate Kept(m: Market, t: Market) {
    MarketInv(t) && forall p: Id :: StockAndTaken(t, p) == StockAndTaken(m, p)
  }

  lemma {:induction false} LinesExactly(s: Inv.State, order: Id, lines: seq<OrderLine>, now: Time)
    requires Inv.Inv(s) && ReserveLines(s, order, lines, now).Success?
    requires forall i :: 0 <= i < |lines| ==> lines[i].product.Some?
    ensures TameLines(s, order, lines, now) ==> Inv.Inv(ReserveLines(s, order, lines, now).value)
    ensures !TameLines(s, order, lines, now) ==>
              exists p: Id :: Runs.Broken(ReserveLines(s, order, lines, now).value, p, now)
  {
    hide Inv.Inv, Runs.Broken, Inv.Reserve;
    if |lines| == 0 {
    } else {
      var n := |lines| - 1;
      LinesExactly(s, order, lines[..n], now);
      var mid := ReserveLines(s, order, lines[..n], now).value;
      var t := ReserveLines(s, order, lines, now).value;
      var l := lines[n];
      if !TameLines(s, order, lines[..n], now) {
        var p: Id :| Runs.Broken(mid, p, now);
        Runs.ReserveKeepsBroken(mid, p, l.product.value, l.quantity, order, l.warehouse, now, RESERVATION_TTL);
        assert Runs.Broken(t, p, now);
      } else {
        Runs.ReserveExactly(mid, l.product.value, l.quantity, order, l.warehouse, now, RESERVATION_TTL);
        if !Runs.TameReserve(mid, l.product.value, l.quantity, l.warehouse, now) {
          Runs.UntameReserveBreaks(mid, l.product.value, l.quantity, order, l.warehouse, now, RESERVATION_TTL);
          assert Runs.Broken(t, l.product.value, now);
        }
      }
    }
  }

  lemma {:induction false} LinesKeepBroken(s: Inv.State, broken: Id, order: Id, lines: seq<OrderLine>, now: Time)
    requires Runs.Broken(s, broken, now) && ReserveLines(s, order, lines, now).Success?
    ensures Runs.Broken(ReserveLines(s, order, lines, now).value, broken, now)
  {
    hide Runs.Broken, Inv.Reserve;
    if |lines| == 0 {
    } else {
      var n := |lines| - 1;
      LinesKeepBroken(s, broken, order, lines[..n], now);
      if lines[n].product.Some? {
        var mid := ReserveLines(s, order, lines[..n], now).value;
        Runs.ReserveKeepsBroken(mid, broken, lines[n].product.value, lines[n].quantity, order, lines[n].warehouse, now,
            RESERVATION_TTL);
      }
    }
  }

  lemma {:induction false} OrdersExactly(m: Market, orders: seq<Order>, now: Time)
    requires Inv.Inv(m.inv) && FreshOrders(orders) && PlaceOrders(m, orders, now).Success?
    ensures TameOrders(m, orders, now) ==> Inv.Inv(PlaceOrders(m, orders, now).value.inv)
    ensures !TameOrders(m, orders, now) ==> exists p: Id :: Runs.Broken(PlaceOrders(m, orders, now).value.inv, p, now)
  {
    hide Inv.Inv, Runs.Broken, TameLines, ReserveLines, LineAvailable;
    if |orders| == 0 {
    } else {
      var n := |orders| - 1;
      OrdersExactly(m, orders[..n], now);
      var mid := PlaceOrders(m, orders[..n], now).value;
      var t := PlaceOrders(m, orders, now).value;
      if !TameOrders(m, orders[..n], now) {
        var p: Id :| Runs.Broken(mid.inv, p, now);
        LinesKeepBroken(mid.inv, p, |mid.orders|, orders[n].lines, now);
        assert Runs.Broken(t.inv, p, now);
      } else {
        LinesExactly(mid.inv, |mid.orders|, orders[n].lines, now);
        if !TameLines(mid.inv, |mid.orders|, orders[n].lines, now) {
          var p: Id :| Runs.Broken(ReserveLines(mid.inv, |mid.orders|, orders[n].lines, now).value, p, now);
          assert Runs.Broken(t.inv, p, now);
        }
      }
    }
  }

  /** A checkout keeps the books exactly when each of its reservations is tame in the state it meets. */
  lemma {:induction false} CheckoutExactly(m: Market, cart: Id, catalog: Catalog, terms: Terms, now: Time)
    requires MarketInv(m)
    ensures var r := Checkout(m, cart, catalog, terms, now);
            r.Success? ==> (Kept(m, r.value) <==> TameCheckout(m, cart, catalog, terms, now))
  {
    hide Inv.Inv, OrderPlaced, StockAndTaken, PlaceOrders, BuildOrder, FreshOrders, TameOrders;
    var orders := OrdersFor(CartOf(m, cart), catalog, terms);
    BuiltOrdersFresh(CartOf(m, cart), catalog, terms);
    if Checkout(m, cart, catalog, terms, now).Failure? {
    } else if TameCheckout(m, cart, catalog, terms, now) {
      CheckoutKeeps(m, cart, catalog, terms, now);
    } else {
      OrdersExactly(m, orders, now);
      var p: Id :| Runs.Broken(PlaceOrders(m, orders, now).value.inv, p, now);
      Runs.BrokenIsBad(PlaceOrders(m, orders, now).value.inv, p, now);
    }
  }

  /** Units of a product that go back to a warehouse row. */
  function RowUnits(product: Id): OrderLine -> int {
    (l: OrderLine) => if l.product == Some(product) && l.warehouse.Some? then l.quantity else 0
  }

  /** A restock puts its warehouse units on the rows, whatever it does to the aggregate. */
  lemma {:induction false} RestockedRows(s: Inv.State, lines: seq<OrderLine>, product: Id)
    requires Inv.RowsUnique(s.rows) && forall i :: 0 <= i < |lines| ==> LinePlaced(s, lines[i])
    ensures var t := RestockLines(s, lines);
            && Inv.RowsUnique(t.rows) && t.products.Keys == s.products.Keys
            && (forall p, w :: Inv.FindRow(t.rows, p, w) == Inv.FindRow(s.rows, p, w))
            && (forall p :: Inv.HasRows(t.rows, p) == Inv.HasRows(s.rows, p))
            && Sum(t.rows, Inv.Quantity(product)) == Sum(s.rows, Inv.Quantity(product)) + Sum(lines, RowUnits(product))
  {
    hide Inv.RowsUnique, Inv.HasRows, Inv.GiveBack, Inv.FindRow;
    if |lines| == 0 {
    } else {
      var n := |lines| - 1;
      RestockedRows(s, lines[..n], product);
      var l := lines[n];
      assert LinePlaced(s, l);
      if l.product.Some? {
        RestockedLine(RestockLines(s, lines[..n]), l, product);
      }
    }
  }

  lemma {:induction false} RestockedLine(s: Inv.State, l: OrderLine, product: Id)
    requires Inv.RowsUnique(s.rows) && l.product.Some? && l.product.value in s.products
    requires l.warehouse.Some? ==> Inv.FindRow(s.rows, l.product.value, l.warehouse.value).Some?
    ensures var t := Inv.GiveBack(s, l.product.value, l.warehouse, l.quantity, true);
            && Inv.RowsUnique(t.rows) && t.products.Keys == s.products.Keys
            && (forall p, w :: Inv.FindRow(t.rows, p, w) == Inv.FindRow(s.rows, p, w))
            && (forall p :: Inv.HasRows(t.rows, p) == Inv.HasRows(s.rows, p))
            && Sum(t.rows, Inv.Quantity(product)) == Sum(s.rows, Inv.Quantity(product)) + RowUnits(product)(l)
  {
    hide Inv.RowsUnique, Inv.HasRows;
    if l.warehouse.Some? {
      var found := Inv.FindRow(s.rows, l.product.value, l.warehouse.value).value;
      var row := s.rows[found].(quantity := s.rows[found].quantity + l.quantity);
      Inv.RowUpdate(s.rows, found, row);
      assert Inv.GiveBack(s, l.product.value, l.warehouse, l.quantity, true).rows == s.rows[found := row];
    }
  }

  /** Units of a product with no line at a warehouse simply join its stock. */
  lemma {:induction false} RestockedPlainly(s: Inv.State, lines: seq<OrderLine>, product: Id)
    requires forall i :: 0 <= i < |lines| && lines[i].product == Some(product) ==>
               lines[i].warehouse.None? && product in s.products
    ensures RestockLines(s, lines).products.Keys == s.products.Keys
    ensures Stock(RestockLines(s, lines), product) == Stock(s, product) + Sum(lines, LineUnits(product))
  {
    if |lines| == 0 {
    } else {
      RestockedPlainly(s, lines[..|lines| - 1], product);
    }
  }

  predicate AtWarehouse(lines: seq<OrderLine>, product: Id) {
    exists i :: 0 <= i < |lines| && lines[i].product == Some(product) && lines[i].warehouse.Some?
  }

  /** A product with rows ends in the books only with the units that went to its rows. */
  lemma {:induction false} RestockedInBooks(s: Inv.State, lines: seq<OrderLine>, product: Id)
    requires Inv.Inv(s) && Inv.Inv(RestockLines(s, lines)) && product in s.products && Inv.HasRows(s.rows, product)
    requires forall i :: 0 <= i < |lines| ==> LinePlaced(s, lines[i])
    ensures Stock(RestockLines(s, lines), product) == Stock(s, product) + Sum(lines, RowUnits(product))
  {
    RestockedRows(s, lines, product);
    Runs.StockOf(s, product);
    Runs.StockOf(RestockLines(s, lines), product);
  }

  lemma {:induction false} MoreThanRowUnits(lines: seq<OrderLine>, i: nat, product: Id)
    requires i < |lines| && lines[i].product == Some(product) && lines[i].warehouse.None? && lines[i].quantity > 0
    ensures Sum(lines, RowUnits(product)) < Sum(lines, LineUnits(product))
  {
    var n := |lines| - 1;
    if i == n {
      SumLe(lines[..n], RowUnits(product), lines[..n], LineUnits(product));
    } else {
      MoreThanRowUnits(lines[..n], i, product);
    }
  }

  /** An untame restock is not in the books with all its units back. */
  lemma {:induction false} UntameRestock(s: Inv.State, lines: seq<OrderLine>)
    requires Inv.Inv(s) && !TameRestockLines(s, lines)
    requires forall i :: 0 <= i < |lines| ==> LinePlaced(s, lines[i])
    ensures var t := RestockLines(s, lines);
            !(Inv.Inv(t) && forall p: Id :: Stock(t, p) == Stock(s, p) + Sum(lines, LineUnits(p)))
  {
    hide Inv.Inv;
    var i :| 0 <= i < |lines| && lines[i].product.Some?
             && !Runs.TameRestock(s, lines[i].product.value, lines[i].warehouse, lines[i].quantity);
    var p := lines[i].product.value;
    MoreThanRowUnits(lines, i, p);
    if Inv.Inv(RestockLines(s, lines)) {
      RestockedInBooks(s, lines, p);
    }
  }

  /** A status change keeps the market exactly when every unit it takes back is restocked where the books count it. */
  lemma {:induction false} StatusExactly(m: Market, role: Role, mayAct: bool, order: Id, to: OrderStatus, reason: bool)
    requires MarketInv(m) && UpdateStatus(m, role, mayAct, order, to, reason).Success?
    ensures Kept(m, UpdateStatus(m, role, mayAct, order, to, reason).value) <==> TameStatus(m, order, to)
  {
    hide TameRestockLines;
    if TameStatus(m, order, to) {
      StatusKeeps(m, role, mayAct, order, to, reason);
    } else {
      var t := UpdateStatus(m, role, mayAct, order, to, reason).value;
      StatusMovesTaken(m.orders, order, to);
      assert OrderPlaced(m, order);
      UntameRestock(m.inv, m.orders[order].lines);
      assert t.inv == RestockLines(m.inv, m.orders[order].lines);
      assert t.orders == m.orders[order := m.orders[order].(status := to)];
      if forall p: Id :: StockAndTaken(t, p) == StockAndTaken(m, p) {
        forall p: Id ensures Stock(t.inv, p) == Stock(m.inv, p) + Sum(m.orders[order].lines, LineUnits(p)) {
          assert StockAndTaken(t, p) == StockAndTaken(m, p);
        }
      }
    }
  }

  /** Does an order name any product of the catalogue? */
  predicate HasUnits(o: Order) {
    exists i :: 0 <= i < |o.lines| && o.lines[i].product.Some?
  }

  lemma {:induction false} UnitsOfLine(lines: seq<OrderLine>, i: nat)
    requires i < |lines| && lines[i].product.Some? && lines[i].quantity > 0
    ensures Sum(lines, LineUnits(lines[i].product.value)) > 0
  {
    SumAtLeastRow(lines, i, LineUnits(lines[i].product.value));
  }

  lemma {:induction false} UnitsExactly(m: Market, o: Id)
    requires MarketInv(m) && o < |m.orders|
    ensures HasUnits(m.orders[o]) <==> exists p: Id :: Units(m.orders[o], p) != 0
  {
    assert OrderPlaced(m, o);
    var lines := m.orders[o].lines;
    if HasUnits(m.orders[o]) {
      var i :| 0 <= i < |lines| && lines[i].product.Some?;
      assert LinePlaced(m.inv, lines[i]);
      UnitsOfLine(lines, i);
      assert Units(m.orders[o], lines[i].product.value) != 0;
    } else {
      forall p: Id ensures Units(m.orders[o], p) == 0 {
        SumZero(lines, LineUnits(p));
      }
    }
  }

  /**
   * A dispute webhook writes DISPUTED over any status, and an administrator can then cancel: a tame
   * restock puts the order's units on the shelf, whether or not they had ever left it. The market is
   * kept exactly when the restock is tame and the units had left, if there are any.
   */
  lemma {:induction false} DisputeThenCancel(m: Market, order: Id)
    requires MarketInv(m) && order < |m.orders|
    ensures var r := UpdateStatus(Overwrite(m, order, Disputed), Admin, true, order, Cancelled, true);
            && r.Success?
            && (TameRestockLines(m.inv, m.orders[order].lines) ==>
                  forall p: Id :: Stock(r.value.inv, p) == Stock(m.inv, p) + Units(m.orders[order], p))
            && (Kept(m, r.value)
                <==> TameRestockLines(m.inv, m.orders[order].lines)
                     && (Taken(m.orders[order].status) || !HasUnits(m.orders[order])))
  {
    hide TameRestockLines, Inv.Inv;
    var lines := m.orders[order].lines;
    assert OrderPlaced(m, order);
    var d := Overwrite(m, order, Disputed);
    var t := UpdateStatus(d, Admin, true, order, Cancelled, true).value;
    assert t.orders == m.orders[order := m.orders[order].(status := Cancelled)];
    assert t.inv == RestockLines(m.inv, lines);
    StatusMovesTaken(m.orders, order, Cancelled);
    UnitsExactly(m, order);
    if TameRestockLines(m.inv, lines) {
      RestockReturnsExactly(m.inv, lines);
      SetStatusKeeps(m, t, order, Cancelled);
    } else if Taken(m.orders[order].status) {
      UntameRestock(m.inv, lines);
    } else {
      UntameUntaken(m.inv, lines);
    }
    forall p: Id
      ensures StockAndTaken(t, p) - StockAndTaken(m, p)
              == Stock(t.inv, p) - Stock(m.inv, p)
                  - (if Taken(m.orders[order].status) then Units(m.orders[order], p) else 0)
    {
    }
  }

  /** Nor does an untame restock of units that never left leave shelf and books as they were. */
  lemma {:induction false} UntameUntaken(s: Inv.State, lines: seq<OrderLine>)
    requires Inv.Inv(s) && !TameRestockLines(s, lines)
    requires forall i :: 0 <= i < |lines| ==> LinePlaced(s, lines[i])
    ensures var t := RestockLines(s, lines);
            !(Inv.Inv(t) && forall p: Id :: Stock(t, p) == Stock(s, p))
  {
    hide Inv.Inv;
    var i :| 0 <= i < |lines| && lines[i].product.Some?
             && !Runs.TameRestock(s, lines[i].product.value, lines[i].warehouse, lines[i].quantity);
    var p := lines[i].product.value;
    var t := RestockLines(s, lines);
    if Inv.Inv(t) && Stock(t, p) == Stock(s, p) {
      RestockedInBooks(s, lines, p);
      MoreThanRowUnits(lines, i, p);
      if AtWarehouse(lines, p) {
        RowUnitsPositive(s, lines, p);
      } else {
        forall k | 0 <= k < |lines| && lines[k].product == Some(p) ensures lines[k].warehouse.None? && p in s.products {
          assert LinePlaced(s, lines[k]);
        }
        RestockedPlainly(s, lines, p);
        SumZero(lines, RowUnits(p));
      }
    }
  }

  lemma {:induction false} RowUnitsPositive(s: Inv.State, lines: seq<OrderLine>, product: Id)
    requires AtWarehouse(lines, product) && forall i :: 0 <= i < |lines| ==> LinePlaced(s, lines[i])
    ensures Sum(lines, RowUnits(product)) > 0
  {
    var i :| 0 <= i < |lines| && lines[i].product == Some(product) && lines[i].warehouse.Some?;
    assert LinePlaced(s, lines[i]);
    SumAtLeastRow(lines, i, RowUnits(product));
  }

  /**
   * A webhook's status keeps the market exactly when it leaves the order on the same side of the shelf, or the
   * order has no units.
   */
  lemma {:induction false} OverwriteExactly(m: Market, order: Id, status: OrderStatus)
    requires MarketInv(m) && order < |m.orders|
    ensures Kept(m, Overwrite(m, order, status))
            <==> Taken(status) == Taken(m.orders[order].status) || !HasUnits(m.orders[order])
  {
    var t := Overwrite(m, order, status);
    SetStatusKeeps(m, t, order, status);
    StatusMovesTaken(m.orders, order, status);
    UnitsExactly(m, order);
    forall p: Id
      ensures StockAndTaken(t, p) - StockAndTaken(m, p)
              == (if Taken(status) then Units(m.orders[order], p) else 0)
                  - (if Taken(m.orders[order].status) then Units(m.orders[order], p) else 0)
    {
    }
  }

  // ------------------------------------------------------------------- runs

  /** What happens to a market: the service's own steps, and statuses written by provider webhooks. */
  datatype Event = Does(step: Step) | Overwrites(order: Id, status: OrderStatus)

  function After(m: Market, e: Event): Market {
    match e
    case Does(step) => Next(m, step)
    case Overwrites(order, status) => Overwrite(m, order, status)
  }

  function RunEvents(m: Market, events: seq<Event>): Market {
    if |events| == 0 then m else After(RunEvents(m, events[..|events| - 1]), events[|events| - 1])
  }

  predicate Tame(m: Market, e: Event) {
    match e
    case Does(AddItemStep(_, _, _, _)) => true
    case Does(CheckoutStep(cart, catalog, terms, now)) =>
      Checkout(m, cart, catalog, terms, now).Success? ==> TameCheckout(m, cart, catalog, terms, now)
    case Does(PayStep(order)) => order < |m.orders| && m.orders[order].status.PendingPayment? ==>
        StillReserved(m.inv, order)
    case Does(StatusStep(role, mayAct, order, to, reason)) =>
      UpdateStatus(m, role, mayAct, order, to, reason).Success? ==> TameStatus(m, order, to)
    case Does(ExpireStep(_)) => true
    case Overwrites(order, status) =>
      order < |m.orders| ==> Taken(status) == Taken(m.orders[order].status) || !HasUnits(m.orders[order])
  }

  predicate TameRun(m: Market, events: seq<Event>) {
    |events| == 0 || (TameRun(m, events[..|events| - 1])
        && Tame(RunEvents(m, events[..|events| - 1]), events[|events| - 1]))
  }

  lemma {:induction false} ExpireKeeps(m: Market, i: nat)
    requires MarketInv(m)
    ensures MarketInv(m.(inv := Inv.ExpireOne(m.inv, i)))
    ensures forall p: Id :: StockAndTaken(m.(inv := Inv.ExpireOne(m.inv, i)), p) == StockAndTaken(m, p)
  {
    hide Inv.Inv, Inv.LetGoOne, Inv.Closes, Runs.Exchanged;
    var t := m.(inv := Inv.ExpireOne(m.inv, i));
    if i < |m.inv.reservations| && m.inv.reservations[i].status.Active? {
      Runs.LetGoOneMore(m.inv, i, Inv.Expired);
      Inv.LetGoOneCloses(m.inv, i, Inv.Expired);
      ClosedKeepsShelves(m.inv, t.inv, i, Inv.Expired);
      ShelvesKeepOrdersPlaced(m, t);
    } else {
      OrdersOnly(m, t);
    }
  }

  lemma {:induction false} ClosedKeepsShelves(s: Inv.State, t: Inv.State, i: nat, status: Inv.ReservationStatus)
    requires i < |s.reservations| && Inv.Closes(s, t, i, status, 0)
    ensures ShelvesKept(s, t) && forall p: Id :: Stock(t, p) == Stock(s, p)
    ensures |t.reservations| == |s.reservations| && StatusOnly(s.reservations, t.reservations)
  {
    forall p, w | Inv.FindRow(s.rows, p, w).Some? ensures Inv.FindRow(t.rows, p, w).Some? {
      var k := Inv.FindRow(s.rows, p, w).value;
      assert t.rows[k].product == p && t.rows[k].warehouse == w;
    }
  }

  lemma {:induction false} SameMarketKept(m: Market)
    requires MarketInv(m)
    ensures Kept(m, m)
  {
  }

  /** An event keeps the market exactly when it is tame. */
  lemma {:induction false} EventExactly(m: Market, e: Event)
    requires MarketInv(m)
    ensures Kept(m, After(m, e)) <==> Tame(m, e)
  {
    hide MarketInv, StockAndTaken, TameCheckout, TameStatus, StillReserved, Checkout, UpdateStatus, MarkPaid,
        Inv.ExpireOne, AddItem;
    SameMarketKept(m);
    match e
    case Does(AddItemStep(cart, product, quantity, sellable)) => AddItemKeeps(m, cart, product, quantity, sellable);
    case Does(CheckoutStep(cart, catalog, terms, now)) =>
      if Checkout(m, cart, catalog, terms, now).Success? {
        CheckoutExactly(m, cart, catalog, terms, now);
      }
    case Does(PayStep(order)) => PayExactly(m, order);
    case Does(StatusStep(role, mayAct, order, to, reason)) =>
      if UpdateStatus(m, role, mayAct, order, to, reason).Success? {
        StatusExactly(m, role, mayAct, order, to, reason);
      }
    case Does(ExpireStep(i)) => ExpireKeeps(m, i);
    case Overwrites(order, status) =>
      if order < |m.orders| {
        OverwriteExactly(m, order, status);
      }
  }

  lemma {:induction false} PayExactly(m: Market, order: Id)
    requires MarketInv(m)
    ensures Kept(m, OrElse(MarkPaid(m, order), m)) <==>
              (order < |m.orders| && m.orders[order].status.PendingPayment? ==> StillReserved(m.inv, order))
  {
    hide MarketInv, StockAndTaken, StillReserved, Inv.Confirm;
    SameMarketKept(m);
    if order < |m.orders| && m.orders[order].status.PendingPayment? {
      PaymentTakesExactly(m, order);
    }
  }

  lemma {:induction false} KeptChain(m: Market, mid: Market, t: Market)
    requires Kept(m, mid)
    ensures Kept(m, t) <==> Kept(mid, t)
  {
  }

  lemma {:induction false} RunKeeps(m: Market, events: seq<Event>)
    requires MarketInv(m) && TameRun(m, events)
    ensures Kept(m, RunEvents(m, events))
  {
    hide MarketInv, StockAndTaken, Tame, After, Kept;
    if |events| == 0 {
      SameMarketKept(m);
    } else {
      var mid := RunEvents(m, events[..|events| - 1]);
      RunKeeps(m, events[..|events| - 1]);
      KeptIsGood(m, mid);
      EventExactly(mid, events[|events| - 1]);
      KeptChain(m, mid, RunEvents(m, events));
    }
  }

  lemma {:induction false} KeptIsGood(m: Market, t: Market)
    requires Kept(m, t)
    ensures MarketInv(t)
  {
  }

  /** A run keeps the market all along exactly when every event is tame where it happens. */
  lemma {:induction false} MarketKeptExactly(m: Market, events: seq<Event>)
    requires MarketInv(m)
    ensures TameRun(m, events) <==> forall n: nat :: n <= |events| ==> Kept(m, RunEvents(m, events[..n]))
  {
    hide MarketInv, StockAndTaken, Tame, After, Kept;
    if |events| == 0 {
      SameMarketKept(m);
      assert events[..0] == events;
    } else {
      var last := |events| - 1;
      var before := events[..last];
      MarketKeptExactly(m, before);
      forall n: nat | n <= last ensures events[..n] == before[..n] {
      }
      assert events[..|events|] == events;
      if TameRun(m, before) {
        var mid := RunEvents(m, before);
        RunKeeps(m, before);
        KeptIsGood(m, mid);
        EventExactly(mid, events[last]);
        KeptChain(m, mid, RunEvents(m, events));
      }
    }
  }

  /**
   * Per-order stock effect over every tame run from a market without orders: each product's physical
   * stock is what it was, less exactly the units of the orders that are paid and not closed again.
   */
  lemma {:induction false} PerOrderStockEffect(m: Market, events: seq<Event>, product: Id)
    requires MarketInv(m) && m.orders == [] && TameRun(m, events)
    ensures Stock(RunEvents(m, events).inv, product)
              == Stock(m.inv, product) - Sum(RunEvents(m, events).orders, TakenUnits(product))
  {
    RunKeeps(m, events);
    assert StockAndTaken(RunEvents(m, events), product) == StockAndTaken(m, product) == Stock(m.inv, product);
  }

  // ------------------------------------- what any checkout does, tame or not

  /** What was appended on the way is not swept later: it expires after `now`. */
  lemma {:induction false} AppendedChain(s: Inv.State, mid: Inv.State, t: Inv.State, a: seq<Inv.Reservation>,
      b: seq<Inv.Reservation>, now: Time)
    requires Appended(s, mid, a, now) && Appended(mid, t, b, now)
    requires forall i :: 0 <= i < |a| ==> a[i].expiresAt >= now
    ensures Appended(s, t, a + b, now)
  {
    var n := |s.reservations|;
    forall i | n <= i < |mid.reservations| ensures t.reservations[i] == mid.reservations[i] {
      assert mid.reservations[i] == mid.reservations[n..][i - n];
    }
    assert t.reservations[n..] == t.reservations[n..|mid.reservations|] + t.reservations[|mid.reservations|..];
    assert t.reservations[n..|mid.reservations|] == mid.reservations[n..];
  }

  lemma {:induction false} ReserveAppends(s: Inv.State, order: Id, line: OrderLine, now: Time)
    requires line.product.Some?
    requires Inv.Reserve(s, line.product.value, line.quantity, order, line.warehouse, now, RESERVATION_TTL).Success?
    ensures var t := Inv.Reserve(s, line.product.value, line.quantity, order, line.warehouse, now,
              RESERVATION_TTL).value;
            Appended(s, t, [NewReservation(order, line, now)], now) && forall p: Id :: Stock(t, p) == Stock(s, p)
  {
    Runs.ReserveShape(s, line.product.value, line.quantity, order, line.warehouse, now, RESERVATION_TTL);
    hide Inv.Reserve, Inv.ReserveRows, Inv.GetAvailable;
  }

  lemma {:induction false} LinesAppend(s: Inv.State, order: Id, lines: seq<OrderLine>, now: Time)
    requires forall i :: 0 <= i < |lines| ==> lines[i].product.Some?
    requires ReserveLines(s, order, lines, now).Success?
    ensures var t := ReserveLines(s, order, lines, now).value;
            Appended(s, t, LineReservations(order, lines, now), now) && forall p: Id :: Stock(t, p) == Stock(s, p)
  {
    hide Inv.Reserve, Appended;
    if |lines| == 0 {
      NothingAppended(s, now);
    } else {
      var n := |lines| - 1;
      LinesAppend(s, order, lines[..n], now);
      var mid := ReserveLines(s, order, lines[..n], now).value;
      ReserveAppends(mid, order, lines[n], now);
      AppendedChain(s, mid, ReserveLines(s, order, lines, now).value, LineReservations(order, lines[..n], now),
          [NewReservation(order, lines[n], now)], now);
      assert LineReservations(order, lines, now) == LineReservations(order, lines[..n], now)
          + [NewReservation(order, lines[n], now)];
    }
  }

  lemma {:induction false} OrdersAppend(m: Market, orders: seq<Order>, now: Time)
    requires FreshOrders(orders) && PlaceOrders(m, orders, now).Success?
    ensures var t := PlaceOrders(m, orders, now).value;
            && Appended(m.inv, t.inv, NewReservations(|m.orders|, orders, now), now)
            && t.carts == m.carts && forall p: Id :: Stock(t.inv, p) == Stock(m.inv, p)
  {
    hide Appended, ReserveLines, LineAvailable, Stock;
    if |orders| == 0 {
      NothingAppended(m.inv, now);
    } else {
      var n := |orders| - 1;
      OrdersAppend(m, orders[..n], now);
      var mid := PlaceOrders(m, orders[..n], now).value;
      PlaceOrdersAppends(m, orders[..n], now);
      LinesAppend(mid.inv, |mid.orders|, orders[n].lines, now);
      NewReservationsLast(|m.orders|, orders[..n], now);
      AppendedChain(m.inv, mid.inv, PlaceOrders(m, orders, now).value.inv,
          NewReservations(|m.orders|, orders[..n], now),
                    LineReservations(|m.orders| + n, orders[n].lines, now), now);
    }
  }

  /**
   * Any successful checkout creates one order per shop and exactly one ACTIVE reservation per order line,
   * in order, empties the cart, sweeps at most stale reservations, and takes no physical stock.
   */
  lemma {:induction false} CheckoutReserves(m: Market, cart: Id, catalog: Catalog, terms: Terms, now: Time)
    ensures var r := Checkout(m, cart, catalog, terms, now);
            var orders := OrdersFor(CartOf(m, cart), catalog, terms);
            r.Success? ==>
              && FreshOrders(orders) && |orders| == |ShopsOf(Resolve(CartOf(m, cart), catalog))| > 0
              && r.value.orders == m.orders + orders && r.value.carts == m.carts[cart := []]
              && Appended(m.inv, r.value.inv, NewReservations(|m.orders|, orders, now), now)
              && (forall p: Id :: Stock(r.value.inv, p) == Stock(m.inv, p))
  {
    hide Appended, PlaceOrders, BuildOrder, FreshOrders, Stock;
    var orders := OrdersFor(CartOf(m, cart), catalog, terms);
    BuiltOrdersFresh(CartOf(m, cart), catalog, terms);
    CheckoutAppends(m, cart, catalog, terms, now);
    if Checkout(m, cart, catalog, terms, now).Success? {
      OrdersAppend(m, orders, now);
    }
  }

  // ----------------------------------------------- orders only move forward

  /** The order's lines stay, and its status stays or moves strictly forward. */
  predicate Forward(before: Order, after: Order) {
    after.lines == before.lines && (after.status == before.status || Rank(before.status) < Rank(after.status))
  }

  lemma {:induction false} StatusMovesForward(m: Market, role: Role, mayAct: bool, order: Id,
      to: OrderStatus, reason: bool)
    requires UpdateStatus(m, role, mayAct, order, to, reason).Success?
    ensures order < |m.orders|
    ensures UpdateStatus(m, role, mayAct, order, to, reason).value.orders
              == m.orders[order := m.orders[order].(status := to)]
    ensures Rank(m.orders[order].status) < Rank(to)
  {
    TransitionsMoveForward(role, m.orders[order].status, to);
  }

  lemma {:induction false} CheckoutAppends(m: Market, cart: Id, catalog: Catalog, terms: Terms, now: Time)
    ensures var r := Checkout(m, cart, catalog, terms, now);
            r.Success? ==> r.value.orders == m.orders + OrdersFor(CartOf(m, cart), catalog, terms)
  {
    hide OrdersFor, PlaceOrders;
    if Checkout(m, cart, catalog, terms, now).Success? {
      PlaceOrdersAppends(m, OrdersFor(CartOf(m, cart), catalog, terms), now);
    }
  }

  /** In any run, tame or not, an order keeps its lines, and its status stays or moves strictly forward. */
  lemma {:induction false} StepMovesForward(m: Market, step: Step, o: Id)
    requires o < |m.orders|
    ensures o < |Next(m, step).orders| && Forward(m.orders[o], Next(m, step).orders[o])
  {
    hide Checkout, UpdateStatus, Inv.Confirm, Inv.ExpireOne;
    match step
    case CheckoutStep(cart, catalog, terms, now) =>
      if Checkout(m, cart, catalog, terms, now).Success? {
        CheckoutAppends(m, cart, catalog, terms, now);
      }
    case StatusStep(role, mayAct, order, to, reason) =>
      if UpdateStatus(m, role, mayAct, order, to, reason).Success? {
        StatusMovesForward(m, role, mayAct, order, to, reason);
      }
    case _ =>
  }

  lemma {:induction false} PlaceOrdersAppends(m: Market, orders: seq<Order>, now: Time)
    requires PlaceOrders(m, orders, now).Success?
    ensures PlaceOrders(m, orders, now).value.orders == m.orders + orders
  {
    if |orders| > 0 {
      PlaceOrdersAppends(m, orders[..|orders| - 1], now);
      assert m.orders + orders == (m.orders + orders[..|orders| - 1]) + [orders[|orders| - 1]];
    } else {
      assert m.orders + orders == m.orders;
    }
  }

  /** Units come back at most once: an order that is neither pending nor out with its units never moves again. */
  lemma {:induction false} ReturnedOrdersAreClosed(m: Market, steps: seq<Step>, o: Id)
    requires o < |m.orders|
    requires !m.orders[o].status.PendingPayment? && !Taken(m.orders[o].status)
    ensures o < |Run(m, steps).orders| && Run(m, steps).orders[o].status == m.orders[o].status
  {
    if |steps| == 0 {
    } else {
      ReturnedOrdersAreClosed(m, steps[..|steps| - 1], o);
      var mid := Run(m, steps[..|steps| - 1]);
      StepMovesForward(mid, steps[|steps| - 1], o);
    }
  }
}
