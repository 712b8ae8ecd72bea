/** The orders service over mutable tables; its loops refine the operations of module Orders. */
module OrdersService {
  import opened Common
  import opened Sums
  import opened OrderMachine
  import opened CartSplit
  import opened Orders
  import T = Tax
  import Inv = Inventory
  import S = InventoryService

  class OrdersService {
    const inventory: S.InventoryService
    var orders: seq<Order>
    var history: seq<HistoryRow>
    var carts: map<Id, seq<CartRow>>

    constructor (inventory: S.InventoryService)
      ensures this.inventory == inventory && orders == [] && history == [] && carts == map[]
    {
      this.inventory := inventory;
      orders, history, carts := [], [], map[];
    }

    function Current(): Market
      reads this, inventory
    {
      Market(inventory.Tables(), orders, history, carts)
    }

    /** Puts every table back: the enclosing transaction rolls back. */
    method RollBack(m: Market)
      modifies this, inventory
      ensures Current() == m
    {
      inventory.products, inventory.rows, inventory.reservations := m.inv.products, m.inv.rows, m.inv.reservations;
      orders, history, carts := m.orders, m.history, m.carts;
    }

    /** The order of one shop: lines in cart order, each with the tax found for its product. */
    method AssembleOrder(shop: Id, items: seq<CartItem>, shippingCents: nat, terms: Terms) returns (order: Order)
      ensures order == BuildOrder(shop, items, shippingCents, terms)
    {
      var subtotal := SumNat(items, Goods());
      var commission := RoundDiv(subtotal * COMMISSION_BPS, 10000);
      var tax := T.Calculate(TaxInputs(items), terms.rates);
      var warehouse := terms.warehouse(shop);
      var lines: seq<OrderLine> := [];
      for k := 0 to |items|
        invariant |lines| == k
        invariant forall i :: 0 <= i < k ==> lines[i] == LineOf(items[i], warehouse, tax.items)
      {
        lines := lines + [LineOf(items[k], warehouse, tax.items)];
      }
      SumNonNegative(tax.items, T.TaxOf());
      order := Order(shop, PendingPayment, lines, subtotal, tax.taxCents, commission, shippingCents,
          subtotal + tax.taxCents + shippingCents);
      assert lines == LinesOf(items, warehouse, tax.items);
    }

    /** Reserves line by line; on the first failure the caller rolls back. */
    method ReserveAll(order: Id, lines: seq<OrderLine>, now: Time) returns (ok: bool, error: Inv.StockError)
      requires forall i :: 0 <= i < |lines| ==> lines[i].product.Some?
      modifies inventory
      ensures ok ==> ReserveLines(old(inventory.Tables()), order, lines, now) == Result.Success(inventory.Tables())
      ensures !ok ==> ReserveLines(old(inventory.Tables()), order, lines, now) == Result.Failure(error)
    {
      hide Inv.Reserve;
      ghost var s0 := inventory.Tables();
      error := Inv.StockFail;
      for k := 0 to |lines|
        invariant ReserveLines(s0, order, lines[..k], now) == Result.Success(inventory.Tables())
      {
        assert lines[..k + 1][..k] == lines[..k];
        var r := inventory.Reserve(lines[k].product.value, lines[k].quantity, order, lines[k].warehouse, now,
            RESERVATION_TTL);
        if r.Failure? {
          ReserveFailsWhole(s0, order, lines, k + 1, now);
          return false, r.error;
        }
      }
      assert lines[..|lines|] == lines;
      return true, error;
    }

    /** One turn of the checkout loop. */
    method Place(order: Order, now: Time) returns (r: Result<Id, OrderError>)
      requires forall i :: 0 <= i < |order.lines| ==> order.lines[i].product.Some?
      modifies this, inventory
      ensures r.Success? ==> PlaceOrder(old(Current()), order, now) == Result.Success(Current())
      ensures r.Success? ==> r.value == |old(orders)| && orders == old(orders) + [order]
      ensures r.Failure? ==> PlaceOrder(old(Current()), order, now) == Result.Failure(r.error)
    {
      for i := 0 to |order.lines|
        invariant forall k :: 0 <= k < i ==> LineAvailable(inventory.Tables(), order.lines[k], now)
      {
        if !LineAvailable(inventory.Tables(), order.lines[i], now) {
          return Result.Failure(NotEnoughStock);
        }
      }
      var id := |orders|;
      var ok, error := ReserveAll(id, order.lines, now);
      if !ok {
        return Result.Failure(Stock(error));
      }
      orders := orders + [order];
      history := history + [HistoryRow(id, None, PendingPayment)];
      return Result.Success(id);
    }

    /** The checkout loop over the shops; the first order with a positive shipping price carries it. */
    method PlaceShops(shops: seq<Id>, groups: map<Id, seq<CartItem>>, terms: Terms, now: Time,
        ghost planned: seq<Order>)
      returns (r: Result<seq<Id>, OrderError>)
      requires |planned| == |shops|
      requires forall n :: 0 <= n < |shops| ==> shops[n] in groups
      requires forall n :: 0 <= n < |shops| ==>
                 planned[n] == BuildOrder(shops[n], groups[shops[n]], if n == 0 then terms.shippingCents else 0, terms)
      modifies this, inventory
      ensures r.Success? ==> PlaceOrders(old(Current()), planned, now) == Result.Success(Current())
      ensures r.Success? ==> |r.value| == |planned| && forall k :: 0 <= k < |r.value| ==>
                r.value[k] == |old(orders)| + k
      ensures r.Failure? ==> PlaceOrders(old(Current()), planned, now) == Result.Failure(r.error)
    {
      hide PlaceOrder, PlaceOrders, BuildOrder;
      ghost var before := Current();
      PlaceNone(before, planned, now);
      var shippingAssigned := false;
      var result: seq<Id> := [];
      for n := 0 to |shops|
        invariant PlaceOrders(before, planned[..n], now) == Result.Success(Current())
        invariant |orders| == |before.orders| + n && |result| == n
        invariant forall k :: 0 <= k < n ==> result[k] == |before.orders| + k
        invariant shippingAssigned <==> n > 0 && terms.shippingCents > 0
      {
        var applyShipping := !shippingAssigned && terms.shippingCents > 0;
        if applyShipping {
          shippingAssigned := true;
        }
        var order := AssembleOrder(shops[n], groups[shops[n]], if applyShipping then terms.shippingCents else 0, terms);
        ghost var soFar := Current();
        LinesNameProducts(shops[n], groups[shops[n]], if n == 0 then terms.shippingCents else 0, terms);
        var placed := Place(order, now);
        PlaceOneMore(before, soFar, planned, n, now);
        if placed.Failure? {
          PlaceFailsWhole(before, planned, n + 1, now);
          return Result.Failure(placed.error);
        }
        result := result + [placed.value];
      }
      assert planned[..|shops|] == planned;
      return Result.Success(result);
    }

    method Checkout(cart: Id, catalog: Catalog, terms: Terms, now: Time) returns (r: Result<seq<Id>, OrderError>)
      modifies this, inventory
      ensures r.Success? ==> Orders.Checkout(old(Current()), cart, catalog, terms, now) == Result.Success(Current())
      ensures r.Success? ==> forall k :: 0 <= k < |r.value| ==> r.value[k] == |old(orders)| + k
      ensures r.Failure? ==> Orders.Checkout(old(Current()), cart, catalog, terms, now) == Result.Failure(r.error)
                             && Current() == old(Current())
    {
      hide BuildOrder, PlaceOrders, RowSellable, RowInStock, GroupOf, ShopsOf;
      var before := Current();
      var rows := CartOf(before, cart);
      if |rows| == 0 {
        return Result.Failure(CartEmpty);
      }
      for i := 0 to |rows|
        invariant CartObjection(before, rows[..i], catalog).None?
      {
        assert rows[..i + 1][..i] == rows[..i];
        if !RowSellable(before, rows[i], catalog) {
          FirstObjectionStays(before, rows, catalog, i + 1);
          return Result.Failure(ProductNotAvailable);
        }
        if !RowInStock(before, rows[i]) {
          FirstObjectionStays(before, rows, catalog, i + 1);
          return Result.Failure(NotEnoughStock);
        }
      }
      assert rows[..|rows|] == rows;
      var items := Resolve(rows, catalog);
      var shops, groups := GroupByShop(items);
      r := PlaceShops(shops, groups, terms, now, OrdersFor(rows, catalog, terms));
      if r.Failure? {
        RollBack(before);
        return;
      }
      carts := carts[cart := []];
    }

    method MarkPaidFromPayment(order: Id) returns (r: Result<(), OrderError>)
      modifies this, inventory
      ensures r.Success? ==> MarkPaid(old(Current()), order) == Result.Success(Current())
      ensures r.Failure? ==> MarkPaid(old(Current()), order) == Result.Failure(r.error) && Current() == old(Current())
    {
      if order >= |orders| {
        return Result.Failure(OrderNotFound);
      }
      if orders[order].status.Paid? {
        return Result.Success(());
      }
      if !orders[order].status.PendingPayment? {
        return Result.Failure(InvalidStatus);
      }
      var confirmed := inventory.Confirm(order);
      if confirmed.Failure? {
        return Result.Failure(Stock(confirmed.error));
      }
      orders := orders[order := orders[order].(status := Paid)];
      history := history + [HistoryRow(order, Some(PendingPayment), Paid)];
      return Result.Success(());
    }

    method UpdateStatus(role: Role, mayAct: bool, order: Id, to: OrderStatus, reasonGiven: bool)
        returns (r: Result<(), OrderError>)
      modifies this, inventory
      ensures r.Success? ==> Orders.UpdateStatus(old(Current()), role, mayAct, order, to, reasonGiven)
                             == Result.Success(Current())
      ensures r.Failure? ==> Orders.UpdateStatus(old(Current()), role, mayAct, order, to, reasonGiven)
                             == Result.Failure(r.error) && Current() == old(Current())
    {
      hide CanTransition, RestockLines, Inv.ReleaseOrder;
      if order >= |orders| {
        return Result.Failure(OrderNotFound);
      }
      if !mayAct || role.System? {
        return Result.Failure(NotAllowed);
      }
      var from := orders[order].status;
      if !CanTransition(role, from, to) {
        return Result.Failure(InvalidStatus);
      }
      if IsAdmin(role) && (to.Cancelled? || to.Refunded? || to.PartiallyRefunded?) && !reasonGiven {
        return Result.Failure(ReasonRequired);
      }
      if to.Cancelled? || to.Refunded? {
        if !WasPaid(from) {
          var _ := inventory.ReleaseOrder(order);
        } else {
          Restock(orders[order].lines);
        }
      }
      orders := orders[order := orders[order].(status := to)];
      history := history + [HistoryRow(order, Some(from), to)];
      return Result.Success(());
    }

    method Restock(lines: seq<OrderLine>)
      modifies inventory
      ensures inventory.Tables() == RestockLines(old(inventory.Tables()), lines)
    {
      ghost var s0 := inventory.Tables();
      for k := 0 to |lines|
        invariant inventory.Tables() == RestockLines(s0, lines[..k])
      {
        assert lines[..k + 1][..k] == lines[..k];
        if lines[k].product.Some? {
          inventory.ReleaseReservation(lines[k].product.value, lines[k].warehouse, lines[k].quantity, true);
        }
      }
      assert lines[..|lines|] == lines;
    }
  }

  lemma {:induction false} FirstObjectionStays(m: Market, rows: seq<CartRow>, catalog: Catalog, k: nat)
    requires k <= |rows| && CartObjection(m, rows[..k], catalog).Some?
    ensures CartObjection(m, rows, catalog) == CartObjection(m, rows[..k], catalog)
    decreases |rows| - k
  {
    hide RowSellable, RowInStock;
    if k == |rows| {
      assert rows[..k] == rows;
    } else {
      assert rows[..k + 1][..k] == rows[..k];
      FirstObjectionStays(m, rows, catalog, k + 1);
    }
  }

  /** Once a line fails, so does the whole list, with that failure. */
  lemma {:induction false} ReserveFailsWhole(s: Inv.State, order: Id, lines: seq<OrderLine>, k: nat, now: Time)
    requires k <= |lines| && ReserveLines(s, order, lines[..k], now).Failure?
    ensures ReserveLines(s, order, lines, now) == ReserveLines(s, order, lines[..k], now)
    decreases |lines| - k
  {
    if k == |lines| {
      assert lines[..k] == lines;
    } else {
      assert lines[..k + 1][..k] == lines[..k];
      ReserveFailsWhole(s, order, lines, k + 1, now);
    }
  }

  lemma {:induction false} PlaceNone(m: Market, orders: seq<Order>, now: Time)
    ensures PlaceOrders(m, orders[..0], now) == Result.Success(m)
  {
  }

  lemma {:induction false} PlaceOneMore(m: Market, mid: Market, orders: seq<Order>, k: nat, now: Time)
    requires k < |orders| && PlaceOrders(m, orders[..k], now) == Result.Success(mid)
    ensures PlaceOrders(m, orders[..k + 1], now) == PlaceOrder(mid, orders[k], now)
  {
    hide PlaceOrder;
    assert orders[..k + 1][..k] == orders[..k];
  }

  lemma {:induction false} LinesNameProducts(shop: Id, items: seq<CartItem>, shippingCents: nat, terms: Terms)
    ensures var lines := BuildOrder(shop, items, shippingCents, terms).lines;
            forall i :: 0 <= i < |lines| ==> lines[i].product.Some?
  {
    hide RoundDiv;
  }

  lemma {:induction false} PlaceFailsWhole(m: Market, orders: seq<Order>, k: nat, now: Time)
    requires k <= |orders| && PlaceOrders(m, orders[..k], now).Failure?
    ensures PlaceOrders(m, orders, now) == PlaceOrders(m, orders[..k], now)
    decreases |orders| - k
  {
    if k == |orders| {
      assert orders[..k] == orders;
    } else {
      assert orders[..k + 1][..k] == orders[..k];
      PlaceFailsWhole(m, orders, k + 1, now);
    }
  }
}
