/**
 * When a reserve must succeed and what it then writes, from the tables alone; and when a whole checkout
 * must, from the cart and the tables before it.
 */
module Reserving {
  import opened Common
  import opened Sums
  import opened CartSplit
  import opened Orders
  import opened Inventory
  import Runs = InventoryRuns
  import OrderStock

  // --------------------------------------------------------------- one reserve

  function Free(product: Id): StockRow -> int {
    (r: StockRow) => if r.product == product then r.quantity - r.reserved else 0
  }

  /**
   * Units a reserve can still get: those free at the warehouse's row if it has one, else those free at all
   * rows of the product together, else the product's stock less its live reservations.
   */
  function FreeUnits(s: State, product: Id, warehouse: Option<Id>, now: Time): int
    requires product in s.products
  {
    var found := if warehouse.Some? then FindRow(s.rows, product, warehouse.value) else None;
    if found.Some? then s.rows[found.value].quantity - s.rows[found.value].reserved
    else if HasRows(s.rows, product) then Sum(s.rows, Free(product))
    else s.products[product].stock - Sum(s.reservations, LiveFor(product, now))
  }

  /** The books of one product are in order, whatever those of the others are. */
  predicate Tidy(s: State, product: Id) {
    && (forall i :: 0 <= i < |s.rows| && s.rows[i].product == product ==> s.rows[i].reserved <= s.rows[i].quantity)
    && (product in s.products && HasRows(s.rows, product) ==>
          Sum(s.rows, Free(product)) <= s.products[product].stock)
    && (forall i :: 0 <= i < |s.reservations| && s.reservations[i].product == product ==>
          s.reservations[i].quantity >= 0)
  }

  lemma {:induction false} InvIsTidy(s: State, product: Id)
    requires Inventory.Inv(s)
    ensures Tidy(s, product)
  {
    ActiveSumsNonNegative(s);
    forall i | 0 <= i < |s.rows| ensures 0 <= s.rows[i].reserved <= s.rows[i].quantity {
      assert RowCovers(s, s.rows[i]);
    }
    forall i | 0 <= i < |s.reservations| ensures s.reservations[i].quantity >= 0 {
      assert ReservationPlaced(s, s.reservations[i]);
    }
    if product in s.products && HasRows(s.rows, product) {
      assert StockAgrees(s, product);
      SumLe(s.rows, Free(product), s.rows, Quantity(product));
    }
  }

  lemma {:induction false} FreeIsDifference(rows: seq<StockRow>, product: Id)
    ensures Sum(rows, Free(product)) == Sum(rows, Quantity(product)) - Sum(rows, Reserved(product))
  {
    SumSplit(rows, Quantity(product), Free(product), Reserved(product));
  }

  /** The sweep touches no live reservation. */
  lemma {:induction false} SweepKeepsLive(reservations: seq<Reservation>, swept: Id, product: Id, now: Time)
    ensures Sum(ExpireStale(reservations, swept, now), LiveFor(product, now))
              == Sum(reservations, LiveFor(product, now))
  {
    SumSame(ExpireStale(reservations, swept, now), LiveFor(product, now), reservations, LiveFor(product, now));
  }

  /** Units free at one row are among those free at all rows of its product. */
  lemma {:induction false} RowFreeWithin(s: State, product: Id, i: nat)
    requires Tidy(s, product) && i < |s.rows| && s.rows[i].product == product
    ensures s.rows[i].quantity - s.rows[i].reserved <= Sum(s.rows, Free(product))
  {
    SumAtLeastRow(s.rows, i, Free(product));
  }

  /** What the check sees before a reserve is at least what the reserve can get. */
  lemma {:induction false} FreeIsAvailable(s: State, product: Id, warehouse: Option<Id>, now: Time)
    requires Tidy(s, product) && product in s.products
    ensures FreeUnits(s, product, warehouse, now) <= GetAvailable(s, product, now).available
    ensures FreeUnits(s, product, warehouse, now) <= TotalAvailable(s, product)
  {
    FreeIsDifference(s.rows, product);
    SumLe(s.rows, Free(product), s.rows, ClampedFree(product));
    SumNonNegative(s.reservations, LiveFor(product, now));
    if warehouse.Some? && FindRow(s.rows, product, warehouse.value).Some? {
      RowFreeWithin(s, product, FindRow(s.rows, product, warehouse.value).value);
    }
  }

  /** In a product with its books in order a reserve succeeds exactly when its units are free. */
  lemma {:induction false} TidyReserveSucceeds(s: State, product: Id, quantity: int, order: Id, warehouse: Option<Id>,
      now: Time, ttl: Time)
    requires Tidy(s, product)
    ensures Reserve(s, product, quantity, order, warehouse, now, ttl).Success? <==>
              && product in s.products
              && 0 < quantity <= FreeUnits(s, product, warehouse, now)
  {
    if product in s.products {
      var s1 := s.(reservations := ExpireStale(s.reservations, product, now));
      FreeIsAvailable(s, product, warehouse, now);
      FreeIsDifference(s.rows, product);
      SweepKeepsLive(s.reservations, product, product, now);
      SumNonNegative(s.reservations, LiveFor(product, now));
      assert GetAvailable(s1, product, now) == GetAvailable(s, product, now);
    }
  }

  /**
   * In a good state, `reserve` succeeds exactly for a positive quantity of a known product that is free: at the
   * warehouse's row if there is one; at the product's rows together if the warehouse has none of them; and
   * without rows, in the stock less the reservations that expire later. Otherwise it says which is missing.
   */
  lemma {:induction false} ReserveSucceedsExactly(s: State, product: Id, quantity: int, order: Id,
      warehouse: Option<Id>, now: Time, ttl: Time)
    requires Inventory.Inv(s)
    ensures var r := Reserve(s, product, quantity, order, warehouse, now, ttl);
            && (r.Success? <==> product in s.products && 0 < quantity <= FreeUnits(s, product, warehouse, now))
            && (r == Failure(InvalidQuantity) <==> quantity <= 0)
            && (r == Failure(ProductNotFound) <==> quantity > 0 && product !in s.products)
  {
    InvIsTidy(s, product);
    TidyReserveSucceeds(s, product, quantity, order, warehouse, now, ttl);
  }

  /**
   * What a successful reserve writes: the product's counter and the row's reserved count rise by the quantity, a
   * missing row is made from the product's stock, overdue reservations of the product expire, and one ACTIVE
   * reservation is added; nothing else changes.
   */
  lemma {:induction false} ReserveWritesExactly(s: State, product: Id, quantity: int, order: Id,
      warehouse: Option<Id>, now: Time, ttl: Time)
    requires Reserve(s, product, quantity, order, warehouse, now, ttl).Success?
    ensures var t := Reserve(s, product, quantity, order, warehouse, now, ttl).value;
            var n := |s.reservations|;
            && product in s.products
            && t.products == s.products[product := Product(s.products[product].stock,
                                                           s.products[product].reservedStock + quantity)]
            && |t.reservations| == n + 1
            && t.reservations[n] == Reservation(product, order, warehouse, quantity, Active, now + ttl)
            && (forall i :: 0 <= i < n ==>
                  var r := s.reservations[i];
                  t.reservations[i] == if r.product == product && r.status.Active? && r.expiresAt < now
                                       then r.(status := Expired) else r)
            && (warehouse.None? ==> t.rows == s.rows)
            && (warehouse.Some? ==>
                  match FindRow(s.rows, product, warehouse.value)
                  case Some(k) => t.rows == s.rows[k := s.rows[k].(reserved := s.rows[k].reserved + quantity)]
                  case None =>
                    t.rows == s.rows + [StockRow(product, warehouse.value, s.products[product].stock, quantity)])
  {
    Runs.ReserveShape(s, product, quantity, order, warehouse, now, ttl);
  }

  // -------------------------------------------------- products do not interfere

  /** Two states agree on everything a reserve of the product looks at. */
  ghost predicate SameFor(s: State, t: State, product: Id, now: Time) {
    && (product in t.products <==> product in s.products)
    && (Tidy(s, product) ==> Tidy(t, product))
    && (product in s.products ==>
          forall w :: FreeUnits(t, product, w, now) == FreeUnits(s, product, w, now))
  }

  lemma {:induction false} SameForChain(s: State, t: State, u: State, product: Id, now: Time)
    requires SameFor(s, t, product, now) && SameFor(t, u, product, now)
    ensures SameFor(s, u, product, now)
  {
    hide FreeUnits, Tidy;
    if product in s.products {
      forall w ensures FreeUnits(u, product, w, now) == FreeUnits(s, product, w, now) {
        assert FreeUnits(t, product, w, now) == FreeUnits(s, product, w, now);
      }
    }
  }

  /** Rows agree on a product: its lookups, its presence, its free units and each of its rows. */
  lemma {:induction false} ReservedRowsElsewhere(rows: seq<StockRow>, product: Id, warehouse: Id, quantity: int,
      stock: int, other: Id)
    requires other != product && ReserveRows(rows, product, warehouse, quantity, stock).Success?
    ensures var after := ReserveRows(rows, product, warehouse, quantity, stock).value;
            && |rows| <= |after|
            && (forall i :: 0 <= i < |rows| && rows[i].product == other ==> after[i] == rows[i])
            && (forall i :: 0 <= i < |after| && after[i].product == other ==> i < |rows| && rows[i] == after[i])
            && Sum(after, Free(other)) == Sum(rows, Free(other))
            && Sum(after, Quantity(other)) == Sum(rows, Quantity(other))
  {
    var found := FindRow(rows, product, warehouse);
    if found.Some? {
      var row := rows[found.value].(reserved := rows[found.value].reserved + quantity);
      SumUpdate(rows, found.value, row, Free(other));
      SumUpdate(rows, found.value, row, Quantity(other));
    } else {
      SumAppend(rows, StockRow(product, warehouse, stock, quantity), Free(other));
      SumAppend(rows, StockRow(product, warehouse, stock, quantity), Quantity(other));
    }
  }

  lemma {:induction false} SameLookups(rows: seq<StockRow>, after: seq<StockRow>, product: Id)
    requires |rows| <= |after|
    requires forall i :: 0 <= i < |rows| && rows[i].product == product ==> after[i] == rows[i]
    requires forall i :: 0 <= i < |after| && after[i].product == product ==> i < |rows| && rows[i] == after[i]
    ensures HasRows(after, product) == HasRows(rows, product)
    ensures forall w :: FindRow(after, product, w) == FindRow(rows, product, w)
  {
    if HasRows(rows, product) {
      var i :| 0 <= i < |rows| && rows[i].product == product;
      assert after[i].product == product;
    }
    forall w ensures FindRow(after, product, w) == FindRow(rows, product, w) {
      if |after| > |rows| {
        SameLookups(rows, after[..|after| - 1], product);
      } else if |rows| > 0 {
        SameLookups(rows[..|rows| - 1], after[..|rows| - 1], product);
      }
    }
  }

  /** States that agree on a product's rows, figures and reservations agree on what its reserves look at. */
  lemma {:induction false} AgreeingIsSame(s: State, t: State, product: Id, now: Time)
    requires product in t.products <==> product in s.products
    requires product in s.products ==> t.products[product] == s.products[product]
    requires |s.rows| <= |t.rows|
    requires forall i :: 0 <= i < |s.rows| && s.rows[i].product == product ==> t.rows[i] == s.rows[i]
    requires forall i :: 0 <= i < |t.rows| && t.rows[i].product == product ==> i < |s.rows| && s.rows[i] == t.rows[i]
    requires Sum(t.rows, Free(product)) == Sum(s.rows, Free(product))
    requires |s.reservations| <= |t.reservations|
    requires forall i :: 0 <= i < |t.reservations| && t.reservations[i].product == product ==>
               i < |s.reservations| && s.reservations[i] == t.reservations[i]
    requires Sum(t.reservations, LiveFor(product, now)) == Sum(s.reservations, LiveFor(product, now))
    ensures SameFor(s, t, product, now)
  {
    SameLookups(s.rows, t.rows, product);
    hide HasRows, FindRow;
    assert Tidy(s, product) ==> Tidy(t, product);
    hide Tidy;
    if product in s.products {
      forall w ensures FreeUnits(t, product, w, now) == FreeUnits(s, product, w, now) {
        if w.Some? {
          assert FindRow(t.rows, product, w.value) == FindRow(s.rows, product, w.value);
        }
      }
    }
  }

  /** A reserve leaves what every other product's reserves look at. */
  lemma {:induction false} ReserveElsewhere(s: State, product: Id, quantity: int, order: Id, warehouse: Option<Id>,
      now: Time, ttl: Time, other: Id)
    requires other != product && Reserve(s, product, quantity, order, warehouse, now, ttl).Success?
    ensures SameFor(s, Reserve(s, product, quantity, order, warehouse, now, ttl).value, other, now)
  {
    hide SameFor, HasRows, FindRow;
    var t := Reserve(s, product, quantity, order, warehouse, now, ttl).value;
    var swept := ExpireStale(s.reservations, product, now);
    var r := Reservation(product, order, warehouse, quantity, Active, now + ttl);
    Runs.ReserveShape(s, product, quantity, order, warehouse, now, ttl);
    hide Reserve, ReserveRows;
    if warehouse.Some? {
      ReservedRowsElsewhere(s.rows, product, warehouse.value, quantity, s.products[product].stock, other);
    }
    SweepKeepsLive(s.reservations, product, other, now);
    SumAppend(swept, r, LiveFor(other, now));
    AgreeingIsSame(s, t, other, now);
  }

  // ------------------------------------------------------------ a list of lines

  predicate LineFits(s: State, line: OrderLine, now: Time) {
    && line.product.Some? && line.product.value in s.products
    && 0 < line.quantity <= FreeUnits(s, line.product.value, line.warehouse, now)
  }

  predicate DistinctLines(lines: seq<OrderLine>) {
    forall i, j :: 0 <= i < j < |lines| ==> lines[i].product != lines[j].product
  }

  predicate Names(lines: seq<OrderLine>, product: Id) {
    exists i :: 0 <= i < |lines| && lines[i].product == Some(product)
  }

  predicate AllTidy(s: State, lines: seq<OrderLine>) {
    forall i :: 0 <= i < |lines| ==> lines[i].product.Some? && Tidy(s, lines[i].product.value)
  }

  lemma {:induction false} SameLineFits(s: State, t: State, line: OrderLine, now: Time)
    requires line.product.Some? && SameFor(s, t, line.product.value, now)
    ensures LineFits(t, line, now) == LineFits(s, line, now)
  {
    hide FreeUnits, Tidy;
  }

  /** Lines of different products are reserved exactly when each of them fits the tables before the first. */
  lemma {:induction false} LinesSucceedExactly(s: State, order: Id, lines: seq<OrderLine>, now: Time)
    requires DistinctLines(lines) && AllTidy(s, lines)
    ensures var r := ReserveLines(s, order, lines, now);
            && (r.Success? <==> forall i :: 0 <= i < |lines| ==> LineFits(s, lines[i], now))
            && (r.Success? ==> forall p: Id :: !Names(lines, p) ==> SameFor(s, r.value, p, now))
  {
    hide FreeUnits, Tidy, Reserve, SameFor, LineFits;
    if |lines| == 0 {
      forall p: Id ensures SameFor(s, s, p, now) {
        SameForItself(s, p, now);
      }
    } else {
      var n := |lines| - 1;
      var before := ReserveLines(s, order, lines[..n], now);
      LinesSucceedExactly(s, order, lines[..n], now);
      if before.Success? {
        assert !Names(lines[..n], lines[n].product.value);
        LastLine(s, before.value, order, lines[n], now);
        forall p: Id | ReserveLines(s, order, lines, now).Success? && !Names(lines, p)
          ensures SameFor(s, ReserveLines(s, order, lines, now).value, p, now)
        {
          NamedByMore(lines, p);
          LineElsewhere(s, before.value, order, lines[n], now, p);
        }
      } else {
        var i :| 0 <= i < n && !LineFits(s, lines[..n][i], now);
        assert !LineFits(s, lines[i], now);
      }
    }
  }

  lemma {:induction false} SameForItself(s: State, p: Id, now: Time)
    ensures SameFor(s, s, p, now)
  {
  }

  lemma {:induction false} NamedByMore(lines: seq<OrderLine>, p: Id)
    requires |lines| > 0 && !Names(lines, p)
    ensures !Names(lines[..|lines| - 1], p) && lines[|lines| - 1].product != Some(p)
  {
  }

  lemma {:induction false} LastLine(s: State, mid: State, order: Id, line: OrderLine, now: Time)
    requires line.product.Some? && Tidy(s, line.product.value) && SameFor(s, mid, line.product.value, now)
    ensures Reserve(mid, line.product.value, line.quantity, order, line.warehouse, now, RESERVATION_TTL).Success?
            <==> LineFits(s, line, now)
  {
    hide FreeUnits, Tidy, Reserve;
    TidyReserveSucceeds(mid, line.product.value, line.quantity, order, line.warehouse, now, RESERVATION_TTL);
  }

  lemma {:induction false} LineElsewhere(s: State, mid: State, order: Id, line: OrderLine, now: Time, p: Id)
    requires line.product.Some? && line.product.value != p && SameFor(s, mid, p, now)
    requires Reserve(mid, line.product.value, line.quantity, order, line.warehouse, now, RESERVATION_TTL).Success?
    ensures SameFor(s, Reserve(mid, line.product.value, line.quantity, order, line.warehouse, now,
              RESERVATION_TTL).value, p, now)
  {
    hide FreeUnits, Tidy, Reserve, SameFor;
    ReserveElsewhere(mid, line.product.value, line.quantity, order, line.warehouse, now, RESERVATION_TTL, p);
    SameForChain(s, mid, Reserve(mid, line.product.value, line.quantity, order, line.warehouse, now,
        RESERVATION_TTL).value, p, now);
  }

  // ------------------------------------------------------------- whole checkouts

  lemma {:induction false} OrderSucceedsExactly(m: Market, order: Order, now: Time)
    requires DistinctLines(order.lines) && AllTidy(m.inv, order.lines)
    ensures var r := PlaceOrder(m, order, now);
            && (r.Success? <==> forall i :: 0 <= i < |order.lines| ==> LineFits(m.inv, order.lines[i], now))
            && (r.Success? ==> forall p: Id :: !Names(order.lines, p) ==> SameFor(m.inv, r.value.inv, p, now))
  {
    hide FreeUnits, Tidy, Reserve, SameFor, ReserveLines;
    LinesSucceedExactly(m.inv, |m.orders|, order.lines, now);
    forall i | 0 <= i < |order.lines| && LineFits(m.inv, order.lines[i], now)
      ensures LineAvailable(m.inv, order.lines[i], now)
    {
      FreeIsAvailable(m.inv, order.lines[i].product.value, order.lines[i].warehouse, now);
    }
  }

  /** The lines of several orders, one after the other. */
  function AllLines(orders: seq<Order>): seq<OrderLine> {
    if |orders| == 0 then [] else AllLines(orders[..|orders| - 1]) + orders[|orders| - 1].lines
  }

  lemma {:induction false} SplitLines(first: seq<OrderLine>, rest: seq<OrderLine>)
    requires DistinctLines(first + rest)
    ensures DistinctLines(first) && DistinctLines(rest)
    ensures forall j :: 0 <= j < |rest| && rest[j].product.Some? ==> !Names(first, rest[j].product.value)
  {
    var all := first + rest;
    forall i, j | 0 <= i < j < |first| ensures first[i].product != first[j].product {
      assert all[i].product != all[j].product;
    }
    forall i, j | 0 <= i < j < |rest| ensures rest[i].product != rest[j].product {
      assert all[|first| + i].product != all[|first| + j].product;
    }
    forall i, j | 0 <= i < |first| && 0 <= j < |rest| ensures first[i].product != rest[j].product {
      assert all[i].product != all[|first| + j].product;
    }
  }

  lemma {:induction false} TidyLines(s: State, first: seq<OrderLine>, rest: seq<OrderLine>)
    requires AllTidy(s, first + rest)
    ensures AllTidy(s, first) && AllTidy(s, rest)
  {
    hide Tidy;
    var all := first + rest;
    forall i | 0 <= i < |first| ensures first[i].product.Some? && Tidy(s, first[i].product.value) {
      assert all[i].product.Some?;
    }
    forall i | 0 <= i < |rest| ensures rest[i].product.Some? && Tidy(s, rest[i].product.value) {
      assert all[|first| + i].product.Some?;
    }
  }

  predicate AllFit(s: State, lines: seq<OrderLine>, now: Time) {
    forall i :: 0 <= i < |lines| ==> LineFits(s, lines[i], now)
  }

  lemma {:induction false} FitLines(s: State, first: seq<OrderLine>, rest: seq<OrderLine>, now: Time)
    ensures AllFit(s, first + rest, now) <==> AllFit(s, first, now) && AllFit(s, rest, now)
  {
    hide LineFits;
    var all := first + rest;
    if AllFit(s, all, now) {
      forall i | 0 <= i < |first| ensures LineFits(s, first[i], now) {
        assert LineFits(s, all[i], now);
      }
      forall i | 0 <= i < |rest| ensures LineFits(s, rest[i], now) {
        assert LineFits(s, all[|first| + i], now);
      }
    }
  }

  /** What earlier orders reserved does not matter to lines of other products. */
  lemma {:induction false} LinesUnmoved(s: State, mid: State, first: seq<OrderLine>, rest: seq<OrderLine>, now: Time)
    requires AllTidy(s, rest)
    requires forall p: Id :: !Names(first, p) ==> SameFor(s, mid, p, now)
    requires forall j :: 0 <= j < |rest| && rest[j].product.Some? ==> !Names(first, rest[j].product.value)
    ensures AllTidy(mid, rest) && (AllFit(mid, rest, now) <==> AllFit(s, rest, now))
  {
    hide Tidy, FreeUnits, LineFits;
    forall j | 0 <= j < |rest|
      ensures Tidy(mid, rest[j].product.value) && LineFits(mid, rest[j], now) == LineFits(s, rest[j], now)
    {
      assert SameFor(s, mid, rest[j].product.value, now);
      SameLineFits(s, mid, rest[j], now);
    }
  }

  lemma {:induction false} SameBoth(s: State, mid: State, t: State, first: seq<OrderLine>, rest: seq<OrderLine>,
      now: Time)
    requires forall p: Id :: !Names(first, p) ==> SameFor(s, mid, p, now)
    requires forall p: Id :: !Names(rest, p) ==> SameFor(mid, t, p, now)
    ensures forall p: Id :: !Names(first + rest, p) ==> SameFor(s, t, p, now)
  {
    hide SameFor;
    forall p: Id | !Names(first + rest, p) ensures SameFor(s, t, p, now) {
      assert forall i :: 0 <= i < |first| ==> (first + rest)[i] == first[i];
      assert forall i :: 0 <= i < |rest| ==> (first + rest)[|first| + i] == rest[i];
      assert !Names(first, p) && !Names(rest, p);
      SameForChain(s, mid, t, p, now);
    }
  }

  /** Orders whose lines all name different products are placed exactly when every line fits the tables before them. */
  lemma {:induction false} OrdersSucceedExactly(m: Market, orders: seq<Order>, now: Time)
    requires DistinctLines(AllLines(orders)) && AllTidy(m.inv, AllLines(orders))
    ensures var r := PlaceOrders(m, orders, now);
            && (r.Success? <==> AllFit(m.inv, AllLines(orders), now))
            && (r.Success? ==> forall p: Id :: !Names(AllLines(orders), p) ==> SameFor(m.inv, r.value.inv, p, now))
  {
    hide DistinctLines, AllTidy, AllFit, SameFor, PlaceOrder, Names;
    if |orders| == 0 {
      forall p: Id ensures SameFor(m.inv, m.inv, p, now) {
        SameForItself(m.inv, p, now);
      }
      NoLinesFit(m.inv, now);
    } else {
      var n := |orders| - 1;
      var first, rest := AllLines(orders[..n]), orders[n].lines;
      SplitLines(first, rest);
      TidyLines(m.inv, first, rest);
      FitLines(m.inv, first, rest, now);
      OrdersSucceedExactly(m, orders[..n], now);
      var before := PlaceOrders(m, orders[..n], now);
      if before.Success? {
        LinesUnmoved(m.inv, before.value.inv, first, rest, now);
        OrderFits(before.value, orders[n], now);
        if PlaceOrders(m, orders, now).Success? {
          SameBoth(m.inv, before.value.inv, PlaceOrders(m, orders, now).value.inv, first, rest, now);
        }
      }
    }
  }

  lemma {:induction false} NoLinesFit(s: State, now: Time)
    ensures AllFit(s, [], now)
  {
  }

  lemma {:induction false} OrderFits(m: Market, order: Order, now: Time)
    requires DistinctLines(order.lines) && AllTidy(m.inv, order.lines)
    ensures PlaceOrder(m, order, now).Success? <==> AllFit(m.inv, order.lines, now)
    ensures PlaceOrder(m, order, now).Success? ==>
              forall p: Id :: !Names(order.lines, p) ==> SameFor(m.inv, PlaceOrder(m, order, now).value.inv, p, now)
  {
    OrderSucceedsExactly(m, order, now);
  }

  // ----------------------------------------------------- the cart and its lines

  /** The order line a cart row must become: its product and quantity, at today's price, from its shop's warehouse. */
  predicate LineFor(line: OrderLine, row: CartRow, catalog: Catalog, terms: Terms) {
    && line.product == Some(row.product) && line.quantity == row.quantity
    && line.unitPriceCents == catalog.price(row.product)
    && line.lineTotalCents == catalog.price(row.product) * row.quantity
    && line.warehouse == terms.warehouse(catalog.shopOf(row.product))
  }

  predicate DistinctRows(rows: seq<CartRow>) {
    forall i, j :: 0 <= i < j < |rows| ==> rows[i].product != rows[j].product
  }

  lemma {:induction false} InGroup(cart: seq<CartItem>, i: nat)
    requires i < |cart|
    ensures cart[i] in GroupOf(cart, cart[i].shop)
  {
    if i < |cart| - 1 {
      InGroup(cart[..|cart| - 1], i);
    }
  }

  lemma {:induction false} LinesAppear(orders: seq<Order>, k: nat, i: nat)
    requires k < |orders| && i < |orders[k].lines|
    ensures orders[k].lines[i] in AllLines(orders)
  {
    if k < |orders| - 1 {
      LinesAppear(orders[..|orders| - 1], k, i);
    }
  }

  lemma {:induction false} LinesComeFrom(orders: seq<Order>, line: OrderLine)
    requires line in AllLines(orders)
    ensures exists k, i :: 0 <= k < |orders| && 0 <= i < |orders[k].lines| && orders[k].lines[i] == line
  {
    var n := |orders| - 1;
    if line in orders[n].lines {
      var i :| 0 <= i < |orders[n].lines| && orders[n].lines[i] == line;
    } else {
      LinesComeFrom(orders[..n], line);
      var k, i :| 0 <= k < n && 0 <= i < |orders[..n][k].lines| && orders[..n][k].lines[i] == line;
      assert orders[k].lines[i] == line;
    }
  }

  /** Order `k` of a checkout: the `k`-th shop, and a line for each cart row of that shop, in cart order. */
  lemma {:induction false} OrderOfShop(rows: seq<CartRow>, catalog: Catalog, terms: Terms, k: nat)
    requires k < |OrdersFor(rows, catalog, terms)|
    ensures var o := OrdersFor(rows, catalog, terms)[k];
            var group := GroupOf(Resolve(rows, catalog), o.shop);
            && o.shop == ShopsOf(Resolve(rows, catalog))[k] && o.status.PendingPayment?
            && |o.lines| == |group|
            && forall i :: 0 <= i < |group| ==>
                 && group[i].shop == o.shop == catalog.shopOf(group[i].product)
                 && CartRow(group[i].product, group[i].quantity) in rows
                 && LineFor(o.lines[i], CartRow(group[i].product, group[i].quantity), catalog, terms)
  {
    var items := Resolve(rows, catalog);
    var shop := ShopsOf(items)[k];
    GroupMembers(items, shop);
    var group := GroupOf(items, shop);
    forall i | 0 <= i < |group|
      ensures group[i].shop == shop == catalog.shopOf(group[i].product)
      ensures group[i].priceCents == catalog.price(group[i].product)
      ensures CartRow(group[i].product, group[i].quantity) in rows
    {
      var j :| 0 <= j < |items| && items[j] == group[i];
      assert rows[j] == CartRow(group[i].product, group[i].quantity);
    }
  }

  predicate HasLine(lines: seq<OrderLine>, row: CartRow, catalog: Catalog, terms: Terms) {
    exists line :: line in lines && LineFor(line, row, catalog, terms)
  }

  predicate HasRow(rows: seq<CartRow>, line: OrderLine, catalog: Catalog, terms: Terms) {
    exists row :: row in rows && LineFor(line, row, catalog, terms)
  }

  /** Every cart row becomes a line of its shop's order, and every line of every order comes from a cart row. */
  lemma {:induction false} LinesMatchCart(rows: seq<CartRow>, catalog: Catalog, terms: Terms)
    ensures var lines := AllLines(OrdersFor(rows, catalog, terms));
            && (forall row :: row in rows ==> HasLine(lines, row, catalog, terms))
            && (forall line :: line in lines ==> HasRow(rows, line, catalog, terms))
  {
    hide LineFor, OrdersFor, Resolve, HasLine;
    var orders := OrdersFor(rows, catalog, terms);
    forall row | row in rows ensures HasLine(AllLines(orders), row, catalog, terms) {
      var i :| 0 <= i < |rows| && rows[i] == row;
      RowHasLine(rows, catalog, terms, i);
    }
    forall line | line in AllLines(orders) ensures HasRow(rows, line, catalog, terms) {
      LinesComeFrom(orders, line);
      var k, i :| 0 <= k < |orders| && 0 <= i < |orders[k].lines| && orders[k].lines[i] == line;
      OrderOfShop(rows, catalog, terms, k);
    }
  }

  lemma {:induction false} RowHasLine(rows: seq<CartRow>, catalog: Catalog, terms: Terms, i: nat)
    requires i < |rows|
    ensures HasLine(AllLines(OrdersFor(rows, catalog, terms)), rows[i], catalog, terms)
  {
    hide LineFor;
    var items := Resolve(rows, catalog);
    var orders := OrdersFor(rows, catalog, terms);
    InGroup(items, i);
    assert items[i].shop in ShopsOf(items);
    var k :| 0 <= k < |ShopsOf(items)| && ShopsOf(items)[k] == items[i].shop;
    OrderOfShop(rows, catalog, terms, k);
    var group := GroupOf(items, items[i].shop);
    var g :| 0 <= g < |group| && group[g] == items[i];
    LinesAppear(orders, k, g);
    assert LineFor(orders[k].lines[g], rows[i], catalog, terms);
  }

  lemma {:induction false} JoinedDistinct(first: seq<OrderLine>, rest: seq<OrderLine>)
    requires DistinctLines(first) && DistinctLines(rest)
    requires forall a, b :: a in first && b in rest ==> a.product != b.product
    ensures DistinctLines(first + rest)
  {
  }

  /** No product appears in two orders. */
  predicate Apart(orders: seq<Order>) {
    forall k, l, i, j :: 0 <= k < l < |orders| && 0 <= i < |orders[k].lines| && 0 <= j < |orders[l].lines| ==>
      orders[k].lines[i].product != orders[l].lines[j].product
  }

  lemma {:induction false} AllDistinct(orders: seq<Order>)
    requires Apart(orders) && forall k :: 0 <= k < |orders| ==> DistinctLines(orders[k].lines)
    ensures DistinctLines(AllLines(orders))
  {
    hide DistinctLines;
    if |orders| == 0 {
      NoLinesDistinct();
    } else {
      var n := |orders| - 1;
      AllDistinct(orders[..n]);
      forall a, b | a in AllLines(orders[..n]) && b in orders[n].lines ensures a.product != b.product {
        LinesComeFrom(orders[..n], a);
        var k, i :| 0 <= k < n && 0 <= i < |orders[..n][k].lines| && orders[..n][k].lines[i] == a;
        var j :| 0 <= j < |orders[n].lines| && orders[n].lines[j] == b;
        assert orders[k].lines[i].product != orders[n].lines[j].product;
      }
      JoinedDistinct(AllLines(orders[..n]), orders[n].lines);
    }
  }

  lemma {:induction false} NoLinesDistinct()
    ensures DistinctLines([])
  {
  }

  lemma {:induction false} CartLinesDistinct(rows: seq<CartRow>, catalog: Catalog, terms: Terms)
    requires DistinctRows(rows)
    ensures DistinctLines(AllLines(OrdersFor(rows, catalog, terms)))
  {
    var items := Resolve(rows, catalog);
    var orders := OrdersFor(rows, catalog, terms);
    assert DistinctProducts(items);
    forall k | 0 <= k < |orders| ensures DistinctLines(orders[k].lines) {
      OrderOfShop(rows, catalog, terms, k);
      GroupDistinct(items, orders[k].shop);
    }
    forall k, l, i, j | 0 <= k < l < |orders| && 0 <= i < |orders[k].lines| && 0 <= j < |orders[l].lines|
      ensures orders[k].lines[i].product != orders[l].lines[j].product
    {
      OrderOfShop(rows, catalog, terms, k);
      OrderOfShop(rows, catalog, terms, l);
    }
    hide OrdersFor;
    AllDistinct(orders);
  }

  /** A cart row can be sold: its product is on offer, and the units asked for are free for its shop's warehouse. */
  predicate RowFits(m: Market, row: CartRow, catalog: Catalog, terms: Terms, now: Time) {
    && row.product in m.inv.products && catalog.sellable(row.product)
    && 0 < row.quantity <= FreeUnits(m.inv, row.product, terms.warehouse(catalog.shopOf(row.product)), now)
  }

  lemma {:induction false} ObjectionExactly(m: Market, rows: seq<CartRow>, catalog: Catalog)
    ensures CartObjection(m, rows, catalog).None? <==>
              forall row :: row in rows ==> RowSellable(m, row, catalog) && RowInStock(m, row)
  {
    hide RowSellable, RowInStock;
    if |rows| == 0 {
    } else {
      var n := |rows| - 1;
      ObjectionExactly(m, rows[..n], catalog);
      assert forall row :: row in rows <==> row in rows[..n] || row == rows[n];
    }
  }

  lemma {:induction false} FittingRow(m: Market, row: CartRow, catalog: Catalog, terms: Terms, now: Time)
    requires Tidy(m.inv, row.product) && RowFits(m, row, catalog, terms, now)
    ensures RowSellable(m, row, catalog) && RowInStock(m, row)
  {
    FreeIsAvailable(m.inv, row.product, terms.warehouse(catalog.shopOf(row.product)), now);
  }

  lemma {:induction false} RowFitsAsLine(m: Market, row: CartRow, line: OrderLine, catalog: Catalog, terms: Terms,
      now: Time)
    requires LineFor(line, row, catalog, terms)
    ensures RowFits(m, row, catalog, terms, now) <==> LineFits(m.inv, line, now) && catalog.sellable(row.product)
  {
  }

  /** The lines of the orders fit exactly when the rows of the cart do, as far as stock goes. */
  lemma {:induction false} RowsFitAsLines(m: Market, rows: seq<CartRow>, catalog: Catalog, terms: Terms, now: Time)
    requires forall row :: row in rows ==> catalog.sellable(row.product)
    ensures AllFit(m.inv, AllLines(OrdersFor(rows, catalog, terms)), now) <==>
              forall row :: row in rows ==> RowFits(m, row, catalog, terms, now)
  {
    hide LineFor, OrdersFor, RowFits, LineFits;
    var lines := AllLines(OrdersFor(rows, catalog, terms));
    LinesMatchCart(rows, catalog, terms);
    if AllFit(m.inv, lines, now) {
      forall row | row in rows ensures RowFits(m, row, catalog, terms, now) {
        assert HasLine(lines, row, catalog, terms);
        var line :| line in lines && LineFor(line, row, catalog, terms);
        RowFitsAsLine(m, row, line, catalog, terms, now);
      }
    }
    if forall row :: row in rows ==> RowFits(m, row, catalog, terms, now) {
      forall i | 0 <= i < |lines| ensures LineFits(m.inv, lines[i], now) {
        assert HasRow(rows, lines[i], catalog, terms);
        var row :| row in rows && LineFor(lines[i], row, catalog, terms);
        RowFitsAsLine(m, row, lines[i], catalog, terms, now);
      }
    }
  }

  lemma {:induction false} GoodMarket(m: Market, cart: Id, catalog: Catalog, terms: Terms)
    requires OrderStock.MarketInv(m)
    ensures DistinctRows(CartOf(m, cart))
    ensures forall p: Id :: Tidy(m.inv, p)
    ensures AllTidy(m.inv, AllLines(OrdersFor(CartOf(m, cart), catalog, terms)))
  {
    hide LineFor, Tidy, OrdersFor, AllLines;
    forall p: Id ensures Tidy(m.inv, p) {
      InvIsTidy(m.inv, p);
    }
    var rows := CartOf(m, cart);
    hide OrderStock.MarketInv, Inventory.Inv;
    var lines := AllLines(OrdersFor(rows, catalog, terms));
    LinesMatchCart(rows, catalog, terms);
    forall i | 0 <= i < |lines| ensures lines[i].product.Some? {
      assert HasRow(rows, lines[i], catalog, terms);
      RowLineNamesProduct(rows, lines[i], catalog, terms);
    }
  }

  lemma {:induction false} RowLineNamesProduct(rows: seq<CartRow>, line: OrderLine, catalog: Catalog, terms: Terms)
    requires HasRow(rows, line, catalog, terms)
    ensures line.product.Some?
  {
  }

  /**
   * In a good market a checkout succeeds exactly when the cart is not empty and every row can be sold, each
   * looked at in the tables before the checkout: rows of one checkout never take units from each other.
   */
  lemma {:induction false} CheckoutSucceedsExactly(m: Market, cart: Id, catalog: Catalog, terms: Terms, now: Time)
    requires OrderStock.MarketInv(m)
    ensures Checkout(m, cart, catalog, terms, now).Success? <==>
              && |CartOf(m, cart)| > 0
              && forall row :: row in CartOf(m, cart) ==> RowFits(m, row, catalog, terms, now)
  {
    hide OrderStock.MarketInv, OrdersFor, RowFits, RowSellable, RowInStock, Tidy, PlaceOrders, DistinctLines, AllTidy;
    var rows := CartOf(m, cart);
    GoodMarket(m, cart, catalog, terms);
    CartLinesDistinct(rows, catalog, terms);
    OrdersSucceedExactly(m, OrdersFor(rows, catalog, terms), now);
    ObjectionExactly(m, rows, catalog);
    forall row | row in rows && RowFits(m, row, catalog, terms, now)
      ensures RowSellable(m, row, catalog) && RowInStock(m, row)
    {
      FittingRow(m, row, catalog, terms, now);
    }
    if CartObjection(m, rows, catalog).None? {
      SellableRows(m, rows, catalog);
      RowsFitAsLines(m, rows, catalog, terms, now);
    }
  }

  lemma {:induction false} SellableRows(m: Market, rows: seq<CartRow>, catalog: Catalog)
    requires forall row :: row in rows ==> RowSellable(m, row, catalog)
    ensures forall row :: row in rows ==> catalog.sellable(row.product)
  {
  }

  // ------------------------------------------------------------- which refusal

  function FreeAtRow(product: Id): StockRow -> int {
    (r: StockRow) => if r.product == product && r.quantity > r.reserved then r.quantity - r.reserved else 0
  }

  /** What the shop window shows of a product: its rows' free units, none of them below zero, or its whole stock. */
  function Shown(s: State, product: Id): int
    requires product in s.products
  {
    if HasRows(s.rows, product)
    then Sum(s.rows, FreeAtRow(product))
    else s.products[product].stock
  }

  predicate OnOffer(m: Market, row: CartRow, catalog: Catalog) {
    row.product in m.inv.products && catalog.sellable(row.product)
  }

  predicate Enough(m: Market, row: CartRow) {
    row.product in m.inv.products && row.quantity <= Shown(m.inv, row.product)
  }

  lemma {:induction false} ShownIsTotal(s: State, product: Id)
    requires product in s.products
    ensures Shown(s, product) == TotalAvailable(s, product)
  {
    SumSame(s.rows, FreeAtRow(product), s.rows, ClampedFree(product));
  }

  /**
   * A cart is refused for its first row at fault: because its product is not on offer, or else because more is asked
   * for than is shown; a cart without such a row passes this check.
   */
  lemma {:induction false} FirstFaultDecides(m: Market, rows: seq<CartRow>, catalog: Catalog, k: nat)
    requires k <= |rows| && forall i :: 0 <= i < k ==> OnOffer(m, rows[i], catalog) && Enough(m, rows[i])
    requires k < |rows| ==> !OnOffer(m, rows[k], catalog) || !Enough(m, rows[k])
    ensures CartObjection(m, rows, catalog)
            == if k == |rows| then None
               else if OnOffer(m, rows[k], catalog) then Some(NotEnoughStock) else Some(ProductNotAvailable)
  {
    hide Shown;
    if |rows| == 0 {
    } else {
      var n := |rows| - 1;
      FirstFaultDecides(m, rows[..n], catalog, Min(k, n));
      if rows[n].product in m.inv.products {
        ShownIsTotal(m.inv, rows[n].product);
      }
    }
  }

  /** Units of a product nobody has reserved: of all its rows together, or of its stock less live reservations. */
  function Unreserved(s: State, product: Id, now: Time): int
    requires product in s.products
  {
    Max(0, if HasRows(s.rows, product) then Sum(s.rows, Free(product))
           else s.products[product].stock - Sum(s.reservations, LiveFor(product, now)))
  }

  /** An order is refused for want of stock exactly when one of its lines asks for more than is unreserved. */
  lemma {:induction false} RefusedExactly(m: Market, order: Order, now: Time)
    ensures PlaceOrder(m, order, now) == Result.Failure(NotEnoughStock) <==>
              exists line :: line in order.lines
                             && (line.product.None? || line.product.value !in m.inv.products
                                 || line.quantity > Unreserved(m.inv, line.product.value, now))
  {
    hide ReserveLines, Free, Quantity, Reserved;
    forall i | 0 <= i < |order.lines|
      ensures LineAvailable(m.inv, order.lines[i], now) <==>
                && order.lines[i].product.Some? && order.lines[i].product.value in m.inv.products
                && order.lines[i].quantity <= Unreserved(m.inv, order.lines[i].product.value, now)
    {
      if order.lines[i].product.Some? {
        FreeIsDifference(m.inv.rows, order.lines[i].product.value);
      }
    }
    hide LineAvailable, Unreserved;
    if exists i :: 0 <= i < |order.lines| && !LineAvailable(m.inv, order.lines[i], now) {
      var i :| 0 <= i < |order.lines| && !LineAvailable(m.inv, order.lines[i], now);
      assert order.lines[i] in order.lines;
    }
  }
}
