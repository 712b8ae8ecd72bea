/** What every run of the inventory operations keeps, and where the code departs from it. */
module InventoryRuns {
  import opened Common
  import opened Sums
  import opened Inventory

  // ------------------------------------------------------------ reserving

  lemma {:induction false} ExpireStaleKeepsInv(s: State, product: Id, now: Time)
    requires Inv(s)
    ensures Inv(s.(reservations := ExpireStale(s.reservations, product, now)))
    ensures forall p, w :: Sum(ExpireStale(s.reservations, product, now), ActiveAt(p, w))
                           <= Sum(s.reservations, ActiveAt(p, w))
  {
    var t := s.(reservations := ExpireStale(s.reservations, product, now));
    assert forall i :: 0 <= i < |s.reservations| ==> ReservationPlaced(s, s.reservations[i]);
    forall p, w ensures 0 <= Sum(t.reservations, ActiveAt(p, w)) <= Sum(s.reservations, ActiveAt(p, w)) {
      SumLe(t.reservations, ActiveAt(p, w), s.reservations, ActiveAt(p, w));
      SumNonNegative(t.reservations, ActiveAt(p, w));
    }
    forall p ensures Sum(t.reservations, ActiveFor(p)) <= Sum(s.reservations, ActiveFor(p)) {
      SumLe(t.reservations, ActiveFor(p), s.reservations, ActiveFor(p));
    }
    forall k | 0 <= k < |t.rows| ensures RowCovers(t, t.rows[k]) {
      assert RowCovers(s, s.rows[k]);
    }
    forall k | 0 <= k < |t.reservations| ensures ReservationPlaced(t, t.reservations[k]) {
      assert ReservationPlaced(s, s.reservations[k]);
    }
    forall p | p in t.products ensures StockAgrees(t, p) && CounterCovers(t, p) {
      assert StockAgrees(s, p) && CounterCovers(s, p);
    }
  }

  /** The state `reserve` leaves when it succeeds, from the tables with stale rows already expired. */
  function Placed(s: State, r: Reservation, rows: seq<StockRow>): State
    requires r.product in s.products
  {
    var p := s.products[r.product];
    State(s.products[r.product := p.(reservedStock := p.reservedStock + r.quantity)], rows, s.reservations + [r])
  }

  lemma {:induction false} PlacedSums(s: State, r: Reservation)
    requires r.status.Active?
    ensures forall p, w :: Sum(s.reservations + [r], ActiveAt(p, w)) == Sum(s.reservations, ActiveAt(p, w))
                           + (if p == r.product && w == r.warehouse then r.quantity else 0)
    ensures forall p :: Sum(s.reservations + [r], ActiveFor(p)) == Sum(s.reservations, ActiveFor(p))
                        + (if p == r.product then r.quantity else 0)
  {
    forall p, w ensures Sum(s.reservations + [r], ActiveAt(p, w)) == Sum(s.reservations, ActiveAt(p, w))
        + (if p == r.product && w == r.warehouse then r.quantity else 0) {
      SumAppend(s.reservations, r, ActiveAt(p, w));
    }
    forall p ensures Sum(s.reservations + [r], ActiveFor(p)) == Sum(s.reservations, ActiveFor(p))
        + (if p == r.product then r.quantity else 0) {
      SumAppend(s.reservations, r, ActiveFor(p));
    }
  }

  lemma {:induction false} CounterFollows(s: State, r: Reservation, rows: seq<StockRow>)
    requires Inv(s) && r.status.Active? && r.product in s.products
    ensures forall p :: p in s.products ==> CounterCovers(Placed(s, r, rows), p)
  {
    PlacedSums(s, r);
    forall p | p in s.products ensures CounterCovers(Placed(s, r, rows), p) {
      assert CounterCovers(s, p);
    }
  }

  /** Reserving at a row that exists. */
  lemma {:induction false} PlaceAtRowKeepsInv(s: State, r: Reservation, i: nat)
    requires Inv(s) && r.status.Active? && r.product in s.products && r.quantity > 0
    requires r.warehouse.Some? && FindRow(s.rows, r.product, r.warehouse.value) == Some(i)
    requires s.rows[i].quantity - s.rows[i].reserved >= r.quantity
    ensures Inv(Placed(s, r, s.rows[i := s.rows[i].(reserved := s.rows[i].reserved + r.quantity)]))
  {
    var row := s.rows[i].(reserved := s.rows[i].reserved + r.quantity);
    var t := Placed(s, r, s.rows[i := row]);
    RowUpdate(s.rows, i, row);
    assert HasRows(s.rows, r.product);
    PlacedRowsGood(s, r, i);
    PlacedReservationsGood(s, r, t.rows);
    PlacedProductsGood(s, r, t.rows);
  }

  lemma {:induction false} PlacedRowsGood(s: State, r: Reservation, i: nat)
    requires RowsUnique(s.rows) && RowsGood(s) && r.status.Active? && r.product in s.products
    requires r.warehouse.Some? && FindRow(s.rows, r.product, r.warehouse.value) == Some(i)
    requires s.rows[i].quantity - s.rows[i].reserved >= r.quantity
    ensures RowsGood(Placed(s, r, s.rows[i := s.rows[i].(reserved := s.rows[i].reserved + r.quantity)]))
  {
    PlacedSums(s, r);
    var t := Placed(s, r, s.rows[i := s.rows[i].(reserved := s.rows[i].reserved + r.quantity)]);
    forall k | 0 <= k < |t.rows| ensures t.rows[k].product in t.products && RowCovers(t, t.rows[k]) {
      assert RowCovers(s, s.rows[k]);
      FoundIsUnique(s.rows, k);
    }
  }

  lemma {:induction false} PlacedReservationsGood(s: State, r: Reservation, rows: seq<StockRow>)
    requires ReservationsGood(s) && r.product in s.products && r.quantity > 0
    requires r.warehouse.Some? ==> FindRow(rows, r.product, r.warehouse.value).Some?
    requires forall p, w :: FindRow(s.rows, p, w).Some? ==> FindRow(rows, p, w).Some?
    ensures ReservationsGood(Placed(s, r, rows))
  {
    var t := Placed(s, r, rows);
    forall k | 0 <= k < |t.reservations| ensures ReservationPlaced(t, t.reservations[k]) {
      if k < |s.reservations| {
        assert ReservationPlaced(s, s.reservations[k]);
      }
    }
  }

  /** Placing at a warehouse, when physical stock and row presence stay. */
  lemma {:induction false} PlacedProductsGood(s: State, r: Reservation, rows: seq<StockRow>)
    requires ProductsGood(s) && r.status.Active? && r.product in s.products && r.warehouse.Some?
    requires forall p :: HasRows(rows, p) == HasRows(s.rows, p) && Sum(rows, Quantity(p)) == Sum(s.rows, Quantity(p))
    ensures ProductsGood(Placed(s, r, rows))
  {
    var t := Placed(s, r, rows);
    PlacedSums(s, r);
    forall p | p in t.products ensures StockAgrees(t, p) && CounterCovers(t, p) {
      assert StockAgrees(s, p) && CounterCovers(s, p);
    }
  }

  /** Reserving a product that has no rows, at no warehouse, within its stock. */
  lemma {:induction false} PlacePlainKeepsInv(s: State, r: Reservation)
    requires Inv(s) && r.status.Active? && r.product in s.products && r.quantity > 0
    requires r.warehouse.None? && !HasRows(s.rows, r.product)
    ensures Inv(Placed(s, r, s.rows)) <==>
              Sum(s.reservations, ActiveAt(r.product, None)) + r.quantity <= s.products[r.product].stock
  {
    var t := Placed(s, r, s.rows);
    PlacedSums(s, r);
    CounterFollows(s, r, t.rows);
    forall k | 0 <= k < |t.rows| ensures t.rows[k].product in t.products && RowCovers(t, t.rows[k]) {
      assert RowCovers(s, s.rows[k]);
    }
    forall k | 0 <= k < |t.reservations| ensures ReservationPlaced(t, t.reservations[k]) {
      if k < |s.reservations| {
        assert ReservationPlaced(s, s.reservations[k]);
      }
    }
    assert StockAgrees(t, r.product) <==>
        Sum(s.reservations, ActiveAt(r.product, None)) + r.quantity <= s.products[r.product].stock;
    forall p | p in t.products && p != r.product ensures StockAgrees(t, p) {
      assert StockAgrees(s, p);
    }
  }

  /** A new row: lookups of other keys, and row presence of other products, stay. */
  lemma {:induction false} RowAppend(rows: seq<StockRow>, row: StockRow)
    requires RowsUnique(rows) && FindRow(rows, row.product, row.warehouse).None?
    ensures RowsUnique(rows + [row])
    ensures forall p, w :: FindRow(rows, p, w).Some? ==> FindRow(rows + [row], p, w).Some?
    ensures FindRow(rows + [row], row.product, row.warehouse).Some?
    ensures forall p :: HasRows(rows + [row], p) <==> HasRows(rows, p) || p == row.product
    ensures forall p :: Sum(rows + [row], Quantity(p)) == Sum(rows, Quantity(p))
                        + (if p == row.product then row.quantity else 0)
  {
    var after := rows + [row];
    forall p, w | FindRow(rows, p, w).Some? || (p == row.product && w == row.warehouse)
        ensures FindRow(after, p, w).Some? {
      if FindRow(rows, p, w).Some? {
        assert after[FindRow(rows, p, w).value].product == p;
      } else {
        assert after[|rows|] == row;
      }
    }
    forall p ensures HasRows(after, p) <==> HasRows(rows, p) || p == row.product {
      if HasRows(rows, p) {
        var k :| 0 <= k < |rows| && rows[k].product == p;
        assert after[k].product == p;
      }
      assert after[|rows|].product == row.product;
    }
    forall p ensures Sum(after, Quantity(p)) == Sum(rows, Quantity(p))
        + (if p == row.product then row.quantity else 0) {
      SumAppend(rows, row, Quantity(p));
    }
  }

  lemma {:induction false} NoRowsNoUnits(s: State, product: Id)
    requires Inv(s) && !HasRows(s.rows, product)
    ensures Sum(s.rows, Quantity(product)) == 0
    ensures forall w :: Sum(s.reservations, ActiveAt(product, Some(w))) == 0
  {
    SumZero(s.rows, Quantity(product));
    forall w ensures Sum(s.reservations, ActiveAt(product, Some(w))) == 0 {
      forall i | 0 <= i < |s.reservations| ensures ActiveAt(product, Some(w))(s.reservations[i]) == 0 {
        assert ReservationPlaced(s, s.reservations[i]);
      }
      SumZero(s.reservations, ActiveAt(product, Some(w)));
    }
  }

  /** Seeding a row from the product's own stock keeps the books exactly when it is the product's first row. */
  lemma {:induction false} PlaceBySeedingExactly(s: State, r: Reservation)
    requires Inv(s) && r.status.Active? && r.product in s.products && r.quantity > 0
    requires r.warehouse.Some? && FindRow(s.rows, r.product, r.warehouse.value).None?
    requires r.quantity <= s.products[r.product].stock
    ensures var rows := s.rows + [StockRow(r.product, r.warehouse.value, s.products[r.product].stock, r.quantity)];
            Inv(Placed(s, r, rows)) <==> !HasRows(s.rows, r.product)
                                         && Sum(s.reservations, ActiveAt(r.product, None)) == 0
  {
    var row := StockRow(r.product, r.warehouse.value, s.products[r.product].stock, r.quantity);
    var t := Placed(s, r, s.rows + [row]);
    RowAppend(s.rows, row);
    PlacedReservationsGood(s, r, t.rows);
    assert StockAgrees(s, r.product);
    SeededProductGood(s, r, row);
    if !HasRows(s.rows, r.product) && Sum(s.reservations, ActiveAt(r.product, None)) == 0 {
      SeededRowsGood(s, r, row);
    }
  }

  lemma {:induction false} SeededRowsGood(s: State, r: Reservation, row: StockRow)
    requires Inv(s) && r.status.Active? && r.product in s.products && r.warehouse.Some?
    requires FindRow(s.rows, r.product, r.warehouse.value).None? && !HasRows(s.rows, r.product)
    requires row.product == r.product && row.warehouse == r.warehouse.value
               && r.quantity == row.reserved <= row.quantity
    ensures RowsGood(Placed(s, r, s.rows + [row]))
  {
    var t := Placed(s, r, s.rows + [row]);
    PlacedSums(s, r);
    NoRowsNoUnits(s, r.product);
    forall k | 0 <= k < |t.rows| ensures t.rows[k].product in t.products && RowCovers(t, t.rows[k]) {
      if k < |s.rows| {
        assert RowCovers(s, s.rows[k]);
      }
    }
  }

  lemma {:induction false} SeededProductGood(s: State, r: Reservation, row: StockRow)
    requires Inv(s) && r.status.Active? && r.product in s.products && r.warehouse.Some?
    requires FindRow(s.rows, row.product, row.warehouse).None? && row.product == r.product
    requires row.quantity == s.products[r.product].stock > 0
    ensures ProductsGood(Placed(s, r, s.rows + [row])) <==>
              !HasRows(s.rows, r.product) && Sum(s.reservations, ActiveAt(r.product, None)) == 0
  {
    var t := Placed(s, r, s.rows + [row]);
    SeededOthersGood(s, r, row);
    SeededOwnGood(s, r, row);
    hide StockAgrees, CounterCovers, Inv;
    assert t.products.Keys == s.products.Keys;
  }

  lemma {:induction false} SeededOthersGood(s: State, r: Reservation, row: StockRow)
    requires Inv(s) && r.status.Active? && r.product in s.products && row.product == r.product
    requires FindRow(s.rows, row.product, row.warehouse).None?
    ensures var t := Placed(s, r, s.rows + [row]);
            && (forall p :: p in t.products && p != r.product ==> StockAgrees(t, p) && CounterCovers(t, p))
            && CounterCovers(t, r.product)
  {
    var t := Placed(s, r, s.rows + [row]);
    RowAppend(s.rows, row);
    PlacedSums(s, r);
    forall p | p in t.products && p != r.product ensures StockAgrees(t, p) && CounterCovers(t, p) {
      assert StockAgrees(s, p) && CounterCovers(s, p);
    }
    assert CounterCovers(s, r.product);
  }

  lemma {:induction false} SeededOwnGood(s: State, r: Reservation, row: StockRow)
    requires Inv(s) && r.status.Active? && r.product in s.products && r.warehouse.Some? && row.product == r.product
    requires FindRow(s.rows, row.product, row.warehouse).None?
    requires row.quantity == s.products[r.product].stock > 0
    ensures StockAgrees(Placed(s, r, s.rows + [row]), r.product) <==>
              !HasRows(s.rows, r.product) && Sum(s.reservations, ActiveAt(r.product, None)) == 0
  {
    RowAppend(s.rows, row);
    PlacedSums(s, r);
    assert StockAgrees(s, r.product);
    if !HasRows(s.rows, r.product) {
      NoRowsNoUnits(s, r.product);
    }
  }

  /** Seeding a second row invents as many units as the product had. */
  lemma {:induction false} SeedingDuplicatesStock(s: State, product: Id, quantity: int, order: Id, warehouse: Id,
      now: Time, ttl: Time)
    requires Inv(s)
    requires HasRows(s.rows, product) && FindRow(s.rows, product, warehouse).None?
    requires Reserve(s, product, quantity, order, Some(warehouse), now, ttl).Success?
    ensures var t := Reserve(s, product, quantity, order, Some(warehouse), now, ttl).value;
            !Inv(t) && Sum(t.rows, Quantity(product)) == 2 * Sum(s.rows, Quantity(product)) > 0
  {
    var s1 := s.(reservations := ExpireStale(s.reservations, product, now));
    ExpireStaleKeepsInv(s, product, now);
    PlaceBySeedingExactly(s1, Reservation(product, order, Some(warehouse), quantity, Active, now + ttl));
    assert StockAgrees(s, product);
    SumAppend(s.rows, StockRow(product, warehouse, s.products[product].stock, quantity), Quantity(product));
  }

  /** Units of ACTIVE reservations that expire at this very instant: neither swept nor counted. */
  function ExpiringAt(product: Id, now: Time): Reservation -> int {
    (r: Reservation) => if r.status.Active? && r.product == product && r.expiresAt == now then r.quantity else 0
  }

  /** After the sweep, a plain product's ACTIVE units are the live ones and those expiring right now. */
  lemma {:induction false} PlainUnits(s: State, product: Id, now: Time)
    requires Inv(s) && !HasRows(s.rows, product)
    ensures Sum(ExpireStale(s.reservations, product, now), ActiveAt(product, None))
            == Sum(ExpireStale(s.reservations, product, now), LiveFor(product, now))
                + Sum(s.reservations, ExpiringAt(product, now))
  {
    var swept := ExpireStale(s.reservations, product, now);
    forall i | 0 <= i < |swept|
      ensures ActiveAt(product, None)(swept[i]) == LiveFor(product, now)(swept[i]) + ExpiringAt(product, now)(swept[i])
    {
      assert ReservationPlaced(s, s.reservations[i]);
    }
    SumSplit(swept, ActiveAt(product, None), LiveFor(product, now), ExpiringAt(product, now));
    SumSame(swept, ExpiringAt(product, now), s.reservations, ExpiringAt(product, now));
  }

  /** A successful `reserve` sweeps the stale reservations, then places the new one. */
  lemma {:induction false} ReserveShape(s: State, product: Id, quantity: int, order: Id, warehouse: Option<Id>,
      now: Time, ttl: Time)
    requires Reserve(s, product, quantity, order, warehouse, now, ttl).Success?
    ensures product in s.products && quantity > 0
    ensures var s1 := s.(reservations := ExpireStale(s.reservations, product, now));
            var rows := if warehouse.Some?
                then ReserveRows(s.rows, product, warehouse.value, quantity, s.products[product].stock)
                else Success(s.rows);
            && quantity <= GetAvailable(s1, product, now).available
            && rows.Success?
            && Reserve(s, product, quantity, order, warehouse, now, ttl).value
               == Placed(s1, Reservation(product, order, warehouse, quantity, Active, now + ttl), rows.value)
  {
  }

  /**
   * Without warehouses `reserve` keeps the books exactly when the reservations expiring at this
   * very instant still fit beside the new one; the code's own check does not count them.
   */
  lemma {:induction false} PlainReserveExactly(s: State, product: Id, quantity: int, order: Id, now: Time, ttl: Time)
    requires Inv(s)
    requires !HasRows(s.rows, product)
    requires Reserve(s, product, quantity, order, None, now, ttl).Success?
    ensures var s1 := s.(reservations := ExpireStale(s.reservations, product, now));
            Inv(Reserve(s, product, quantity, order, None, now, ttl).value)
            <==> Sum(s.reservations, ExpiringAt(product, now)) <= GetAvailable(s1, product, now).available - quantity
  {
    var s1 := s.(reservations := ExpireStale(s.reservations, product, now));
    ReserveShape(s, product, quantity, order, None, now, ttl);
    PlainUnits(s, product, now);
    assert Inv(s1) by {
      ExpireStaleKeepsInv(s, product, now);
    }
    PlacePlainKeepsInv(s1, Reservation(product, order, None, quantity, Active, now + ttl));
    PlainAvailable(s1, product, now);
  }

  lemma {:induction false} PlainAvailable(s: State, product: Id, now: Time)
    requires product in s.products && !HasRows(s.rows, product)
    ensures GetAvailable(s, product, now).available
              == Max(0, s.products[product].stock - Sum(s.reservations, LiveFor(product, now)))
  {
  }

  /** Such an oversale is reachable: one unit, reserved twice at the instant the first reservation expires. */
  lemma {:induction false} PlainOversale()
    ensures var s := State(map[0 := Product(1, 0)], [], []);
            var first := Reserve(s, 0, 1, 10, None, 0, 30);
            Inv(s) && first.Success? && Inv(first.value) &&
            var second := Reserve(first.value, 0, 1, 11, None, 30, 30);
            second.Success? && !Inv(second.value)
  {
    var s := State(map[0 := Product(1, 0)], [], []);
    OneUnitReserved();
    var t := Reserve(s, 0, 1, 10, None, 0, 30).value;
    hide Inv, Reserve;
    OneUnitExpiring(t);
    PlainReserveExactly(t, 0, 1, 11, 30, 30);
  }

  lemma {:induction false} OneUnitReserved()
    ensures var s := State(map[0 := Product(1, 0)], [], []);
            var first := Reserve(s, 0, 1, 10, None, 0, 30);
            Inv(s) && first.Success? && Inv(first.value)
            && first.value == State(map[0 := Product(1, 1)], [], [Reservation(0, 10, None, 1, Active, 30)])
  {
    var s := State(map[0 := Product(1, 0)], [], []);
    OneUnitFree(s);
    hide Inv, Reserve, GetAvailable, HasRows, ExpireStale;
    PlainReserveExactly(s, 0, 1, 10, 0, 30);
  }

  lemma {:induction false} OneUnitFree(s: State)
    requires s == State(map[0 := Product(1, 0)], [], [])
    ensures Inv(s) && !HasRows(s.rows, 0) && Sum(s.reservations, ExpiringAt(0, 0)) == 0
    ensures GetAvailable(s.(reservations := ExpireStale(s.reservations, 0, 0)), 0, 0).available == 1
    ensures Reserve(s, 0, 1, 10, None, 0, 30)
              == Success(State(map[0 := Product(1, 1)], [], [Reservation(0, 10, None, 1, Active, 30)]))
  {
    assert ExpireStale(s.reservations, 0, 0) == [];
    var t := Reserve(s, 0, 1, 10, None, 0, 30).value;
    assert t.products == map[0 := Product(1, 1)];
    assert t.reservations == [Reservation(0, 10, None, 1, Active, 30)];
  }

  lemma {:induction false} OneUnitExpiring(t: State)
    requires t == State(map[0 := Product(1, 1)], [], [Reservation(0, 10, None, 1, Active, 30)])
    ensures Reserve(t, 0, 1, 11, None, 30, 30).Success?
    ensures !HasRows(t.rows, 0) && Sum(t.reservations, ExpiringAt(0, 30)) == 1
    ensures GetAvailable(t.(reservations := ExpireStale(t.reservations, 0, 30)), 0, 30).available == 1
  {
    var r := t.reservations[0];
    assert ExpireStale(t.reservations, 0, 30) == [r];
    SumOne(r, LiveFor(0, 30));
    SumOne(r, ExpiringAt(0, 30));
  }

  /**
   * When a successful `reserve` keeps the books: at a warehouse, if its row exists, or if the product
   * has no row and no plain unit is still held; without a warehouse, if the product has no row and the
   * units expiring at this very instant still fit beside the new ones.
   */
  predicate TameReserve(s: State, product: Id, quantity: int, warehouse: Option<Id>, now: Time) {
    var swept := ExpireStale(s.reservations, product, now);
    match warehouse
    case None =>
      && product in s.products && !HasRows(s.rows, product)
      && Sum(s.reservations, ExpiringAt(product, now)) <= GetAvailable(s.(reservations := swept), product,
           now).available - quantity
    case Some(w) =>
      FindRow(s.rows, product, w).Some? || (!HasRows(s.rows, product) && Sum(swept, ActiveAt(product, None)) == 0)
  }

  /** A plain reservation beside rows is never in the books. */
  lemma {:induction false} PlainBesideRowsBreaks(s: State, r: Reservation)
    requires Inv(s) && r.status.Active? && r.product in s.products && r.quantity > 0
    requires r.warehouse.None? && HasRows(s.rows, r.product)
    ensures !Inv(Placed(s, r, s.rows)) && Sum(Placed(s, r, s.rows).reservations, ActiveAt(r.product, None)) > 0
  {
    PlacedSums(s, r);
    ActiveSumsNonNegative(s);
    var t := Placed(s, r, s.rows);
    assert Inv(t) ==> StockAgrees(t, r.product);
  }

  lemma {:induction false} ReserveExactly(s: State, product: Id, quantity: int, order: Id, warehouse: Option<Id>,
      now: Time, ttl: Time)
    requires Inv(s)
    requires Reserve(s, product, quantity, order, warehouse, now, ttl).Success?
    ensures Inv(Reserve(s, product, quantity, order, warehouse, now, ttl).value) <==>
              TameReserve(s, product, quantity, warehouse, now)
  {
    hide Inv;
    var s1 := s.(reservations := ExpireStale(s.reservations, product, now));
    var r := Reservation(product, order, warehouse, quantity, Active, now + ttl);
    ReserveShape(s, product, quantity, order, warehouse, now, ttl);
    assert Inv(s1) by {
      ExpireStaleKeepsInv(s, product, now);
    }
    match warehouse
    case None =>
      if HasRows(s.rows, product) {
        PlainBesideRowsBreaks(s1, r);
      } else {
        PlainReserveExactly(s, product, quantity, order, now, ttl);
      }
    case Some(w) =>
      var found := FindRow(s.rows, product, w);
      if found.Some? {
        PlaceAtRowKeepsInv(s1, r, found.value);
      } else {
        PlaceBySeedingExactly(s1, r);
      }
  }

  // ----------------------------------------- what reserves do to broken books

  /**
   * The two ways a reserve breaks the books of a product, with nothing of it stale at `now`: plain units
   * beside rows or beyond the stock, or rows with more units than the stock.
   */
  predicate Broken(s: State, product: Id, now: Time) {
    && product in s.products
    && (forall i :: 0 <= i < |s.reservations| ==>
         s.reservations[i].quantity > 0 && !Stale(s.reservations[i], product, now))
    && var plain := Sum(s.reservations, ActiveAt(product, None));
       if HasRows(s.rows, product) then plain > 0 || Sum(s.rows, Quantity(product)) > s.products[product].stock
       else plain > s.products[product].stock
  }

  lemma {:induction false} BrokenIsBad(s: State, product: Id, now: Time)
    requires Broken(s, product, now)
    ensures !Inv(s)
  {
  }

  /** An untame reserve breaks the books of its product. */
  lemma {:induction false} UntameReserveBreaks(s: State, product: Id, quantity: int, order: Id, warehouse: Option<Id>,
      now: Time, ttl: Time)
    requires Inv(s) && ttl >= 0
    requires Reserve(s, product, quantity, order, warehouse, now, ttl).Success?
               && !TameReserve(s, product, quantity, warehouse, now)
    ensures Broken(Reserve(s, product, quantity, order, warehouse, now, ttl).value, product, now)
  {
    hide Inv, GetAvailable;
    var s1 := s.(reservations := ExpireStale(s.reservations, product, now));
    var r := Reservation(product, order, warehouse, quantity, Active, now + ttl);
    ReserveShape(s, product, quantity, order, warehouse, now, ttl);
    ExpireStaleKeepsInv(s, product, now);
    PlacedSums(s1, r);
    ActiveSumsNonNegative(s1);
    QuantitiesPositive(s1);
    StockOf(s1, product);
    match warehouse
    case None =>
      if !HasRows(s.rows, product) {
        ReserveExactly(s, product, quantity, order, warehouse, now, ttl);
        PlacePlainKeepsInv(s1, r);
      }
    case Some(w) =>
      assert FindRow(s.rows, product, w).None?;
      SeedingAdds(s.rows, product, w, quantity, s.products[product].stock);
  }

  lemma {:induction false} QuantitiesPositive(s: State)
    requires Inv(s)
    ensures forall i :: 0 <= i < |s.reservations| ==> s.reservations[i].quantity > 0
  {
    forall i | 0 <= i < |s.reservations| ensures s.reservations[i].quantity > 0 {
      assert ReservationPlaced(s, s.reservations[i]);
    }
  }

  lemma {:induction false} StockOf(s: State, product: Id)
    requires Inv(s) && product in s.products
    ensures StockAgrees(s, product)
  {
  }

  lemma {:induction false} SeedingAdds(rows: seq<StockRow>, product: Id, warehouse: Id, quantity: int, stock: int)
    requires FindRow(rows, product, warehouse).None? && ReserveRows(rows, product, warehouse, quantity, stock).Success?
    ensures quantity <= stock
    ensures var after := ReserveRows(rows, product, warehouse, quantity, stock).value;
            HasRows(after, product) && Sum(after, Quantity(product)) == Sum(rows, Quantity(product)) + stock
  {
    var row := StockRow(product, warehouse, stock, quantity);
    SumAppend(rows, row, Quantity(product));
    assert (rows + [row])[|rows|] == row;
  }

  /** Rows change by a reserve only in their reserved counts, or by a new row of the product reserved. */
  lemma {:induction false} ReserveRowsUnits(rows: seq<StockRow>, product: Id, warehouse: Id, quantity: int,
      stock: int, other: Id)
    requires quantity > 0 && ReserveRows(rows, product, warehouse, quantity, stock).Success?
    ensures var after := ReserveRows(rows, product, warehouse, quantity, stock).value;
            && (HasRows(rows, other) ==> HasRows(after, other))
            && (HasRows(after, other) && !HasRows(rows, other) ==> other == product && stock > 0)
            && Sum(after, Quantity(other)) >= Sum(rows, Quantity(other))
  {
    var after := ReserveRows(rows, product, warehouse, quantity, stock).value;
    var found := FindRow(rows, product, warehouse);
    if found.None? {
      SumAppend(rows, StockRow(product, warehouse, stock, quantity), Quantity(other));
    } else {
      SumUpdate(rows, found.value, after[found.value], Quantity(other));
    }
    if HasRows(rows, other) {
      var k :| 0 <= k < |rows| && rows[k].product == other;
      assert after[k].product == other;
    }
    if HasRows(after, other) && other != product {
      var k :| 0 <= k < |after| && after[k].product == other;
      assert rows[k].product == other;
    }
  }

  /** Further reserves at the same moment, of whatever product, do not repair broken books. */
  lemma {:induction false} ReserveKeepsBroken(s: State, broken: Id, product: Id, quantity: int, order: Id,
      warehouse: Option<Id>, now: Time, ttl: Time)
    requires Broken(s, broken, now) && ttl >= 0
    requires Reserve(s, product, quantity, order, warehouse, now, ttl).Success?
    ensures Broken(Reserve(s, product, quantity, order, warehouse, now, ttl).value, broken, now)
  {
    hide GetAvailable, HasRows, ReserveRows;
    var swept := ExpireStale(s.reservations, product, now);
    var r := Reservation(product, order, warehouse, quantity, Active, now + ttl);
    ReserveShape(s, product, quantity, order, warehouse, now, ttl);
    SumSame(swept, ActiveAt(broken, None), s.reservations, ActiveAt(broken, None));
    SumAppend(swept, r, ActiveAt(broken, None));
    SumNonNegative(s.reservations, ActiveAt(broken, None));
    if warehouse.Some? {
      ReserveRowsUnits(s.rows, product, warehouse.value, quantity, s.products[product].stock, broken);
    }
  }

  /** Two runs that leave the books, from a product with two plain units: a plain reserve beside a seeded row. */
  lemma {:induction false} PlainReserveBesideRows()
    ensures var s := State(map[0 := Product(2, 0)], [], []);
            var seeded := Reserve(s, 0, 1, 10, Some(5), 0, 30);
            Inv(s) && seeded.Success? && Inv(seeded.value) &&
            var plain := Reserve(seeded.value, 0, 1, 11, None, 0, 30);
            plain.Success? && !Inv(plain.value)
  {
    var s := State(map[0 := Product(2, 0)], [], []);
    TwoUnitsFree(s);
    var t := Reserve(s, 0, 1, 10, Some(5), 0, 30).value;
    OneRowSeeded(t);
    hide Inv, Reserve;
    ReserveExactly(s, 0, 1, 10, Some(5), 0, 30);
    ReserveExactly(t, 0, 1, 11, None, 0, 30);
  }

  lemma {:induction false} TwoUnitsFree(s: State)
    requires s == State(map[0 := Product(2, 0)], [], [])
    ensures Inv(s) && TameReserve(s, 0, 1, Some(5), 0)
    ensures Reserve(s, 0, 1, 10, Some(5), 0, 30)
            == Success(State(map[0 := Product(2, 1)], [StockRow(0, 5, 2, 1)],
                [Reservation(0, 10, Some(5), 1, Active, 30)]))
  {
    assert ExpireStale(s.reservations, 0, 0) == [];
    FirstRow(s.rows, 0, 5, 1, 2);
    var t := Reserve(s, 0, 1, 10, Some(5), 0, 30).value;
    assert t.products == map[0 := Product(2, 1)];
    assert t.reservations == [Reservation(0, 10, Some(5), 1, Active, 30)];
    assert t.rows == [StockRow(0, 5, 2, 1)];
  }

  lemma {:induction false} FirstRow(rows: seq<StockRow>, product: Id, warehouse: Id, quantity: int, stock: int)
    requires rows == [] && quantity <= stock
    ensures ReserveRows(rows, product, warehouse, quantity, stock)
              == Success([StockRow(product, warehouse, stock, quantity)])
  {
    assert rows + [StockRow(product, warehouse, stock, quantity)] == [StockRow(product, warehouse, stock, quantity)];
  }

  lemma {:induction false} OneRowSeeded(t: State)
    requires t == State(map[0 := Product(2, 1)], [StockRow(0, 5, 2, 1)], [Reservation(0, 10, Some(5), 1, Active, 30)])
    ensures HasRows(t.rows, 0) && Reserve(t, 0, 1, 11, None, 0, 30).Success?
  {
    assert t.rows[0].product == 0;
    SumOne(t.rows[0], Reserved(0));
    SumOne(t.rows[0], Quantity(0));
  }

  // ------------------------------------------------------------ restocking

  /** Units come back to a row, or to a product without rows. */
  /** When a restock keeps the books: not if it puts units on a product with rows, but on none of its rows. */
  predicate TameRestock(s: State, product: Id, warehouse: Option<Id>, quantity: nat) {
    warehouse.None? && product in s.products && HasRows(s.rows, product) ==> quantity == 0
  }

  /** A restock that finds its row (or needs none): the row, and the product's stock with it, grow by the quantity. */
  lemma {:induction false} RestockExact(s: State, product: Id, warehouse: Option<Id>, quantity: nat)
    requires Inv(s)
    requires product in s.products && (warehouse.Some? ==> FindRow(s.rows, product, warehouse.value).Some?)
    ensures var t := GiveBack(s, product, warehouse, quantity, true);
            var p := s.products[product];
            && t == State(s.products[product := p.(stock := p.stock + quantity)], t.rows, s.reservations)
            && (if warehouse.None? then t.rows == s.rows
                else var found := FindRow(s.rows, product, warehouse.value).value;
                     t.rows == s.rows[found := s.rows[found].(quantity := s.rows[found].quantity + quantity)]
                     && s.products[product].stock == Sum(s.rows, Quantity(product)))
  {
    if warehouse.Some? {
      var found := FindRow(s.rows, product, warehouse.value).value;
      RowBehind(s, found);
      UniqueRows(s);
      hide Inv, HasRows;
      RestockRow(s, product, warehouse.value, quantity);
    }
  }

  lemma {:induction false} RestockRow(s: State, product: Id, warehouse: Id, quantity: nat)
    requires RowsUnique(s.rows) && FindRow(s.rows, product, warehouse).Some?
    requires product in s.products && s.products[product].stock == Sum(s.rows, Quantity(product))
    ensures var found := FindRow(s.rows, product, warehouse).value;
            var p := s.products[product];
            GiveBack(s, product, Some(warehouse), quantity, true)
            == State(s.products[product := p.(stock := p.stock + quantity)],
                     s.rows[found := s.rows[found].(quantity := s.rows[found].quantity + quantity)], s.reservations)
  {
    hide RowsUnique, Sync;
    var found := FindRow(s.rows, product, warehouse).value;
    SyncFollowsRow(s, found, s.rows[found].(quantity := s.rows[found].quantity + quantity));
  }

  lemma {:induction false} UniqueRows(s: State)
    requires Inv(s)
    ensures RowsUnique(s.rows)
  {
  }

  lemma {:induction false} RestockKeepsInv(s: State, product: Id, warehouse: Option<Id>, quantity: nat)
    requires Inv(s)
    requires TameRestock(s, product, warehouse, quantity)
    ensures var t := GiveBack(s, product, warehouse, quantity, true);
            && Inv(t) && t.reservations == s.reservations && t.products.Keys == s.products.Keys
            && (forall p :: HasRows(t.rows, p) == HasRows(s.rows, p))
            && (forall p, w :: FindRow(t.rows, p, w) == FindRow(s.rows, p, w))
  {
    if product in s.products && (warehouse.Some? ==> FindRow(s.rows, product, warehouse.value).Some?) {
      RestockExact(s, product, warehouse, quantity);
      UniqueRows(s);
      hide Inv, HasRows, RowsUnique, GiveBack;
      var t := GiveBack(s, product, warehouse, quantity, true);
      if warehouse.Some? {
        var found := FindRow(s.rows, product, warehouse.value).value;
        RowUpdate(s.rows, found, t.rows[found]);
      } else if HasRows(s.rows, product) {
        StockOfRows(s, product);
      }
      RestockedTables(s, t.rows, product, t.products[product]);
    }
  }

  lemma {:induction false} StockOfRows(s: State, product: Id)
    requires Inv(s) && product in s.products && HasRows(s.rows, product)
    ensures s.products[product].stock == Sum(s.rows, Quantity(product))
  {
    assert StockAgrees(s, product);
  }

  /**
   * A plain restock beside rows leaves the stock ahead of the rows; the next synchronisation takes the units
   * away again.
   */
  lemma {:induction false} PlainRestockBesideRows(s: State, product: Id, quantity: nat)
    requires Inv(s) && product in s.products && HasRows(s.rows, product)
    ensures var t := GiveBack(s, product, None, quantity, true);
            && t.products[product].stock == Sum(t.rows, Quantity(product)) + quantity
            && Sync(t, product) == s
            && (Inv(t) <==> quantity == 0)
  {
    assert StockAgrees(s, product);
    var t := GiveBack(s, product, None, quantity, true);
    var p := s.products[product];
    assert s.products[product := p.(stock := p.stock + quantity)][product := p] == s.products;
    if quantity == 0 {
      assert t == s;
    }
    assert Inv(t) ==> StockAgrees(t, product);
  }

  lemma {:induction false} RestockExactly(s: State, product: Id, warehouse: Option<Id>, quantity: nat)
    requires Inv(s)
    ensures Inv(GiveBack(s, product, warehouse, quantity, true)) <==> TameRestock(s, product, warehouse, quantity)
  {
    hide Inv;
    if TameRestock(s, product, warehouse, quantity) {
      RestockKeepsInv(s, product, warehouse, quantity);
    } else {
      PlainRestockBesideRows(s, product, quantity);
    }
  }

  /** Such a restock is reachable: sell a plain unit, seed a row with another order, and take the first order back. */
  lemma {:induction false} PlainRestockAfterSeeding()
    ensures var s := State(map[0 := Product(2, 0)], [], []);
            var plain := Reserve(s, 0, 1, 10, None, 0, 30);
            Inv(s) && plain.Success? && Inv(plain.value) &&
            var sold := Confirm(plain.value, 10);
            sold.Success? && Inv(sold.value) &&
            var seeded := Reserve(sold.value, 0, 1, 11, Some(5), 0, 30);
            seeded.Success? && Inv(seeded.value) && !Inv(GiveBack(seeded.value, 0, None, 1, true))
  {
    var s := State(map[0 := Product(2, 0)], [], []);
    PlainUnitSold(s);
    var sold := State(map[0 := Product(1, 0)], [], [Reservation(0, 10, None, 1, Confirmed, 30)]);
    SoldThenSeeded(sold);
    hide Inv, Reserve, Confirm, GiveBack;
    ReserveExactly(s, 0, 1, 10, None, 0, 30);
    ConfirmTakesExactly(Reserve(s, 0, 1, 10, None, 0, 30).value, 10);
    ReserveExactly(sold, 0, 1, 11, Some(5), 0, 30);
    RestockExactly(Reserve(sold, 0, 1, 11, Some(5), 0, 30).value, 0, None, 1);
  }

  lemma {:induction false} PlainUnitSold(s: State)
    requires s == State(map[0 := Product(2, 0)], [], [])
    ensures Inv(s) && TameReserve(s, 0, 1, None, 0) && Reserve(s, 0, 1, 10, None, 0, 30).Success?
    ensures Confirm(Reserve(s, 0, 1, 10, None, 0, 30).value, 10)
            == Success(State(map[0 := Product(1, 0)], [], [Reservation(0, 10, None, 1, Confirmed, 30)]))
  {
    assert ExpireStale(s.reservations, 0, 0) == [];
    var t := Reserve(s, 0, 1, 10, None, 0, 30).value;
    assert t.products == map[0 := Product(2, 1)];
    assert t.reservations == [Reservation(0, 10, None, 1, Active, 30)];
    hide Inv, Reserve, TameReserve;
    OnlyUnitConfirmed(t);
  }

  lemma {:induction false} OnlyUnitConfirmed(t: State)
    requires t == State(map[0 := Product(2, 1)], [], [Reservation(0, 10, None, 1, Active, 30)])
    ensures Confirm(t, 10) == Success(State(map[0 := Product(1, 0)], [], [Reservation(0, 10, None, 1, Confirmed, 30)]))
  {
    OnlyPosition(t.reservations, 10);
    OnlyUnitTaken(t);
    hide ConfirmOne, ActiveOf;
    var ids: seq<nat> := [0];
    assert ids[..0] == [];
    assert ConfirmEach(t, ids) == ConfirmOne(t, 0);
  }

  lemma {:induction false} OnlyPosition(reservations: seq<Reservation>, order: Id)
    requires |reservations| == 1 && reservations[0].order == order && reservations[0].status.Active?
    ensures ActiveOf(reservations, order) == [0]
  {
    assert ActiveOf(reservations[..0], order) == [];
  }

  lemma {:induction false} OnlyUnitTaken(t: State)
    requires t == State(map[0 := Product(2, 1)], [], [Reservation(0, 10, None, 1, Active, 30)])
    ensures ConfirmOne(t, 0) == Success(State(map[0 := Product(1, 0)], [],
              [Reservation(0, 10, None, 1, Confirmed, 30)]))
  {
    var taken := TakeStock(t, 0, None, 1).value;
    assert taken.products == map[0 := Product(1, 1)];
    var settled := Settled(taken, 0, Confirmed, 1);
    assert settled.products == map[0 := Product(1, 0)];
    assert settled.reservations == [Reservation(0, 10, None, 1, Confirmed, 30)];
  }

  lemma {:induction false} SoldThenSeeded(t: State)
    requires t == State(map[0 := Product(1, 0)], [], [Reservation(0, 10, None, 1, Confirmed, 30)])
    ensures TameReserve(t, 0, 1, Some(5), 0) && Reserve(t, 0, 1, 11, Some(5), 0, 30).Success?
    ensures var u := Reserve(t, 0, 1, 11, Some(5), 0, 30).value; 0 in u.products && HasRows(u.rows, 0)
  {
    var r := t.reservations[0];
    assert ExpireStale(t.reservations, 0, 0) == [r];
    SumOne(r, LiveFor(0, 0));
    SumOne(r, ActiveAt(0, None));
    var u := Reserve(t, 0, 1, 11, Some(5), 0, 30).value;
    assert u.rows[0].product == 0;
  }

  lemma {:induction false} RestockedTables(s: State, rows: seq<StockRow>, product: Id, p': Product)
    requires Inv(s)
    requires product in s.products && p'.reservedStock == s.products[product].reservedStock
               && p'.stock >= s.products[product].stock
    requires HasRows(rows, product) ==> p'.stock == Sum(rows, Quantity(product))
    requires RowsUnique(rows) && |rows| == |s.rows|
    requires forall k :: 0 <= k < |s.rows| ==> rows[k].product == s.rows[k].product
                                               && rows[k].warehouse == s.rows[k].warehouse
                                               && rows[k].reserved == s.rows[k].reserved
                                               && rows[k].quantity >= s.rows[k].quantity
    requires forall p :: HasRows(rows, p) == HasRows(s.rows, p)
    requires forall p, w :: FindRow(rows, p, w) == FindRow(s.rows, p, w)
    requires forall p: Id :: p != product ==> Sum(rows, Quantity(p)) == Sum(s.rows, Quantity(p))
    ensures Inv(State(s.products[product := p'], rows, s.reservations))
  {
    var t := State(s.products[product := p'], rows, s.reservations);
    forall k | 0 <= k < |t.rows| ensures t.rows[k].product in t.products && RowCovers(t, t.rows[k]) {
      assert RowCovers(s, s.rows[k]);
    }
    forall k | 0 <= k < |t.reservations| ensures ReservationPlaced(t, t.reservations[k]) {
      assert ReservationPlaced(s, s.reservations[k]);
    }
    forall p | p in t.products ensures StockAgrees(t, p) && CounterCovers(t, p) {
      assert StockAgrees(s, p) && CounterCovers(s, p);
    }
  }

  // ------------------------------------- the loops over an order's reservations

  /** ACTIVE units of an order of a product, and at one of its warehouses. */
  function HeldBy(order: Id, product: Id): Reservation -> int {
    (r: Reservation) => if r.status.Active? && r.order == order && r.product == product then r.quantity else 0
  }

  function HeldAt(order: Id, product: Id, warehouse: Option<Id>): Reservation -> int {
    (r: Reservation) => if r.status.Active? && r.order == order && r.product == product && r.warehouse == warehouse
        then r.quantity else 0
  }

  /** What the product's reserved counter will lose when the order's ACTIVE reservations are closed as `status`. */
  function CountedBy(order: Id, product: Id, status: ReservationStatus): Reservation -> int {
    (r: Reservation) => if r.status.Active? && r.order == order && r.product == product
        then CounterFall(r, status) else 0
  }

  predicate Increasing(ids: seq<nat>) {
    forall k, l :: 0 <= k < l < |ids| ==> ids[k] < ids[l]
  }

  predicate AllActive(s: State, ids: seq<nat>, order: Id) {
    forall k :: 0 <= k < |ids| ==> ids[k] < |s.reservations| && s.reservations[ids[k]].status.Active?
                                   && s.reservations[ids[k]].order == order
  }

  /** The reservation table after the listed positions took a new status. */
  predicate Relabelled(before: seq<Reservation>, after: seq<Reservation>, ids: seq<nat>, status: ReservationStatus) {
    && |after| == |before|
    && (forall i :: 0 <= i < |before| ==> after[i] == if i in ids then before[i].(status := status) else before[i])
  }

  /**
   * Physical stock moves against the order's own ACTIVE units and nothing else: by `take` units per
   * unit held at each row and product; row keys stay, and reserved counts drop with the holds.
   */
  ghost predicate Exchanged(s: State, t: State, order: Id, status: ReservationStatus, take: int) {
    && t.products.Keys == s.products.Keys
    && |t.rows| == |s.rows|
    && (forall p :: p in s.products ==>
          && t.products[p].stock - take * Sum(t.reservations, HeldBy(order, p))
               == s.products[p].stock - take * Sum(s.reservations, HeldBy(order, p))
          && t.products[p].reservedStock - Sum(t.reservations, CountedBy(order, p, status))
             == s.products[p].reservedStock - Sum(s.reservations, CountedBy(order, p, status)))
    && (forall k :: 0 <= k < |s.rows| ==>
          RowExchanged(s.rows[k], t.rows[k], take,
                       Sum(s.reservations, HeldAt(order, s.rows[k].product, Some(s.rows[k].warehouse))),
                       Sum(t.reservations, HeldAt(order, s.rows[k].product, Some(s.rows[k].warehouse)))))
  }

  predicate RowExchanged(before: StockRow, after: StockRow, take: int, heldBefore: int, heldAfter: int) {
    && after.product == before.product && after.warehouse == before.warehouse
    && after.quantity - take * heldAfter == before.quantity - take * heldBefore
    && after.reserved - heldAfter == before.reserved - heldBefore
  }

  lemma {:induction false} ClosedRowExchanged(s: State, t: State, i: nat, status: ReservationStatus, take: int, k: nat)
    requires i < |s.reservations| && s.reservations[i].status.Active? && !status.Active?
    requires take == 0 || take == 1
    requires Closes(s, t, i, status, take * s.reservations[i].quantity)
    requires RowsUnique(s.rows) && k < |s.rows|
    ensures |t.rows| == |s.rows|
    ensures var order := s.reservations[i].order;
            RowExchanged(s.rows[k], t.rows[k], take,
                         Sum(s.reservations, HeldAt(order, s.rows[k].product, Some(s.rows[k].warehouse))),
                         Sum(t.reservations, HeldAt(order, s.rows[k].product, Some(s.rows[k].warehouse))))
  {
    var r := s.reservations[i];
    SumUpdate(s.reservations, i, r.(status := status), HeldAt(r.order, s.rows[k].product, Some(s.rows[k].warehouse)));
    FoundIsUnique(s.rows, k);
  }

  lemma {:induction false} ClosedProductsExchanged(s: State, t: State, i: nat, status: ReservationStatus,
      take: int, p: Id)
    requires i < |s.reservations| && s.reservations[i].status.Active? && !status.Active?
    requires take == 0 || take == 1
    requires Closes(s, t, i, status, take * s.reservations[i].quantity)
    ensures t.products.Keys == s.products.Keys && |t.rows| == |s.rows|
    ensures var order := s.reservations[i].order;
            p in s.products ==>
              && t.products[p].stock - take * Sum(t.reservations, HeldBy(order, p))
                   == s.products[p].stock - take * Sum(s.reservations, HeldBy(order, p))
              && t.products[p].reservedStock - Sum(t.reservations, CountedBy(order, p, status))
                 == s.products[p].reservedStock - Sum(s.reservations, CountedBy(order, p, status))
  {
    var r := s.reservations[i];
    SumUpdate(s.reservations, i, r.(status := status), HeldBy(r.order, p));
    SumUpdate(s.reservations, i, r.(status := status), CountedBy(r.order, p, status));
  }

  lemma {:induction false} ClosingExchanges(s: State, t: State, i: nat, status: ReservationStatus, take: int)
    requires i < |s.reservations| && s.reservations[i].status.Active? && !status.Active?
    requires take == 0 || take == 1
    requires Closes(s, t, i, status, take * s.reservations[i].quantity)
    requires RowsUnique(s.rows)
    ensures Exchanged(s, t, s.reservations[i].order, status, take)
  {
    hide Closes, RowExchanged;
    var order := s.reservations[i].order;
    forall p: Id
      ensures t.products.Keys == s.products.Keys && |t.rows| == |s.rows|
      ensures p in s.products ==>
                && t.products[p].stock - take * Sum(t.reservations, HeldBy(order, p))
                     == s.products[p].stock - take * Sum(s.reservations, HeldBy(order, p))
                && t.products[p].reservedStock - Sum(t.reservations, CountedBy(order, p, status))
                   == s.products[p].reservedStock - Sum(s.reservations, CountedBy(order, p, status))
    {
      ClosedProductsExchanged(s, t, i, status, take, p);
    }
    ClosedProductsExchanged(s, t, i, status, take, 0);
    forall k | 0 <= k < |s.rows|
      ensures RowExchanged(s.rows[k], t.rows[k], take,
                           Sum(s.reservations, HeldAt(order, s.rows[k].product, Some(s.rows[k].warehouse))),
                           Sum(t.reservations, HeldAt(order, s.rows[k].product, Some(s.rows[k].warehouse))))
    {
      ClosedRowExchanged(s, t, i, status, take, k);
    }
  }

  lemma {:induction false} ExchangedTransitive(s: State, t: State, u: State, order: Id,
      status: ReservationStatus, take: int)
    requires take == 0 || take == 1
    requires Exchanged(s, t, order, status, take) && Exchanged(t, u, order, status, take)
    ensures Exchanged(s, u, order, status, take)
  {
    forall k | 0 <= k < |s.rows|
      ensures RowExchanged(s.rows[k], u.rows[k], take,
                           Sum(s.reservations, HeldAt(order, s.rows[k].product, Some(s.rows[k].warehouse))),
                           Sum(u.reservations, HeldAt(order, s.rows[k].product, Some(s.rows[k].warehouse))))
    {
      assert RowExchanged(s.rows[k], t.rows[k], take,
                          Sum(s.reservations, HeldAt(order, s.rows[k].product, Some(s.rows[k].warehouse))),
                          Sum(t.reservations, HeldAt(order, s.rows[k].product, Some(s.rows[k].warehouse))));
      assert RowExchanged(t.rows[k], u.rows[k], take,
                          Sum(t.reservations, HeldAt(order, t.rows[k].product, Some(t.rows[k].warehouse))),
                          Sum(u.reservations, HeldAt(order, t.rows[k].product, Some(t.rows[k].warehouse))));
    }
  }

  lemma {:induction false} RelabelOneMore(before: seq<Reservation>, mid: seq<Reservation>, ids: seq<nat>, i: nat,
      status: ReservationStatus)
    requires Relabelled(before, mid, ids, status)
    requires i < |before| && i !in ids
    ensures Relabelled(before, mid[i := mid[i].(status := status)], ids + [i], status)
  {
  }

  lemma {:induction false} ConfirmOneMore(s: State, i: nat)
    requires Inv(s)
    requires i < |s.reservations| && s.reservations[i].status.Active?
    ensures var r := ConfirmOne(s, i);
            && r.Success? && Inv(r.value)
            && r.value.reservations == s.reservations[i := s.reservations[i].(status := Confirmed)]
            && Exchanged(s, r.value, s.reservations[i].order, Confirmed, 1)
  {
    ConfirmOneCloses(s, i);
    ClosingExchanges(s, ConfirmOne(s, i).value, i, Confirmed, 1);
  }

  lemma {:induction false} LetGoOneMore(s: State, i: nat, status: ReservationStatus)
    requires Inv(s)
    requires i < |s.reservations| && s.reservations[i].status.Active? && !status.Active? && !status.Confirmed?
    ensures var t := LetGoOne(s, i, status);
            && Inv(t)
            && t.reservations == s.reservations[i := s.reservations[i].(status := status)]
            && Exchanged(s, t, s.reservations[i].order, status, 0)
  {
    LetGoOneCloses(s, i, status);
    ClosingExchanges(s, LetGoOne(s, i, status), i, status, 0);
  }

  /** From `s` to `t`: the listed positions relabelled, their units exchanged, the books still good. */
  ghost predicate Processed(s: State, t: State, ids: seq<nat>, order: Id, status: ReservationStatus, take: int) {
    Inv(t) && Relabelled(s.reservations, t.reservations, ids, status) && Exchanged(s, t, order, status, take)
  }

  lemma {:induction false} ProcessOneMore(s: State, mid: State, t: State, ids: seq<nat>, i: nat, order: Id,
      status: ReservationStatus, take: int)
    requires take == 0 || take == 1
    requires Processed(s, mid, ids, order, status, take)
    requires i < |s.reservations| && i !in ids
    requires Inv(t) && t.reservations == mid.reservations[i := mid.reservations[i].(status := status)]
               && Exchanged(mid, t, order, status, take)
    ensures Processed(s, t, ids + [i], order, status, take)
  {
    assert Relabelled(s.reservations, t.reservations, ids + [i], status) by {
      RelabelOneMore(s.reservations, mid.reservations, ids, i, status);
    }
    assert Exchanged(s, t, order, status, take) by {
      ExchangedTransitive(s, mid, t, order, status, take);
    }
  }

  lemma {:induction false} NothingProcessed(s: State, order: Id, status: ReservationStatus, take: int)
    requires Inv(s)
    ensures Processed(s, s, [], order, status, take)
  {
  }

  /** The next listed position is still ACTIVE, and still the order's. */
  lemma {:induction false} NextStillActive(s: State, mid: State, ids: seq<nat>, order: Id,
      status: ReservationStatus, take: int)
    requires |ids| > 0 && Increasing(ids) && AllActive(s, ids, order)
    requires Processed(s, mid, ids[..|ids| - 1], order, status, take)
    ensures var i := ids[|ids| - 1];
            i < |mid.reservations| == |s.reservations| && i !in ids[..|ids| - 1]
                && mid.reservations[i] == s.reservations[i]
            && mid.reservations[i].status.Active? && mid.reservations[i].order == order
  {
  }

  lemma {:induction false} ConfirmEachExchanges(s: State, ids: seq<nat>, order: Id)
    requires Inv(s)
    requires Increasing(ids) && AllActive(s, ids, order)
    ensures ConfirmEach(s, ids).Success? && Processed(s, ConfirmEach(s, ids).value, ids, order, Confirmed, 1)
  {
    hide Inv, Relabelled, Exchanged, ConfirmOne;
    if |ids| == 0 {
      NothingProcessed(s, order, Confirmed, 1);
      assert ids == [];
    } else {
      var n := |ids| - 1;
      ConfirmEachExchanges(s, ids[..n], order);
      var mid := ConfirmEach(s, ids[..n]).value;
      NextStillActive(s, mid, ids, order, Confirmed, 1);
      ConfirmOneMore(mid, ids[n]);
      ProcessOneMore(s, mid, ConfirmOne(mid, ids[n]).value, ids[..n], ids[n], order, Confirmed, 1);
      assert ids == ids[..n] + [ids[n]];
    }
  }

  lemma {:induction false} LetGoEachExchanges(s: State, ids: seq<nat>, order: Id, status: ReservationStatus)
    requires Inv(s)
    requires Increasing(ids) && AllActive(s, ids, order) && !status.Active? && !status.Confirmed?
    ensures Processed(s, LetGoEach(s, ids, status), ids, order, status, 0)
  {
    hide Inv, Relabelled, Exchanged, LetGoOne;
    if |ids| == 0 {
      NothingProcessed(s, order, status, 0);
      assert ids == [];
    } else {
      var n := |ids| - 1;
      LetGoEachExchanges(s, ids[..n], order, status);
      var mid := LetGoEach(s, ids[..n], status);
      NextStillActive(s, mid, ids, order, status, 0);
      LetGoOneMore(mid, ids[n], status);
      ProcessOneMore(s, mid, LetGoOne(mid, ids[n], status), ids[..n], ids[n], order, status, 0);
      assert ids == ids[..n] + [ids[n]];
    }
  }

  lemma {:induction false} NothingHeldAfter(before: seq<Reservation>, after: seq<Reservation>, order: Id,
      status: ReservationStatus)
    requires Relabelled(before, after, ActiveOf(before, order), status) && !status.Active?
    ensures forall p :: Sum(after, HeldBy(order, p)) == 0
    ensures forall p, w :: Sum(after, HeldAt(order, p, w)) == 0
    ensures forall p :: Sum(after, CountedBy(order, p, status)) == 0
  {
    forall p ensures Sum(after, HeldBy(order, p)) == 0 && Sum(after, CountedBy(order, p, status)) == 0 {
      SumZero(after, HeldBy(order, p));
      SumZero(after, CountedBy(order, p, status));
    }
    forall p, w ensures Sum(after, HeldAt(order, p, w)) == 0 {
      SumZero(after, HeldAt(order, p, w));
    }
  }

  /**
   * Per product and per row, `take` units of physical stock left for each ACTIVE unit of the order, and all its
   * holds are gone.
   */
  ghost predicate TookExactly(s: State, t: State, order: Id, status: ReservationStatus, take: int) {
    && t.products.Keys == s.products.Keys && |t.rows| == |s.rows|
    && (forall p :: p in s.products ==>
          && t.products[p].stock == s.products[p].stock - take * Sum(s.reservations, HeldBy(order, p))
          && t.products[p].reservedStock
               == s.products[p].reservedStock - Sum(s.reservations, CountedBy(order, p, status)))
    && (forall k :: 0 <= k < |s.rows| ==>
          RowExchanged(s.rows[k], t.rows[k], take,
              Sum(s.reservations, HeldAt(order, s.rows[k].product, Some(s.rows[k].warehouse))), 0))
  }

  lemma {:induction false} AllProcessedTakesExactly(s: State, t: State, order: Id, status: ReservationStatus, take: int)
    requires take == 0 || take == 1
    requires Processed(s, t, ActiveOf(s.reservations, order), order, status, take) && !status.Active?
    ensures TookExactly(s, t, order, status, take)
  {
    NothingHeldAfter(s.reservations, t.reservations, order, status);
    forall k | 0 <= k < |s.rows|
      ensures RowExchanged(s.rows[k], t.rows[k], take,
                Sum(s.reservations, HeldAt(order, s.rows[k].product, Some(s.rows[k].warehouse))), 0)
    {
      assert RowExchanged(s.rows[k], t.rows[k], take,
                          Sum(s.reservations, HeldAt(order, s.rows[k].product, Some(s.rows[k].warehouse))),
                          Sum(t.reservations, HeldAt(order, s.rows[k].product, Some(s.rows[k].warehouse))));
    }
  }

  /**
   * Confirming an order never fails in a good state, and takes exactly its ACTIVE units: out of each
   * row's quantity and reserved count, and out of each product's stock; nobody else's rows move.
   */
  lemma {:induction false} ConfirmTakesExactly(s: State, order: Id)
    requires Inv(s)
    ensures Confirm(s, order).Success?
    ensures var t := Confirm(s, order).value;
            && Inv(t)
            && Relabelled(s.reservations, t.reservations, ActiveOf(s.reservations, order), Confirmed)
            && TookExactly(s, t, order, Confirmed, 1)
  {
    ConfirmEachExchanges(s, ActiveOf(s.reservations, order), order);
    AllProcessedTakesExactly(s, Confirm(s, order).value, order, Confirmed, 1);
  }

  /** Releasing an order frees exactly its ACTIVE units and moves no physical stock. */
  lemma {:induction false} ReleaseFreesExactly(s: State, order: Id)
    requires Inv(s)
    ensures var t := ReleaseOrder(s, order);
            && Inv(t)
            && Relabelled(s.reservations, t.reservations, ActiveOf(s.reservations, order), Released)
            && TookExactly(s, t, order, Released, 0)
  {
    LetGoEachExchanges(s, ActiveOf(s.reservations, order), order, Released);
    AllProcessedTakesExactly(s, ReleaseOrder(s, order), order, Released, 0);
  }

  // ----------------------------------------------------------------- runs

  datatype Step =
    | ReserveStep(product: Id, quantity: int, order: Id, warehouse: Option<Id>, now: Time, ttl: Time)
    | ConfirmStep(order: Id)
    | ReleaseStep(order: Id)
    | ExpireStep(reservation: nat)
    | RestockStep(product: Id, warehouse: Option<Id>, units: nat)

  function Next(s: State, step: Step): State {
    match step
    case ReserveStep(p, q, o, w, now, ttl) =>
      (match Reserve(s, p, q, o, w, now, ttl)
       case Success(t) => t
       case Failure(_) => s)
    case ConfirmStep(o) =>
      (match Confirm(s, o)
       case Success(t) => t
       case Failure(_) => s)
    case ReleaseStep(o) => ReleaseOrder(s, o)
    case ExpireStep(i) => ExpireOne(s, i)
    case RestockStep(p, w, q) => GiveBack(s, p, w, q, true)
  }

  predicate Tame(s: State, step: Step) {
    match step
    case ReserveStep(p, q, o, w, now, ttl) => Reserve(s, p, q, o, w, now, ttl).Success? ==> TameReserve(s, p, q, w, now)
    case RestockStep(p, w, q) => TameRestock(s, p, w, q)
    case _ => true
  }

  function Run(s: State, steps: seq<Step>): State {
    if |steps| == 0 then s else Next(Run(s, steps[..|steps| - 1]), steps[|steps| - 1])
  }

  /** Every step is tame in the state it meets. */
  predicate TameRun(s: State, steps: seq<Step>) {
    |steps| == 0 || (TameRun(s, steps[..|steps| - 1]) && Tame(Run(s, steps[..|steps| - 1]), steps[|steps| - 1]))
  }

  lemma {:induction false} ExpireKeepsInv(s: State, i: nat)
    requires Inv(s)
    ensures Inv(ExpireOne(s, i))
  {
    if i < |s.reservations| && s.reservations[i].status.Active? {
      LetGoOneCloses(s, i, Expired);
    }
  }

  /** A step keeps the books exactly when it is tame. */
  lemma {:induction false} StepKeepsExactly(s: State, step: Step)
    requires Inv(s)
    ensures Inv(Next(s, step)) <==> Tame(s, step)
  {
    hide Inv, TameReserve, TameRestock, Reserve, Confirm;
    match step
    case ReserveStep(p, q, o, w, now, ttl) =>
      if Reserve(s, p, q, o, w, now, ttl).Success? {
        ReserveExactly(s, p, q, o, w, now, ttl);
      }
    case ConfirmStep(o) => ConfirmTakesExactly(s, o);
    case ReleaseStep(o) => ReleaseFreesExactly(s, o);
    case ExpireStep(i) => ExpireKeepsInv(s, i);
    case RestockStep(p, w, q) => RestockExactly(s, p, w, q);
  }

  lemma {:induction false} RunKeepsInv(s: State, steps: seq<Step>)
    requires Inv(s) && TameRun(s, steps)
    ensures Inv(Run(s, steps))
  {
    if |steps| == 0 {
    } else {
      RunKeepsInv(s, steps[..|steps| - 1]);
      StepKeepsExactly(Run(s, steps[..|steps| - 1]), steps[|steps| - 1]);
    }
  }

  /** The books are right all along a run exactly when every step is tame where it is taken. */
  lemma {:induction false} StockInvariantExactly(s: State, steps: seq<Step>)
    requires Inv(s)
    ensures TameRun(s, steps) <==> forall n: nat :: n <= |steps| ==> Inv(Run(s, steps[..n]))
  {
    hide Inv, Next, Tame;
    if |steps| == 0 {
      assert steps[..0] == steps;
    } else {
      var last := |steps| - 1;
      var before := steps[..last];
      StockInvariantExactly(s, before);
      forall n: nat | n <= last ensures steps[..n] == before[..n] {
      }
      assert steps[..|steps|] == steps;
      if TameRun(s, before) {
        RunKeepsInv(s, before);
        StepKeepsExactly(Run(s, before), steps[last]);
      }
    }
  }

  /** No row is over-reserved, so the per-row and the aggregate view of availability agree and neither clamp bites. */
  lemma {:induction false} ClampsNeverBite(s: State, product: Id, now: Time)
    requires Inv(s)
    requires product in s.products && HasRows(s.rows, product)
    ensures var a := GetAvailable(s, product, now);
            a.available == a.stock - a.reserved == TotalAvailable(s, product) && a.stock == s.products[product].stock
  {
    forall i | 0 <= i < |s.rows|
      ensures Quantity(product)(s.rows[i]) == ClampedFree(product)(s.rows[i]) + Reserved(product)(s.rows[i])
      ensures ClampedFree(product)(s.rows[i]) >= 0
    {
      assert RowCovers(s, s.rows[i]);
    }
    SumSplit(s.rows, Quantity(product), ClampedFree(product), Reserved(product));
    SumNonNegative(s.rows, ClampedFree(product));
    assert StockAgrees(s, product);
  }

  /**
   * The stock invariant over every tame run: ACTIVE units <= reserved <= quantity at every row,
   * Product.stock is the sum of its rows, and no order's confirmation can fail.
   */
  lemma {:induction false} StockInvariant(s: State, steps: seq<Step>)
    requires Inv(s) && TameRun(s, steps)
    ensures var t := Run(s, steps);
            && (forall k :: 0 <= k < |t.rows| ==>
                  Sum(t.reservations, ActiveAt(t.rows[k].product, Some(t.rows[k].warehouse))) <= t.rows[k].reserved
                      <= t.rows[k].quantity)
            && (forall p :: p in t.products && HasRows(t.rows, p) ==> t.products[p].stock == Sum(t.rows, Quantity(p)))
            && (forall p :: p in t.products ==> Sum(t.reservations, ActiveFor(p)) <= t.products[p].reservedStock)
            && (forall order: Id :: Confirm(t, order).Success?)
  {
    RunKeepsInv(s, steps);
    var t := Run(s, steps);
    forall k | 0 <= k < |t.rows|
      ensures Sum(t.reservations, ActiveAt(t.rows[k].product, Some(t.rows[k].warehouse))) <= t.rows[k].reserved
                <= t.rows[k].quantity
    {
      assert RowCovers(t, t.rows[k]);
    }
    forall p | p in t.products
      ensures HasRows(t.rows, p) ==> t.products[p].stock == Sum(t.rows, Quantity(p))
      ensures Sum(t.reservations, ActiveFor(p)) <= t.products[p].reservedStock
    {
      assert StockAgrees(t, p) && CounterCovers(t, p);
    }
    forall order: Id ensures Confirm(t, order).Success? {
      ConfirmTakesExactly(t, order);
    }
  }
}
