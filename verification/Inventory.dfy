/**
 * Stock tables and reservations: Product.stock / reservedStock, ProductStock rows
 * and the reservation table, with the operations that move units between them.
 */
module Inventory {
  import opened Common
  import opened Sums

  datatype ReservationStatus = Active | Confirmed | Expired | Released

  /** A reservation; its identifier is its position in the table. */
  datatype Reservation = Reservation(product: Id, order: Id, warehouse: Option<Id>, quantity: int,
      status: ReservationStatus, expiresAt: Time)

  datatype StockRow = StockRow(product: Id, warehouse: Id, quantity: int, reserved: int)

  datatype Product = Product(stock: int, reservedStock: int)

  datatype State = State(products: map<Id, Product>, rows: seq<StockRow>, reservations: seq<Reservation>)

  datatype StockError = InvalidQuantity | ProductNotFound | InsufficientStock | StockFail

  datatype Availability = Availability(stock: int, reserved: int, available: int)

  // ---------------------------------------------------------------- queries

  function Quantity(product: Id): StockRow -> int {
    (r: StockRow) => if r.product == product then r.quantity else 0
  }

  function Reserved(product: Id): StockRow -> int {
    (r: StockRow) => if r.product == product then r.reserved else 0
  }

  function ClampedFree(product: Id): StockRow -> int {
    (r: StockRow) => if r.product == product then Max(0, r.quantity - r.reserved) else 0
  }

  /** Units an ACTIVE reservation holds of a product at a warehouse (or at none). */
  function ActiveAt(product: Id, warehouse: Option<Id>): Reservation -> int {
    (r: Reservation) => if r.status.Active? && r.product == product && r.warehouse == warehouse then r.quantity else 0
  }

  function ActiveFor(product: Id): Reservation -> int {
    (r: Reservation) => if r.status.Active? && r.product == product then r.quantity else 0
  }

  /** Units of ACTIVE reservations that expire strictly after `now`. */
  function LiveFor(product: Id, now: Time): Reservation -> int {
    (r: Reservation) => if r.status.Active? && r.product == product && r.expiresAt > now then r.quantity else 0
  }

  predicate HasRows(rows: seq<StockRow>, product: Id) {
    exists i :: 0 <= i < |rows| && rows[i].product == product
  }

  function FindRow(rows: seq<StockRow>, product: Id, warehouse: Id): (r: Option<nat>)
    ensures r.Some? ==> r.value < |rows| && rows[r.value].product == product && rows[r.value].warehouse == warehouse
    ensures r.None? <==> forall i :: 0 <= i < |rows| ==> !(rows[i].product == product && rows[i].warehouse == warehouse)
  {
    if |rows| == 0 then None
    else
      var earlier := FindRow(rows[..|rows| - 1], product, warehouse);
      if earlier.Some? then earlier
      else if rows[|rows| - 1].product == product && rows[|rows| - 1].warehouse == warehouse then Some(|rows| - 1)
      else None
  }

  /** `getAvailable`: from the warehouse rows when there are any, else from live reservations. */
  function GetAvailable(s: State, product: Id, now: Time): Availability
    requires product in s.products
  {
    if HasRows(s.rows, product) then
      var stock, reserved := Sum(s.rows, Quantity(product)), Sum(s.rows, Reserved(product));
      Availability(stock, reserved, Max(0, stock - reserved))
    else
      var stock, reserved := s.products[product].stock, Sum(s.reservations, LiveFor(product, now));
      Availability(stock, reserved, Max(0, stock - reserved))
  }

  /** `totalAvailableForProduct`: row by row, each clamped at zero. */
  function TotalAvailable(s: State, product: Id): int
    requires product in s.products
  {
    if HasRows(s.rows, product) then Sum(s.rows, ClampedFree(product)) else s.products[product].stock
  }

  // ------------------------------------------------------------- operations

  /** The most that one confirmation takes off a product's reserved counter. */
  const COUNTER_CAP := 999999

  /** `syncProductStockAggregate`: a product with rows has the sum of their quantities as its stock. */
  function Sync(s: State, product: Id): State
    requires product in s.products
  {
    if HasRows(s.rows, product)
    then s.(products := s.products[product := s.products[product].(stock := Sum(s.rows, Quantity(product)))])
    else s
  }

  function ReserveRows(rows: seq<StockRow>, product: Id, warehouse: Id, quantity: int,
      legacyStock: int): Result<seq<StockRow>, StockError> {
    match FindRow(rows, product, warehouse)
    case None =>
      if legacyStock < quantity then Failure(InsufficientStock)
      else Success(rows + [StockRow(product, warehouse, legacyStock, quantity)])
    case Some(i) =>
      if rows[i].quantity - rows[i].reserved < quantity then Failure(InsufficientStock)
      else Success(rows[i := rows[i].(reserved := rows[i].reserved + quantity)])
  }

  function Stale(r: Reservation, product: Id, now: Time): bool {
    r.product == product && r.status.Active? && r.expiresAt < now
  }

  function ExpireStale(reservations: seq<Reservation>, product: Id, now: Time): (after: seq<Reservation>)
    ensures |after| == |reservations|
    ensures forall i :: 0 <= i < |after| ==>
              after[i] == if Stale(reservations[i], product, now) then reservations[i].(status := Expired)
                  else reservations[i]
  {
    seq(|reservations|, i requires 0 <= i < |reservations| =>
      if Stale(reservations[i], product, now) then reservations[i].(status := Expired) else reservations[i])
  }

  /** `reserve`; a failure leaves the tables as they were. */
  function Reserve(s: State, product: Id, quantity: int, order: Id, warehouse: Option<Id>, now: Time,
      ttl: Time): Result<State, StockError> {
    if quantity <= 0 then Failure(InvalidQuantity)
    else if product !in s.products then Failure(ProductNotFound)
    else
      var s1 := s.(reservations := ExpireStale(s.reservations, product, now));
      if GetAvailable(s1, product, now).available < quantity then Failure(InsufficientStock)
      else
        var p := s.products[product];
        var rows := if warehouse.Some? then ReserveRows(s.rows, product, warehouse.value, quantity, p.stock)
            else Success(s.rows);
        if rows.Failure? then Failure(rows.error)
        else Success(State(s.products[product := p.(reservedStock := p.reservedStock + quantity)], rows.value,
                           s1.reservations + [Reservation(product, order, warehouse, quantity, Active, now + ttl)]))
  }

  /** `commitReservedStock`: take units that were reserved out of physical stock. */
  function TakeStock(s: State, product: Id, warehouse: Option<Id>, quantity: int): Result<State, StockError> {
    if product !in s.products then Failure(StockFail)
    else match warehouse
      case None =>
        var p := s.products[product];
        if p.stock < quantity then Failure(StockFail)
        else Success(s.(products := s.products[product := p.(stock := p.stock - quantity)]))
      case Some(w) =>
        var i := FindRow(s.rows, product, w);
        if i.None? then Failure(StockFail)
        else
          var r := s.rows[i.value];
          if r.reserved < quantity || r.quantity < quantity then Failure(StockFail)
          else Success(Sync(s.(rows := s.rows[i.value := r.(quantity := r.quantity - quantity,
              reserved := r.reserved - quantity)]), product))
  }

  /** `releaseReservation`: put units back (restock), or only stop holding them. */
  function GiveBack(s: State, product: Id, warehouse: Option<Id>, quantity: int, restock: bool): State {
    if product !in s.products then s
    else match warehouse
      case None =>
        var p := s.products[product];
        if restock then s.(products := s.products[product := p.(stock := p.stock + quantity)]) else s
      case Some(w) =>
        var i := FindRow(s.rows, product, w);
        if i.None? then s
        else
          var r := s.rows[i.value];
          var r' := if restock then r.(quantity := r.quantity + quantity)
              else r.(reserved := r.reserved - Max(0, Min(r.reserved, quantity)));
          Sync(s.(rows := s.rows[i.value := r']), product)
  }

  function Settled(s: State, i: nat, status: ReservationStatus, dec: int): State
    requires i < |s.reservations| && s.reservations[i].product in s.products
  {
    var r := s.reservations[i];
    var p := s.products[r.product];
    s.(reservations := s.reservations[i := r.(status := status)],
       products := s.products[r.product := p.(reservedStock := Max(0, p.reservedStock - dec))])
  }

  /** One turn of the loop of `confirm`. */
  function ConfirmOne(s: State, i: nat): (r: Result<State, StockError>)
    requires i < |s.reservations|
    ensures r.Success? ==> |r.value.reservations| == |s.reservations|
    ensures r.Failure? ==> r.error == StockFail
  {
    var r := s.reservations[i];
    match TakeStock(s, r.product, r.warehouse, r.quantity)
    case Failure(e) => Failure(e)
    case Success(t) => Success(Settled(t, i, Confirmed, Min(r.quantity, COUNTER_CAP)))
  }

  /** One turn of the loops of `releaseOrder` and `releaseExpired`. */
  function LetGoOne(s: State, i: nat, status: ReservationStatus): (t: State)
    requires i < |s.reservations|
    ensures |t.reservations| == |s.reservations|
  {
    var r := s.reservations[i];
    if r.product !in s.products then s
    else Settled(GiveBack(s, r.product, r.warehouse, if r.warehouse.Some? then r.quantity else 0, false), i,
        status, r.quantity)
  }

  /** Positions of the ACTIVE reservations of an order. */
  function ActiveOf(reservations: seq<Reservation>, order: Id): (ids: seq<nat>)
    ensures forall k :: 0 <= k < |ids| ==> ids[k] < |reservations| && reservations[ids[k]].status.Active?
                                           && reservations[ids[k]].order == order
    ensures forall k, l :: 0 <= k < l < |ids| ==> ids[k] < ids[l]
    ensures forall i :: 0 <= i < |reservations| && reservations[i].status.Active? && reservations[i].order == order ==>
              i in ids
  {
    if |reservations| == 0 then []
    else
      var n := |reservations| - 1;
      ActiveOf(reservations[..n], order) + (if reservations[n].status.Active?
          && reservations[n].order == order then [n] else [])
  }

  /** Positions of the ACTIVE reservations past their expiry. */
  function PastDue(reservations: seq<Reservation>, now: Time): (ids: seq<nat>)
    ensures forall k :: 0 <= k < |ids| ==> ids[k] < |reservations| && reservations[ids[k]].status.Active?
                                           && reservations[ids[k]].expiresAt < now
    ensures forall k, l :: 0 <= k < l < |ids| ==> ids[k] < ids[l]
    ensures forall i :: 0 <= i < |reservations| && reservations[i].status.Active? && reservations[i].expiresAt < now ==>
              i in ids
  {
    if |reservations| == 0 then []
    else
      var n := |reservations| - 1;
      PastDue(reservations[..n], now) + (if reservations[n].status.Active?
          && reservations[n].expiresAt < now then [n] else [])
  }

  predicate Positions(ids: seq<nat>, n: nat) {
    forall k :: 0 <= k < |ids| ==> ids[k] < n
  }

  function ConfirmEach(s: State, ids: seq<nat>): (r: Result<State, StockError>)
    requires Positions(ids, |s.reservations|)
    ensures r.Success? ==> |r.value.reservations| == |s.reservations|
    ensures r.Failure? ==> r.error == StockFail
  {
    if |ids| == 0 then Success(s)
    else
      var before := ConfirmEach(s, ids[..|ids| - 1]);
      if before.Failure? then before else ConfirmOne(before.value, ids[|ids| - 1])
  }

  function LetGoEach(s: State, ids: seq<nat>, status: ReservationStatus): (t: State)
    requires Positions(ids, |s.reservations|)
    ensures |t.reservations| == |s.reservations|
  {
    if |ids| == 0 then s
    else LetGoOne(LetGoEach(s, ids[..|ids| - 1], status), ids[|ids| - 1], status)
  }

  /** `confirm`: all ACTIVE reservations of the order, or none of them. */
  function Confirm(s: State, order: Id): Result<State, StockError> {
    ConfirmEach(s, ActiveOf(s.reservations, order))
  }

  function ReleaseOrder(s: State, order: Id): State {
    LetGoEach(s, ActiveOf(s.reservations, order), Released)
  }

  /** One transaction of `releaseExpired`: only the status is looked at again. */
  function ExpireOne(s: State, i: nat): State {
    if i < |s.reservations| && s.reservations[i].status.Active? then LetGoOne(s, i, Expired) else s
  }

  function ExpireEach(s: State, ids: seq<nat>): State {
    if |ids| == 0 then s else ExpireOne(ExpireEach(s, ids[..|ids| - 1]), ids[|ids| - 1])
  }

  function ReleaseExpired(s: State, now: Time): State {
    ExpireEach(s, PastDue(s.reservations, now))
  }

  // -------------------------------------------------------------- invariant

  /** ACTIVE units at a row <= its `reserved` <= its `quantity`. */
  predicate RowCovers(s: State, row: StockRow) {
    Sum(s.reservations, ActiveAt(row.product, Some(row.warehouse))) <= row.reserved <= row.quantity
  }

  predicate ReservationPlaced(s: State, r: Reservation) {
    && r.quantity > 0
    && r.product in s.products
    && (r.warehouse.Some? ==> FindRow(s.rows, r.product, r.warehouse.value).Some?)
  }

  /** Product.stock agrees with the rows; without rows it covers the ACTIVE units. */
  predicate StockAgrees(s: State, product: Id)
    requires product in s.products
  {
    if HasRows(s.rows, product)
    then s.products[product].stock == Sum(s.rows, Quantity(product))
        && Sum(s.reservations, ActiveAt(product, None)) == 0
    else Sum(s.reservations, ActiveAt(product, None)) <= s.products[product].stock
  }

  predicate CounterCovers(s: State, product: Id)
    requires product in s.products
  {
    Sum(s.reservations, ActiveFor(product)) <= s.products[product].reservedStock
  }

  predicate RowsUnique(rows: seq<StockRow>) {
    forall i, j :: 0 <= i < j < |rows| ==>
        !(rows[i].product == rows[j].product && rows[i].warehouse == rows[j].warehouse)
  }

  predicate RowsGood(s: State) {
    forall i :: 0 <= i < |s.rows| ==> s.rows[i].product in s.products && RowCovers(s, s.rows[i])
  }

  predicate ReservationsGood(s: State) {
    forall i :: 0 <= i < |s.reservations| ==> ReservationPlaced(s, s.reservations[i])
  }

  predicate ProductsGood(s: State) {
    forall p :: p in s.products ==> StockAgrees(s, p) && CounterCovers(s, p)
  }

  predicate Inv(s: State) {
    RowsUnique(s.rows) && RowsGood(s) && ReservationsGood(s) && ProductsGood(s)
  }

  lemma {:induction false} FoundIsUnique(rows: seq<StockRow>, i: nat)
    requires RowsUnique(rows) && i < |rows|
    ensures FindRow(rows, rows[i].product, rows[i].warehouse) == Some(i)
  {
  }

  // Row updates: keys, and so lookups and row presence, do not change.
  lemma {:induction false} RowUpdate(rows: seq<StockRow>, i: nat, row: StockRow)
    requires RowsUnique(rows) && i < |rows|
    requires row.product == rows[i].product && row.warehouse == rows[i].warehouse
    ensures RowsUnique(rows[i := row])
    ensures forall p, w :: FindRow(rows[i := row], p, w) == FindRow(rows, p, w)
    ensures forall p :: HasRows(rows[i := row], p) == HasRows(rows, p)
    ensures forall p :: Sum(rows[i := row], Quantity(p)) == Sum(rows, Quantity(p))
                        + (if p == row.product then row.quantity - rows[i].quantity else 0)
  {
    var after := rows[i := row];
    forall p, w ensures FindRow(after, p, w) == FindRow(rows, p, w) {
      var found := FindRow(rows, p, w);
      if found.Some? {
        FoundIsUnique(after, found.value);
      }
    }
    forall p ensures HasRows(after, p) == HasRows(rows, p) {
      if HasRows(rows, p) {
        var k :| 0 <= k < |rows| && rows[k].product == p;
        assert after[k].product == p;
      }
      if HasRows(after, p) {
        var k :| 0 <= k < |after| && after[k].product == p;
        assert rows[k].product == p;
      }
    }
    forall p ensures Sum(after, Quantity(p)) == Sum(rows, Quantity(p))
        + (if p == row.product then row.quantity - rows[i].quantity else 0) {
      SumUpdate(rows, i, row, Quantity(p));
    }
  }

  /** Closing an ACTIVE reservation takes its quantity out of exactly its own sums. */
  lemma {:induction false} CloseSums(reservations: seq<Reservation>, i: nat, status: ReservationStatus)
    requires i < |reservations| && reservations[i].status.Active? && !status.Active?
    ensures var r := reservations[i];
            var after := reservations[i := r.(status := status)];
            && (forall p, w :: Sum(after, ActiveAt(p, w)) == Sum(reservations, ActiveAt(p, w)) - (if p == r.product
                 && w == r.warehouse then r.quantity else 0))
            && (forall p :: Sum(after, ActiveFor(p)) == Sum(reservations, ActiveFor(p))
                            - (if p == r.product then r.quantity else 0))
  {
    var r := reservations[i];
    var after := reservations[i := r.(status := status)];
    forall p, w ensures Sum(after, ActiveAt(p, w)) == Sum(reservations, ActiveAt(p, w)) - (if p == r.product
        && w == r.warehouse then r.quantity else 0) {
      SumUpdate(reservations, i, r.(status := status), ActiveAt(p, w));
    }
    forall p ensures Sum(after, ActiveFor(p)) == Sum(reservations, ActiveFor(p))
        - (if p == r.product then r.quantity else 0) {
      SumUpdate(reservations, i, r.(status := status), ActiveFor(p));
    }
  }

  lemma {:induction false} ActiveSumsNonNegative(s: State)
    requires Inv(s)
    ensures forall p, w :: Sum(s.reservations, ActiveAt(p, w)) >= 0
    ensures forall p :: Sum(s.reservations, ActiveFor(p)) >= 0
    ensures forall i :: 0 <= i < |s.reservations| && s.reservations[i].status.Active? ==>
              && s.reservations[i].quantity <= Sum(s.reservations,
                   ActiveAt(s.reservations[i].product, s.reservations[i].warehouse))
              && s.reservations[i].quantity <= Sum(s.reservations, ActiveFor(s.reservations[i].product))
  {
    assert forall i :: 0 <= i < |s.reservations| ==> ReservationPlaced(s, s.reservations[i]);
    forall p, w ensures Sum(s.reservations, ActiveAt(p, w)) >= 0 {
      SumNonNegative(s.reservations, ActiveAt(p, w));
    }
    forall p ensures Sum(s.reservations, ActiveFor(p)) >= 0 {
      SumNonNegative(s.reservations, ActiveFor(p));
    }
    forall i | 0 <= i < |s.reservations| && s.reservations[i].status.Active?
      ensures && s.reservations[i].quantity
                <= Sum(s.reservations, ActiveAt(s.reservations[i].product, s.reservations[i].warehouse))
              && s.reservations[i].quantity <= Sum(s.reservations, ActiveFor(s.reservations[i].product))
    {
      SumAtLeastRow(s.reservations, i, ActiveAt(s.reservations[i].product, s.reservations[i].warehouse));
      SumAtLeastRow(s.reservations, i, ActiveFor(s.reservations[i].product));
    }
  }

  /** An ACTIVE reservation finds its units: the row or product it points at still covers it. */
  lemma {:induction false} ActiveIsCovered(s: State, i: nat)
    requires Inv(s)
    requires i < |s.reservations| && s.reservations[i].status.Active?
    ensures var r := s.reservations[i];
            && r.quantity <= s.products[r.product].reservedStock
            && (r.warehouse.None? ==> !HasRows(s.rows, r.product) && r.quantity <= s.products[r.product].stock)
            && (r.warehouse.Some? ==> var found := FindRow(s.rows, r.product, r.warehouse.value);
                                      found.Some? && r.quantity <= s.rows[found.value].reserved
                                          <= s.rows[found.value].quantity)
  {
    var r := s.reservations[i];
    ActiveSumsNonNegative(s);
    assert ReservationPlaced(s, r);
    assert StockAgrees(s, r.product) && CounterCovers(s, r.product);
    if r.warehouse.Some? {
      var found := FindRow(s.rows, r.product, r.warehouse.value);
      assert RowCovers(s, s.rows[found.value]);
    }
  }

  /** What closing a reservation takes off the product's reserved counter: a confirmation no more than the cap. */
  function CounterFall(r: Reservation, status: ReservationStatus): int {
    if status.Confirmed? then Min(r.quantity, COUNTER_CAP) else r.quantity
  }

  /**
   * Closing an ACTIVE reservation: `take` units leave physical stock (all of them on confirmation, none otherwise),
   * all of them stop being reserved at the row, and the product counter falls by exactly its part.
   */
  ghost predicate Closes(s: State, t: State, i: nat, status: ReservationStatus, take: int)
    requires i < |s.reservations|
  {
    var r := s.reservations[i];
    && r.product in s.products
    && t.reservations == s.reservations[i := r.(status := status)]
    && t.products == s.products[r.product := Product(s.products[r.product].stock - take,
                                                     s.products[r.product].reservedStock - CounterFall(r, status))]
    && match r.warehouse
       case None => t.rows == s.rows
       case Some(w) =>
         var found := FindRow(s.rows, r.product, w);
         && found.Some?
         && var row := s.rows[found.value];
            t.rows == s.rows[found.value := row.(quantity := row.quantity - take,
                reserved := row.reserved - r.quantity)]
  }

  lemma {:induction false} ClosingKeepsInv(s: State, t: State, i: nat, status: ReservationStatus, take: int)
    requires Inv(s)
    requires i < |s.reservations| && s.reservations[i].status.Active? && !status.Active?
    requires take == 0 || take == s.reservations[i].quantity
    requires Closes(s, t, i, status, take)
    ensures Inv(t)
  {
    hide RowsGood, ReservationsGood, ProductsGood, RowsUnique;
    ClosedRowsGood(s, t, i, status, take);
    ClosedReservationsGood(s, t, i, status, take);
    ClosedProductsGood(s, t, i, status, take);
  }

  lemma {:induction false} ClosedRowsGood(s: State, t: State, i: nat, status: ReservationStatus, take: int)
    requires Inv(s)
    requires i < |s.reservations| && s.reservations[i].status.Active? && !status.Active?
    requires take == 0 || take == s.reservations[i].quantity
    requires Closes(s, t, i, status, take)
    ensures RowsUnique(t.rows) && RowsGood(t)
  {
    var r := s.reservations[i];
    CloseSums(s.reservations, i, status);
    ActiveIsCovered(s, i);
    if r.warehouse.Some? {
      var found := FindRow(s.rows, r.product, r.warehouse.value).value;
      RowUpdate(s.rows, found, t.rows[found]);
      ClosedRows(s, t, i, status, take);
    } else {
      forall k | 0 <= k < |t.rows| ensures RowCovers(t, t.rows[k]) {
        assert RowCovers(s, s.rows[k]);
      }
    }
  }

  lemma {:induction false} ClosedReservationsGood(s: State, t: State, i: nat, status: ReservationStatus, take: int)
    requires Inv(s)
    requires i < |s.reservations| && s.reservations[i].status.Active? && !status.Active?
    requires Closes(s, t, i, status, take)
    ensures ReservationsGood(t)
  {
    var r := s.reservations[i];
    if r.warehouse.Some? {
      var found := FindRow(s.rows, r.product, r.warehouse.value).value;
      RowUpdate(s.rows, found, t.rows[found]);
    }
    forall k | 0 <= k < |t.reservations| ensures ReservationPlaced(t, t.reservations[k]) {
      assert ReservationPlaced(s, s.reservations[k]);
    }
  }

  lemma {:induction false} ClosedProductsGood(s: State, t: State, i: nat, status: ReservationStatus, take: int)
    requires Inv(s)
    requires i < |s.reservations| && s.reservations[i].status.Active? && !status.Active?
    requires take == 0 || take == s.reservations[i].quantity
    requires Closes(s, t, i, status, take)
    ensures ProductsGood(t)
  {
    hide RowCovers, StockAgrees, CounterCovers;
    forall p | p in t.products ensures StockAgrees(t, p) && CounterCovers(t, p) {
      assert StockAgrees(s, p) && CounterCovers(s, p);
      ClosedStock(s, t, i, status, take, p);
      ClosedCounter(s, t, i, status, take, p);
    }
  }

  lemma {:induction false} ClosedStock(s: State, t: State, i: nat, status: ReservationStatus, take: int, p: Id)
    requires Inv(s) && p in s.products && StockAgrees(s, p)
    requires i < |s.reservations| && s.reservations[i].status.Active? && !status.Active?
    requires take == 0 || take == s.reservations[i].quantity
    requires Closes(s, t, i, status, take)
    ensures StockAgrees(t, p)
  {
    var r := s.reservations[i];
    CloseSums(s.reservations, i, status);
    ActiveIsCovered(s, i);
    hide CounterCovers, RowCovers;
    if r.warehouse.Some? {
      var found := FindRow(s.rows, r.product, r.warehouse.value).value;
      RowUpdate(s.rows, found, t.rows[found]);
    }
  }

  lemma {:induction false} ClosedCounter(s: State, t: State, i: nat, status: ReservationStatus, take: int, p: Id)
    requires Inv(s) && p in s.products && CounterCovers(s, p)
    requires i < |s.reservations| && s.reservations[i].status.Active? && !status.Active?
    requires Closes(s, t, i, status, take)
    ensures CounterCovers(t, p)
  {
    CloseSums(s.reservations, i, status);
    ActiveIsCovered(s, i);
    hide StockAgrees, RowCovers, RowsUnique, FindRow;
  }

  lemma {:induction false} ClosedRows(s: State, t: State, i: nat, status: ReservationStatus, take: int)
    requires Inv(s)
    requires i < |s.reservations| && s.reservations[i].status.Active? && !status.Active?
               && s.reservations[i].warehouse.Some?
    requires take == 0 || take == s.reservations[i].quantity
    requires Closes(s, t, i, status, take)
    ensures forall k :: 0 <= k < |t.rows| ==> t.rows[k].product in t.products && RowCovers(t, t.rows[k])
  {
    var r := s.reservations[i];
    CloseSums(s.reservations, i, status);
    var found := FindRow(s.rows, r.product, r.warehouse.value).value;
    forall k | 0 <= k < |t.rows| ensures t.rows[k].product in t.products && RowCovers(t, t.rows[k]) {
      assert RowCovers(s, s.rows[k]);
      if k != found {
        FoundIsUnique(s.rows, k);
      }
    }
  }

  /** A changed row and its synchronised product: the stock moves by what the row moved. */
  lemma {:induction false} SyncFollowsRow(s: State, i: nat, row: StockRow)
    requires RowsUnique(s.rows) && i < |s.rows|
    requires row.product == s.rows[i].product && row.warehouse == s.rows[i].warehouse && row.product in s.products
    requires s.products[row.product].stock == Sum(s.rows, Quantity(row.product))
    ensures var p := s.products[row.product];
            Sync(s.(rows := s.rows[i := row]), row.product)
            == s.(rows := s.rows[i := row],
                products := s.products[row.product := p.(stock := p.stock + row.quantity - s.rows[i].quantity)])
  {
    RowUpdate(s.rows, i, row);
    assert s.rows[i := row][i].product == row.product;
  }

  lemma {:induction false} RowBehind(s: State, i: nat)
    requires Inv(s)
    requires i < |s.rows|
    ensures s.rows[i].product in s.products && HasRows(s.rows, s.rows[i].product)
    ensures s.products[s.rows[i].product].stock == Sum(s.rows, Quantity(s.rows[i].product))
  {
    assert StockAgrees(s, s.rows[i].product);
  }

  /** The tables with a reservation's units moved: `take` out of physical stock, `free` out of the reserved count. */
  function Moved(s: State, r: Reservation, take: int, free: int): State
    requires r.product in s.products
    requires r.warehouse.Some? ==> FindRow(s.rows, r.product, r.warehouse.value).Some?
  {
    var p := s.products[r.product];
    var rows :=
      match r.warehouse
      case None => s.rows
      case Some(w) =>
        var found := FindRow(s.rows, r.product, w).value;
        s.rows[found := s.rows[found].(quantity := s.rows[found].quantity - take,
            reserved := s.rows[found].reserved - free)];
    s.(products := s.products[r.product := p.(stock := p.stock - take)], rows := rows)
  }

  /** What `Moved` needs from the tables for the code's own guards and clamps to pass. */
  predicate Backed(s: State, r: Reservation) {
    && RowsUnique(s.rows)
    && r.product in s.products
    && match r.warehouse
       case None => !HasRows(s.rows, r.product) && r.quantity <= s.products[r.product].stock
       case Some(w) =>
         var found := FindRow(s.rows, r.product, w);
         && found.Some?
         && 0 < r.quantity <= s.rows[found.value].reserved <= s.rows[found.value].quantity
         && s.products[r.product].stock == Sum(s.rows, Quantity(r.product))
  }

  lemma {:induction false} ActiveIsBacked(s: State, i: nat)
    requires Inv(s)
    requires i < |s.reservations| && s.reservations[i].status.Active?
    ensures Backed(s, s.reservations[i])
    ensures s.reservations[i].quantity <= s.products[s.reservations[i].product].reservedStock
  {
    var r := s.reservations[i];
    ActiveIsCovered(s, i);
    assert ReservationPlaced(s, r);
    if r.warehouse.Some? {
      RowBehind(s, FindRow(s.rows, r.product, r.warehouse.value).value);
    }
  }

  lemma {:induction false} TakeStockExact(s: State, r: Reservation)
    requires Backed(s, r)
    ensures TakeStock(s, r.product, r.warehouse, r.quantity) == Success(Moved(s, r, r.quantity, r.quantity))
  {
    if r.warehouse.Some? {
      var found := FindRow(s.rows, r.product, r.warehouse.value).value;
      var row := s.rows[found];
      SyncFollowsRow(s, found, row.(quantity := row.quantity - r.quantity, reserved := row.reserved - r.quantity));
    }
  }

  lemma {:induction false} GiveBackExact(s: State, r: Reservation)
    requires Backed(s, r)
    ensures GiveBack(s, r.product, r.warehouse, if r.warehouse.Some? then r.quantity else 0, false)
              == Moved(s, r, 0, r.quantity)
  {
    assert s.products[r.product := s.products[r.product]] == s.products;
    if r.warehouse.Some? {
      var found := FindRow(s.rows, r.product, r.warehouse.value).value;
      var row := s.rows[found];
      SyncFollowsRow(s, found, row.(reserved := row.reserved - r.quantity));
    }
  }

  lemma {:induction false} SettledCloses(s: State, i: nat, status: ReservationStatus, take: int)
    requires i < |s.reservations|
    requires Backed(s, s.reservations[i])
               && s.reservations[i].quantity <= s.products[s.reservations[i].product].reservedStock
    ensures var r := s.reservations[i];
            Closes(s, Settled(Moved(s, r, take, r.quantity), i, status, CounterFall(r, status)), i, status, take)
  {
    var r := s.reservations[i];
    var t := Settled(Moved(s, r, take, r.quantity), i, status, CounterFall(r, status));
    assert t.products == s.products[r.product := t.products[r.product]];
  }

  /** In every good state a confirmation succeeds and takes exactly the reserved units. */
  lemma {:induction false} ConfirmOneCloses(s: State, i: nat)
    requires Inv(s)
    requires i < |s.reservations| && s.reservations[i].status.Active?
    ensures ConfirmOne(s, i).Success?
    ensures Closes(s, ConfirmOne(s, i).value, i, Confirmed, s.reservations[i].quantity)
    ensures Inv(ConfirmOne(s, i).value)
  {
    var r := s.reservations[i];
    assert ReservationPlaced(s, r);
    ActiveIsBacked(s, i);
    TakeStockExact(s, r);
    SettledCloses(s, i, Confirmed, r.quantity);
    ClosingKeepsInv(s, ConfirmOne(s, i).value, i, Confirmed, r.quantity);
  }

  lemma {:induction false} LetGoOneCloses(s: State, i: nat, status: ReservationStatus)
    requires Inv(s)
    requires i < |s.reservations| && s.reservations[i].status.Active? && !status.Active? && !status.Confirmed?
    ensures Closes(s, LetGoOne(s, i, status), i, status, 0)
    ensures Inv(LetGoOne(s, i, status))
  {
    var r := s.reservations[i];
    assert ReservationPlaced(s, r);
    ActiveIsBacked(s, i);
    GiveBackExact(s, r);
    SettledCloses(s, i, status, 0);
    ClosingKeepsInv(s, LetGoOne(s, i, status), i, status, 0);
  }

  /**
   * The two clamps of the reserved counter: in a good state the one at zero never bites, on confirmation
   * or release, and the cap on a confirmation bites exactly for quantities above it.
   */
  lemma {:induction false} CounterClampsExactly(s: State, i: nat, status: ReservationStatus)
    requires Inv(s)
    requires i < |s.reservations| && s.reservations[i].status.Active? && !status.Active? && !status.Confirmed?
    ensures var r := s.reservations[i];
            && ConfirmOne(s, i).Success? && r.product in s.products
            && r.product in ConfirmOne(s, i).value.products && r.product in LetGoOne(s, i, status).products &&
            var counter := s.products[r.product].reservedStock;
            var confirmed := ConfirmOne(s, i).value.products[r.product].reservedStock;
            var released := LetGoOne(s, i, status).products[r.product].reservedStock;
            && released == counter - r.quantity >= 0
            && confirmed == counter - Min(r.quantity, COUNTER_CAP) >= 0
            && (confirmed == released <==> r.quantity <= COUNTER_CAP)
  {
    ConfirmOneCloses(s, i);
    LetGoOneCloses(s, i, status);
    ActiveIsBacked(s, i);
  }
}
