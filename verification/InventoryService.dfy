/** The inventory service over mutable tables: its loops refine the operations of module Inventory. */
module InventoryService {
  import opened Common
  import opened Sums
  import opened Inventory

  class InventoryService {
    var products: map<Id, Product>
    var rows: seq<StockRow>
    var reservations: seq<Reservation>

    constructor (products: map<Id, Product>, rows: seq<StockRow>)
      ensures Tables() == State(products, rows, [])
    {
      this.products := products;
      this.rows := rows;
      this.reservations := [];
    }

    function Tables(): State
      reads this
    {
      State(products, rows, reservations)
    }

    /** Afterwards a product with rows has exactly their units as its stock; nothing else has moved. */
    method SyncProductStockAggregate(product: Id)
      requires product in products
      modifies this`products
      ensures products.Keys == old(products).Keys
      ensures HasRows(rows, product) ==> products[product].stock == Sum(rows, Quantity(product))
      ensures !HasRows(rows, product) ==> products[product].stock == old(products)[product].stock
      ensures products[product].reservedStock == old(products)[product].reservedStock
      ensures forall p :: p in products && p != product ==> products[p] == old(products)[p]
    {
      if HasRows(rows, product) {
        products := products[product := products[product].(stock := Sum(rows, Quantity(product)))];
      }
    }

    /** Creates the warehouse row from the product's own stock when there is none. */
    method ReserveStock(product: Id, warehouse: Id, quantity: int, legacyProductStock: int) returns (ok: bool)
      modifies this
      ensures products == old(products) && reservations == old(reservations)
      ensures ok <==> ReserveRows(old(rows), product, warehouse, quantity, legacyProductStock).Success?
      ensures rows == if ok then ReserveRows(old(rows), product, warehouse, quantity, legacyProductStock).value
                else old(rows)
      ensures match FindRow(old(rows), product, warehouse)
              case None => ok <==> quantity <= legacyProductStock
              case Some(k) => ok <==> quantity <= old(rows)[k].quantity - old(rows)[k].reserved
    {
      var existing := FindRow(rows, product, warehouse);
      if existing.None? {
        if legacyProductStock < quantity {
          return false;
        }
        rows := rows + [StockRow(product, warehouse, legacyProductStock, quantity)];
        return true;
      }
      var row := rows[existing.value];
      var available := row.quantity - row.reserved;
      if available < quantity {
        return false;
      }
      rows := rows[existing.value := row.(reserved := row.reserved + quantity)];
      return true;
    }

    method CommitReservedStock(product: Id, warehouse: Option<Id>, quantity: int) returns (ok: bool)
      modifies this
      ensures ok <==> TakeStock(old(Tables()), product, warehouse, quantity).Success?
      ensures Tables() == if ok then TakeStock(old(Tables()), product, warehouse, quantity).value else old(Tables())
    {
      hide Sync;
      if product !in products {
        return false;
      }
      if warehouse.None? {
        if products[product].stock < quantity {
          return false;
        }
        products := products[product := products[product].(stock := products[product].stock - quantity)];
        return true;
      }
      var found := FindRow(rows, product, warehouse.value);
      if found.None? || rows[found.value].reserved < quantity || rows[found.value].quantity < quantity {
        return false;
      }
      var row := rows[found.value];
      rows := rows[found.value := row.(quantity := row.quantity - quantity, reserved := row.reserved - quantity)];
      ghost var moved := Tables();
      SyncProductStockAggregate(product);
      Synchronised(moved, Tables(), product);
      return true;
    }

    method ReleaseReservation(product: Id, warehouse: Option<Id>, quantity: int, restock: bool)
      modifies this
      ensures Tables() == GiveBack(old(Tables()), product, warehouse, quantity, restock)
    {
      hide Sync;
      if product !in products {
        return;
      }
      if warehouse.None? {
        if restock {
          products := products[product := products[product].(stock := products[product].stock + quantity)];
        }
        return;
      }
      var found := FindRow(rows, product, warehouse.value);
      if found.None? {
        return;
      }
      var row := rows[found.value];
      if restock {
        rows := rows[found.value := row.(quantity := row.quantity + quantity)];
      } else {
        var dec := Min(row.reserved, quantity);
        if dec > 0 {
          rows := rows[found.value := row.(reserved := row.reserved - dec)];
        } else {
          assert rows == rows[found.value := row];
        }
      }
      ghost var moved := Tables();
      SyncProductStockAggregate(product);
      Synchronised(moved, Tables(), product);
    }

    method Reserve(product: Id, quantity: int, order: Id, warehouse: Option<Id>, now: Time, ttl: Time)
        returns (r: Result<nat, StockError>)
      modifies this
      ensures r.Failure? ==> Inventory.Reserve(old(Tables()), product, quantity, order, warehouse, now, ttl)
                             == Failure(r.error)
      ensures r.Success? ==> Inventory.Reserve(old(Tables()), product, quantity, order, warehouse, now, ttl).Success?
      ensures r.Success? ==> Tables()
                             == Inventory.Reserve(old(Tables()), product, quantity, order, warehouse, now, ttl).value
      ensures r.Success? ==> r.value == |old(reservations)| && reservations[r.value].order == order
                             && reservations[r.value].status.Active?
      ensures r.Failure? ==> Tables() == old(Tables())
    {
      if quantity <= 0 {
        return Failure(InvalidQuantity);
      }
      if product !in products {
        return Failure(ProductNotFound);
      }
      var before := reservations;
      reservations := ExpireStale(reservations, product, now);
      var available := GetAvailable(Tables(), product, now).available;
      if available < quantity {
        reservations := before;      // the transaction rolls back
        return Failure(InsufficientStock);
      }
      if warehouse.Some? {
        var ok := ReserveStock(product, warehouse.value, quantity, products[product].stock);
        if !ok {
          reservations := before;    // the transaction rolls back
          return Failure(InsufficientStock);
        }
      }
      reservations := reservations + [Reservation(product, order, warehouse, quantity, Active, now + ttl)];
      products := products[product := products[product].(reservedStock := products[product].reservedStock + quantity)];
      return Success(|before|);
    }

    /** Status of one reservation, and the product's reserved counter clamped at zero. */
    method Settle(i: nat, status: ReservationStatus, dec: int)
      requires i < |reservations| && reservations[i].product in products
      modifies this
      ensures Tables() == Settled(old(Tables()), i, status, dec)
    {
      var r := reservations[i];
      reservations := reservations[i := r.(status := status)];
      var counter := products[r.product].reservedStock - dec;
      products := products[r.product := products[r.product].(reservedStock := counter)];
      if counter < 0 {
        products := products[r.product := products[r.product].(reservedStock := 0)];
      }
    }

    /** One turn of the loop below; when the stock check fails nothing has changed. */
    method ConfirmReservation(i: nat) returns (ok: bool)
      requires i < |reservations|
      modifies this
      ensures ok <==> ConfirmOne(old(Tables()), i).Success?
      ensures Tables() == if ok then ConfirmOne(old(Tables()), i).value else old(Tables())
    {
      var r := reservations[i];
      ok := CommitReservedStock(r.product, r.warehouse, r.quantity);
      if ok {
        Settle(i, Confirmed, Min(r.quantity, COUNTER_CAP));
      }
    }

    /** All of the order's ACTIVE reservations are confirmed, or the transaction rolls back. */
    method Confirm(order: Id) returns (r: Result<nat, StockError>)
      modifies this
      ensures r.Failure? ==> Inventory.Confirm(old(Tables()), order) == Failure(r.error)
      ensures r.Success? ==> Inventory.Confirm(old(Tables()), order).Success?
      ensures r.Success? ==> Tables() == Inventory.Confirm(old(Tables()), order).value
                             && r.value == |ActiveOf(old(reservations), order)|
      ensures r.Failure? ==> Tables() == old(Tables())
    {
      hide ConfirmOne, ActiveOf, ConfirmEach;
      var products0, rows0, reservations0 := products, rows, reservations;
      ghost var s0 := Tables();
      var ids := ActiveOf(reservations, order);
      ConfirmNone(s0, ids);
      for k := 0 to |ids|
        invariant ConfirmEach(s0, ids[..k]) == Success(Tables())
      {
        ConfirmOneMore(s0, Tables(), ids, k);
        var ok := ConfirmReservation(ids[k]);
        if !ok {
          ConfirmFailsWhole(s0, ids, k + 1);
          products, rows, reservations := products0, rows0, reservations0;
          return Failure(StockFail);
        }
      }
      assert ids[..|ids|] == ids;
      return Success(|ids|);
    }

    method ReleaseOrder(order: Id) returns (released: nat)
      modifies this
      ensures Tables() == Inventory.ReleaseOrder(old(Tables()), order)
      ensures released == |ActiveOf(old(reservations), order)|
    {
      ghost var s0 := Tables();
      var ids := ActiveOf(reservations, order);
      for k := 0 to |ids|
        invariant Tables() == LetGoEach(s0, ids[..k], Released)
        invariant |reservations| == |s0.reservations|
      {
        assert ids[..k + 1][..k] == ids[..k];
        LetGo(ids[k], Released);
      }
      assert ids[..|ids|] == ids;
      return |ids|;
    }

    method LetGo(i: nat, status: ReservationStatus)
      requires i < |reservations|
      modifies this
      ensures Tables() == LetGoOne(old(Tables()), i, status)
    {
      var r := reservations[i];
      if r.product !in products {
        return;
      }
      if r.warehouse.Some? {
        ReleaseReservation(r.product, r.warehouse, r.quantity, false);
      }
      Settle(i, status, r.quantity);
    }

    /** One transaction per overdue reservation; each looks at the status again. */
    method ReleaseExpired(now: Time) returns (count: nat)
      modifies this
      ensures Tables() == Inventory.ReleaseExpired(old(Tables()), now)
      ensures count == |PastDue(old(reservations), now)|
    {
      hide LetGoOne, PastDue;
      ghost var s0 := Tables();
      var ids := PastDue(reservations, now);
      count := 0;
      for k := 0 to |ids|
        invariant Tables() == ExpireEach(s0, ids[..k])
        invariant count == k
      {
        assert ids[..k + 1][..k] == ids[..k];
        ExpiringLeavesOthers(s0, ids[..k], ids[k]);
        if ids[k] < |reservations| && reservations[ids[k]].status.Active? {
          LetGo(ids[k], Expired);
          count := count + 1;
        }
      }
      assert ids[..|ids|] == ids;
    }
  }

  /** What the synchronisation promises is what `Sync` does. */
  lemma {:induction false} Synchronised(before: State, after: State, product: Id)
    requires product in before.products && after == before.(products := after.products)
    requires after.products.Keys == before.products.Keys
    requires HasRows(before.rows, product) ==> after.products[product].stock == Sum(before.rows, Quantity(product))
    requires !HasRows(before.rows, product) ==> after.products[product].stock == before.products[product].stock
    requires after.products[product].reservedStock == before.products[product].reservedStock
    requires forall p :: p in before.products && p != product ==> after.products[p] == before.products[p]
    ensures after == Sync(before, product)
  {
    assert after.products == Sync(before, product).products;
  }

  /** Expiring some reservations leaves the rows of the others as they were. */
  lemma {:induction false} ExpiringLeavesOthers(s: State, ids: seq<nat>, i: nat)
    requires i !in ids && i < |s.reservations|
    ensures |ExpireEach(s, ids).reservations| == |s.reservations|
    ensures ExpireEach(s, ids).reservations[i] == s.reservations[i]
  {
    hide LetGoOne;
    if |ids| == 0 {
    } else {
      var n := |ids| - 1;
      ExpiringLeavesOthers(s, ids[..n], i);
      if ids[n] < |s.reservations| {
        LettingGoLeavesOthers(ExpireEach(s, ids[..n]), ids[n]);
      }
    }
  }

  lemma {:induction false} LettingGoLeavesOthers(s: State, k: nat)
    requires k < |s.reservations|
    ensures forall i :: 0 <= i < |s.reservations| && i != k ==>
              LetGoOne(s, k, Expired).reservations[i] == s.reservations[i]
  {
  }

  lemma {:induction false} ConfirmNone(s: State, ids: seq<nat>)
    ensures ConfirmEach(s, ids[..0]) == Success(s)
  {
  }

  lemma {:induction false} ConfirmOneMore(s: State, mid: State, ids: seq<nat>, k: nat)
    requires Positions(ids, |s.reservations|) && k < |ids|
    requires ConfirmEach(s, ids[..k]) == Success(mid)
    ensures ids[k] < |mid.reservations|
    ensures ConfirmEach(s, ids[..k + 1]) == ConfirmOne(mid, ids[k])
  {
    hide ConfirmOne;
    assert ids[..k + 1][..k] == ids[..k];
  }

  /** Once a turn of the loop fails, the whole confirmation fails. */
  lemma {:induction false} ConfirmFailsWhole(s: State, ids: seq<nat>, k: nat)
    requires Positions(ids, |s.reservations|)
    requires k <= |ids| && ConfirmEach(s, ids[..k]).Failure?
    ensures ConfirmEach(s, ids).Failure?
    decreases |ids| - k
  {
    if k == |ids| {
      assert ids[..k] == ids;
    } else {
      assert ids[..k + 1][..k] == ids[..k];
      ConfirmFailsWhole(s, ids, k + 1);
    }
  }
}
