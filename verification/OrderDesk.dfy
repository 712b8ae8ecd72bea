/** What the desk of the shop does: putting units into carts, and moving orders on request. */
module OrderDesk {
  import opened Common
  import opened Sums
  import opened OrderMachine
  import opened Orders

  function CartUnits(product: Id): CartRow -> int {
    (r: CartRow) => if r.product == product then r.quantity else 0
  }

  function InCart(m: Market, cart: Id, product: Id): int {
    Sum(CartOf(m, cart), CartUnits(product))
  }

  predicate OneRowEach(rows: seq<CartRow>) {
    forall i, j :: 0 <= i < j < |rows| ==> rows[i].product != rows[j].product
  }

  lemma {:induction false} UnitsOfRow(rows: seq<CartRow>, product: Id)
    requires OneRowEach(rows)
    ensures var found := FindCartRow(rows, product);
            Sum(rows, CartUnits(product)) == if found.Some? then rows[found.value].quantity else 0
  {
    if |rows| == 0 {
    } else {
      UnitsOfRow(rows[..|rows| - 1], product);
    }
  }

  /**
   * Adding to a cart succeeds exactly for a product on offer of which the cart would then hold no more than there is in
   * stock. It adds the units to that product and nothing to any other, and still has one row per product; no
   * other cart and no other table moves, and a refusal moves nothing.
   */
  lemma {:induction false} AddsExactly(m: Market, cart: Id, product: Id, quantity: nat, sellable: bool)
    requires OneRowEach(CartOf(m, cart))
    ensures var t := AddItem(m, cart, product, quantity, sellable);
            if sellable && product in m.inv.products
               && InCart(m, cart, product) + quantity <= m.inv.products[product].stock
            then
              && (forall p: Id :: InCart(t, cart, p) == InCart(m, cart, p) + (if p == product then quantity else 0))
              && OneRowEach(CartOf(t, cart)) && FindCartRow(CartOf(t, cart), product).Some?
              && (forall c: Id :: c != cart ==> CartOf(t, c) == CartOf(m, c))
              && t == m.(carts := t.carts)
            else t == m
  {
    var rows := CartOf(m, cart);
    UnitsOfRow(rows, product);
    var found := FindCartRow(rows, product);
    var next := quantity + (if found.Some? then rows[found.value].quantity else 0);
    RowRaised(rows, product, next);
    hide OneRowEach, CartUnits, FindCartRow;
    var t := AddItem(m, cart, product, quantity, sellable);
    if t != m {
      var row := CartRow(product, next);
      assert CartOf(t, cart) == if found.Some? then rows[found.value := row] else rows + [row];
    }
  }

  /** The rows of a cart with a product's row raised to `next`, or made. */
  lemma {:induction false} RowRaised(rows: seq<CartRow>, product: Id, next: nat)
    requires OneRowEach(rows)
    ensures var found := FindCartRow(rows, product);
            var row := CartRow(product, next);
            var after := if found.Some? then rows[found.value := row] else rows + [row];
            && OneRowEach(after) && FindCartRow(after, product).Some?
            && (forall p: Id :: Sum(after, CartUnits(p)) == Sum(rows, CartUnits(p))
                  + (if p != product then 0 else if found.Some? then next - rows[found.value].quantity else next))
  {
    var found := FindCartRow(rows, product);
    var row := CartRow(product, next);
    var after := if found.Some? then rows[found.value := row] else rows + [row];
    hide FindCartRow;
    assert FindCartRow(after, product).Some? by {
      assert after[if found.Some? then found.value else |rows|].product == product;
    }
    forall p: Id
      ensures Sum(after, CartUnits(p)) == Sum(rows, CartUnits(p))
                + (if p != product then 0 else if found.Some? then next - rows[found.value].quantity else next)
    {
      if found.Some? {
        SumUpdate(rows, found.value, row, CartUnits(p));
      } else {
        SumAppend(rows, row, CartUnits(p));
      }
    }
  }

  /**
   * An actor moves an order exactly when it is the actor's to move, the machine allows the move to that role, and an
   * administrator who cancels or refunds says why. The order then has the new status and nothing else of it or of
   * any other order changes; the move is recorded; and stock is touched only when the order is cancelled or
   * refunded: units that had been taken come back, units that were only held are let go.
   */
  lemma {:induction false} MovesExactly(m: Market, role: Role, mayAct: bool, order: Id, to: OrderStatus, reason: bool)
    ensures var r := UpdateStatus(m, role, mayAct, order, to, reason);
            && (r.Success? <==>
                  && order < |m.orders| && mayAct && role != System
                  && CanTransition(role, m.orders[order].status, to)
                  && (role in {Admin, SuperAdmin} && to in {Cancelled, Refunded, PartiallyRefunded} ==> reason))
            && (r.Success? ==>
                  var t, o := r.value, m.orders[order];
                  && t.orders == m.orders[order := o.(status := to)] && t.carts == m.carts
                  && t.history == m.history + [HistoryRow(order, Some(o.status), to)]
                  && (to !in {Cancelled, Refunded} ==> t.inv == m.inv)
                  && (to in {Cancelled, Refunded} && o.status == PendingPayment ==>
                        t.inv == Inv.ReleaseOrder(m.inv, order))
                  && (to in {Cancelled, Refunded} && o.status in {Paid, Processing, Shipped, Completed, Disputed} ==>
                        t.inv == RestockLines(m.inv, o.lines)))
  {
    hide Inv.ReleaseOrder, RestockLines, CanTransition;
  }
}
