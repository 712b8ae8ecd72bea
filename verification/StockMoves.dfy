/** What single moves of stock do, in any state; and what a sweep of expired reservations leaves. */
module StockMoves {
  import opened Common
  import opened Sums
  import opened Inventory

  /** From `s` to `t` one row is rewritten, and its product's stock follows its rows; nothing else moves. */
  predicate RowRewritten(s: State, t: State, i: nat, quantity: int, reserved: int)
    requires i < |s.rows| && s.rows[i].product in s.products
  {
    var p := s.rows[i].product;
    && t.rows == s.rows[i := s.rows[i].(quantity := quantity, reserved := reserved)]
    && t.reservations == s.reservations
    && t.products == s.products[p := s.products[p].(stock := Sum(t.rows, Quantity(p)))]
  }

  lemma {:induction false} RewrittenRowHasProduct(s: State, i: nat, row: StockRow)
    requires i < |s.rows| && row.product == s.rows[i].product
    ensures HasRows(s.rows[i := row], row.product)
  {
    assert s.rows[i := row][i].product == row.product;
  }

  /**
   * Taking reserved units out of physical stock, in any state: at a warehouse it needs a row that has them reserved
   * and in stock, and takes them from both; elsewhere it needs them in the product's stock, and takes them there.
   */
  lemma {:induction false} TakesExactly(s: State, product: Id, warehouse: Option<Id>, quantity: int)
    ensures var r := TakeStock(s, product, warehouse, quantity);
            match warehouse
            case None =>
              && (r.Success? <==> product in s.products && quantity <= s.products[product].stock)
              && (r.Success? ==>
                    var p := s.products[product];
                    r.value == s.(products := s.products[product := p.(stock := p.stock - quantity)]))
            case Some(w) =>
              var found := FindRow(s.rows, product, w);
              && (r.Success? <==> product in s.products && found.Some?
                                  && quantity <= s.rows[found.value].reserved
                                  && quantity <= s.rows[found.value].quantity)
              && (r.Success? ==>
                    var row := s.rows[found.value];
                    RowRewritten(s, r.value, found.value, row.quantity - quantity, row.reserved - quantity))
  {
    if warehouse.Some? && FindRow(s.rows, product, warehouse.value).Some? && product in s.products {
      var i := FindRow(s.rows, product, warehouse.value).value;
      var row := s.rows[i];
      RewrittenRowHasProduct(s, i, row.(quantity := row.quantity - quantity, reserved := row.reserved - quantity));
    }
  }

  /**
   * Giving units back, in any state: a restock raises the row, or without a warehouse the product's stock; a release
   * lowers only what the row has reserved, and never below zero.
   */
  lemma {:induction false} GivesBackExactly(s: State, product: Id, warehouse: Option<Id>, quantity: int, restock: bool)
    ensures var t := GiveBack(s, product, warehouse, quantity, restock);
            match warehouse
            case None =>
              if product in s.products && restock then
                var p := s.products[product];
                t == s.(products := s.products[product := p.(stock := p.stock + quantity)])
              else t == s
            case Some(w) =>
              var found := FindRow(s.rows, product, w);
              if product in s.products && found.Some? then
                var row := s.rows[found.value];
                if restock then RowRewritten(s, t, found.value, row.quantity + quantity, row.reserved)
                else RowRewritten(s, t, found.value, row.quantity, row.reserved - Max(0, Min(row.reserved, quantity)))
              else t == s
  {
    if warehouse.Some? && FindRow(s.rows, product, warehouse.value).Some? && product in s.products {
      var i := FindRow(s.rows, product, warehouse.value).value;
      var row := s.rows[i];
      RewrittenRowHasProduct(s, i, row.(quantity := row.quantity + quantity));
      RewrittenRowHasProduct(s, i, row.(reserved := row.reserved - Max(0, Min(row.reserved, quantity))));
    }
  }

  // ------------------------------------------------------- expired reservations

  /**
   * From `s` to `t` physical stock stands still, and every row and every product keeps exactly what it has reserved
   * beyond its ACTIVE units.
   */
  ghost predicate OnlyHoldsMove(s: State, t: State) {
    && t.products.Keys == s.products.Keys
    && (forall p :: p in s.products ==>
          && t.products[p].stock == s.products[p].stock
          && t.products[p].reservedStock - Sum(t.reservations, ActiveFor(p))
             == s.products[p].reservedStock - Sum(s.reservations, ActiveFor(p)))
    && |t.rows| == |s.rows|
    && (forall k :: 0 <= k < |s.rows| ==> RowOnlyHolds(s, t, k))
  }

  predicate RowOnlyHolds(s: State, t: State, k: nat)
    requires k < |s.rows| == |t.rows|
  {
    var a, b := s.rows[k], t.rows[k];
    && b == a.(reserved := b.reserved)
    && b.reserved - Sum(t.reservations, ActiveAt(a.product, Some(a.warehouse)))
       == a.reserved - Sum(s.reservations, ActiveAt(a.product, Some(a.warehouse)))
  }

  lemma {:induction false} HoldsChain(s: State, t: State, u: State)
    requires OnlyHoldsMove(s, t) && OnlyHoldsMove(t, u)
    ensures OnlyHoldsMove(s, u)
  {
    forall k | 0 <= k < |s.rows| ensures RowOnlyHolds(s, u, k) {
      assert RowOnlyHolds(s, t, k) && RowOnlyHolds(t, u, k);
    }
  }

  lemma {:induction false} ClosedRowHolds(s: State, t: State, i: nat, k: nat)
    requires RowsUnique(s.rows) && i < |s.reservations| && s.reservations[i].status.Active?
    requires Closes(s, t, i, Expired, 0) && k < |s.rows| == |t.rows|
    ensures RowOnlyHolds(s, t, k)
  {
    hide RowsUnique, FindRow;
    CloseSums(s.reservations, i, Expired);
    FoundIsUnique(s.rows, k);
  }

  lemma {:induction false} ClosedHolds(s: State, t: State, i: nat)
    requires RowsUnique(s.rows) && i < |s.reservations| && s.reservations[i].status.Active?
    requires Closes(s, t, i, Expired, 0)
    ensures OnlyHoldsMove(s, t)
  {
    hide RowsUnique, FindRow, RowOnlyHolds;
    CloseSums(s.reservations, i, Expired);
    forall k | 0 <= k < |s.rows| ensures RowOnlyHolds(s, t, k) {
      ClosedRowHolds(s, t, i, k);
    }
  }

  lemma {:induction false} LettingGoMovesHolds(s: State, i: nat)
    requires Inv(s) && i < |s.reservations| && s.reservations[i].status.Active?
    ensures OnlyHoldsMove(s, LetGoOne(s, i, Expired)) && Inv(LetGoOne(s, i, Expired))
    ensures LetGoOne(s, i, Expired).reservations == s.reservations[i := s.reservations[i].(status := Expired)]
  {
    hide LetGoOne, OnlyHoldsMove;
    LetGoOneCloses(s, i, Expired);
    ClosedHolds(s, LetGoOne(s, i, Expired), i);
  }

  lemma {:induction false} ExpiringMovesHolds(s: State, ids: seq<nat>)
    requires Inv(s) && Positions(ids, |s.reservations|)
    ensures var t := ExpireEach(s, ids);
            && Inv(t) && OnlyHoldsMove(s, t) && |t.reservations| == |s.reservations|
            && (forall i :: 0 <= i < |s.reservations| ==>
                  t.reservations[i] == if i in ids && s.reservations[i].status.Active?
                                       then s.reservations[i].(status := Expired) else s.reservations[i])
  {
    hide Inv, LetGoOne, OnlyHoldsMove;
    if |ids| == 0 {
      NothingMoves(s);
    } else {
      var n := |ids| - 1;
      ExpiringMovesHolds(s, ids[..n]);
      var mid := ExpireEach(s, ids[..n]);
      assert forall i :: i in ids <==> i in ids[..n] || i == ids[n];
      if mid.reservations[ids[n]].status.Active? {
        LettingGoMovesHolds(mid, ids[n]);
        HoldsChain(s, mid, ExpireEach(s, ids));
      }
    }
  }

  lemma {:induction false} NothingMoves(s: State)
    ensures OnlyHoldsMove(s, s)
  {
  }

  /**
   * A sweep expires exactly the ACTIVE reservations whose time is over, frees exactly their units at their rows and
   * on their products' counters, and moves no physical stock.
   */
  lemma {:induction false} SweepExpiresExactly(s: State, now: Time)
    requires Inv(s)
    ensures var t := ReleaseExpired(s, now);
            && Inv(t) && OnlyHoldsMove(s, t) && |t.reservations| == |s.reservations|
            && (forall i :: 0 <= i < |s.reservations| ==>
                  var r := s.reservations[i];
                  t.reservations[i] == if r.status.Active? && r.expiresAt < now then r.(status := Expired) else r)
  {
    hide Inv, ExpireEach, OnlyHoldsMove;
    ExpiringMovesHolds(s, PastDue(s.reservations, now));
  }
}
