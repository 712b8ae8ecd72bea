/** Safety of refunds over every run of the marketplace: the cap, the single ledger mirror, and the settled order. */
module RefundRuns {
  import opened Common
  import opened OrderMachine
  import opened CartSplit
  import opened Refunds
  import O = Orders
  import OrderStock
  import P = Payments
  import L = Ledger

  // -------------------------------------------------------------- invariant

  function RefundKey(id: Id): L.Key {
    L.Key(L.Refund, L.RefundRef, id)
  }

  predicate OrdersFair(orders: seq<Order>) {
    forall o :: 0 <= o < |orders| ==> orders[o].commissionCents <= orders[o].totalCents
  }

  predicate RowGood(orders: seq<Order>, r: RefundRow) {
    r.order < |orders| && (r.status.Completed? ==> r.amountCents > 0)
  }

  /** A posted refund mirrors a completed row: its amount, and its share of the order's commission. */
  predicate Mirrors(orders: seq<Order>, refunds: seq<RefundRow>, t: L.Transaction) {
    t.key.kind.Refund? ==>
      && t.key.id < |refunds| && refunds[t.key.id].status.Completed? && refunds[t.key.id].amountCents > 0
      && refunds[t.key.id].order < |orders|
      && t == RefundTxFor(t.key.id, refunds[t.key.id].amountCents, orders[refunds[t.key.id].order])
  }

  predicate Mirrored(orders: seq<Order>, refunds: seq<RefundRow>, book: L.Book) {
    && (forall i :: 0 <= i < |book| ==> Mirrors(orders, refunds, book[i]))
    && (forall id :: 0 <= id < |refunds| && refunds[id].status.Completed? ==> L.IsPosted(book, RefundKey(id)))
  }

  predicate RInv(s: State) {
    && P.PInv(s.pay)
    && OrdersFair(OrdersOf(s))
    && (forall i :: 0 <= i < |s.refunds| ==> RowGood(OrdersOf(s), s.refunds[i]))
    && Mirrored(OrdersOf(s), s.refunds, s.pay.book)
  }

  // ------------------------------------------------------------ fair orders

  lemma {:induction false} BuiltOrderFair(shop: Id, items: seq<CartItem>, shippingCents: nat, terms: Terms)
    ensures var o := BuildOrder(shop, items, shippingCents, terms); o.commissionCents <= o.totalCents
  {
    var subtotal := SumNat(items, Goods());
    RoundDivAtMost(subtotal * COMMISSION_BPS, 10000, subtotal);
  }

  lemma {:induction false} MarketStepFair(m: O.Market, step: O.Step)
    requires OrdersFair(m.orders) && !step.PayStep?
    ensures OrdersFair(O.Next(m, step).orders)
  {
    hide BuildOrder, O.PlaceOrders, CanTransition, O.Inv.ReleaseOrder, O.RestockLines;
    if step.CheckoutStep? && O.Checkout(m, step.cart, step.catalog, step.terms, step.now).Success? {
      var orders := O.OrdersFor(O.CartOf(m, step.cart), step.catalog, step.terms);
      OrderStock.CheckoutAppends(m, step.cart, step.catalog, step.terms, step.now);
      forall k | 0 <= k < |orders| ensures orders[k].commissionCents <= orders[k].totalCents {
        var items := O.Resolve(O.CartOf(m, step.cart), step.catalog);
        BuiltOrderFair(ShopsOf(items)[k], GroupOf(items, ShopsOf(items)[k]),
            if k == 0 then step.terms.shippingCents else 0, step.terms);
      }
    }
  }

  // ------------------------------------------------------- steps keep it all

  /** Other orders' figures, and other transactions, do not disturb the mirror. */
  lemma {:induction false} MirrorUndisturbed(orders: seq<Order>, after: seq<Order>, refunds: seq<RefundRow>,
      book: L.Book, t: L.Transaction)
    requires Mirrored(orders, refunds, book) && !t.key.kind.Refund? && |orders| <= |after|
    requires forall o :: 0 <= o < |orders| ==> after[o] == orders[o].(status := after[o].status)
    ensures Mirrored(after, refunds, book) && Mirrored(after, refunds, L.Post(book, t))
  {
    hide RefundTxFor;
    forall i | 0 <= i < |book| ensures Mirrors(after, refunds, book[i]) {
      assert Mirrors(orders, refunds, book[i]);
      if book[i].key.kind.Refund? {
        SameRefundTx(book[i].key.id, refunds[book[i].key.id].amountCents, orders[refunds[book[i].key.id].order],
            after[refunds[book[i].key.id].order]);
      }
    }
    forall id | 0 <= id < |refunds|
        && refunds[id].status.Completed? ensures L.IsPosted(L.Post(book, t), RefundKey(id)) {
      L.PostedAfterPost(book, t, RefundKey(id));
    }
  }

  lemma {:induction false} SameRefundTx(id: Id, amount: nat, o: Order, p: Order)
    requires p == o.(status := p.status)
    ensures RefundTxFor(id, amount, o) == RefundTxFor(id, amount, p)
  {
  }

  lemma {:induction false} PayKeeps(s: State, step: P.Step)
    requires RInv(s)
    ensures RInv(Next(s, PayStep(step)))
  {
    hide P.Next, P.PInv, P.BookGood, P.HistoryGood, P.PaymentGood, Mirrored;
    if !(step.OtherPostStep? && step.op.PostRefund?) {
      var t := P.Next(s.pay, step);
      P.StepKeepsInv(s.pay, step);
      P.StepMoves(s.pay, step);
      PayFair(s.pay, step);
      if step.OtherPostStep? && t.book == L.Post(s.pay.book, L.TxOf(step.op)) {
        MirrorUndisturbed(OrdersOf(s), t.market.orders, s.refunds, s.pay.book, L.TxOf(step.op));
      } else if t.book == s.pay.book {
        MirrorUndisturbed(OrdersOf(s), t.market.orders, s.refunds, s.pay.book, L.PaymentTx(0, 0, 0, 0));
      } else {
        var o: Id :| o < |t.market.orders| && t.book == L.Post(s.pay.book, P.OrderPaymentTx(t.market, o));
        MirrorUndisturbed(OrdersOf(s), t.market.orders, s.refunds, s.pay.book, P.OrderPaymentTx(t.market, o));
      }
    }
  }

  lemma {:induction false} PayFair(s: P.State, step: P.Step)
    requires P.PInv(s) && OrdersFair(s.market.orders)
    ensures OrdersFair(P.Next(s, step).market.orders)
  {
    hide P.PInv;
    P.StepMoves(s, step);
    if step.MarketStep? && !step.step.PayStep? {
      MarketStepFair(s.market, step.step);
    } else {
      assert |P.Next(s, step).market.orders| == |s.market.orders|;
    }
  }

  /** A row that is not completed, before and after, is no concern of the ledger. */
  lemma {:induction false} RowKeeps(s: State, id: nat, row: RefundRow)
    requires RInv(s) && id < |s.refunds| && row.order == s.refunds[id].order
    requires !row.status.Completed? && !s.refunds[id].status.Completed?
    ensures RInv(SetRow(s, id, row))
  {
    hide P.PInv, RefundTxFor;
    forall i | 0 <= i < |s.pay.book| ensures Mirrors(OrdersOf(s), s.refunds[id := row], s.pay.book[i]) {
      assert Mirrors(OrdersOf(s), s.refunds, s.pay.book[i]);
    }
  }

  lemma {:induction false} NewRowKeeps(s: State, row: RefundRow)
    requires RInv(s) && row.order < |OrdersOf(s)| && !row.status.Completed?
    ensures RInv(s.(refunds := s.refunds + [row]))
  {
    hide P.PInv, RefundTxFor;
    forall i | 0 <= i < |s.pay.book| ensures Mirrors(OrdersOf(s), s.refunds + [row], s.pay.book[i]) {
      assert Mirrors(OrdersOf(s), s.refunds, s.pay.book[i]);
    }
  }

  /** Completing a refund posts its transaction: it was not posted before. */
  lemma {:induction false} CompletePosts(s: State, id: nat, amount: nat, order: Order)
    requires Mirrored(OrdersOf(s), s.refunds, s.pay.book) && id < |s.refunds|
               && !s.refunds[id].status.Completed? && amount > 0
    ensures !L.IsPosted(s.pay.book, RefundKey(id))
    ensures L.Post(s.pay.book, RefundTxFor(id, amount, order)) == s.pay.book + [RefundTxFor(id, amount, order)]
  {
    forall i | 0 <= i < |s.pay.book| ensures s.pay.book[i].key != RefundKey(id) {
      assert Mirrors(OrdersOf(s), s.refunds, s.pay.book[i]);
    }
    L.BuiltIsLawful(L.PostRefund(id, amount, Share(amount, order.commissionCents, order.totalCents), order.shop));
  }

  predicate Completes(s: State, id: nat, c: Confirmation) {
    && id < |s.refunds| && Confirmable(s.refunds[id].status)
    && s.refunds[id].order < |OrdersOf(s)| && ConfirmedAmount(s.refunds[id], c) > 0
    && !IdTaken(s.refunds, id, c.stripeId)
  }

  lemma {:induction false} CompleteMirrors(s: State, id: nat, c: Confirmation)
    requires RInv(s) && Completes(s, id, c)
    ensures var t := Complete(s, id, c);
            Mirrored(OrdersOf(t), t.refunds, t.pay.book)
  {
    hide P.PInv, RefundTxFor, StatusAfterRefund, L.Post;
    var t := Complete(s, id, c);
    var row := t.refunds[id];
    var o := OrdersOf(s)[row.order];
    CompletePosts(s, id, row.amountCents, o);
    SameRefundTx(id, row.amountCents, o, OrdersOf(t)[row.order]);
    TxKey(id, row.amountCents, o);
    forall i | 0 <= i < |t.pay.book| ensures Mirrors(OrdersOf(t), t.refunds, t.pay.book[i]) {
      if i < |s.pay.book| {
        assert Mirrors(OrdersOf(s), s.refunds, s.pay.book[i]);
        if s.pay.book[i].key.kind.Refund? {
          var k := s.pay.book[i].key.id;
          SameRefundTx(k, s.refunds[k].amountCents, OrdersOf(s)[s.refunds[k].order], OrdersOf(t)[s.refunds[k].order]);
        }
      }
    }
    forall k | 0 <= k < |t.refunds| && t.refunds[k].status.Completed? ensures L.IsPosted(t.pay.book, RefundKey(k)) {
      if k == id {
        assert t.pay.book[|s.pay.book|].key == RefundKey(k);
      } else {
        var i :| 0 <= i < |s.pay.book| && s.pay.book[i].key == RefundKey(k);
        assert t.pay.book[i].key == RefundKey(k);
      }
    }
  }

  lemma {:induction false} TxKey(id: Id, amount: nat, o: Order)
    ensures RefundTxFor(id, amount, o).key == RefundKey(id)
  {
  }

  lemma {:induction false} CompleteKeeps(s: State, id: nat, c: Confirmation)
    requires RInv(s) && id < |s.refunds|
    ensures RInv(Complete(s, id, c))
  {
    hide P.PInv, Mirrored;
    if Completes(s, id, c) {
      CompleteMirrors(s, id, c);
      var r := s.refunds[id];
      var amount, o := ConfirmedAmount(r, c), OrdersOf(s)[r.order];
      var status := StatusAfterRefund(o, amount);
      P.OverwriteKeeps(s.pay, r.order, status);
      P.OtherPostKeeps(s.pay.(market := O.Overwrite(s.pay.market, r.order, status)),
                       L.PostRefund(id, amount, Share(amount, o.commissionCents, o.totalCents), o.shop));
    }
  }

  lemma {:induction false} StepKeeps(s: State, step: Step)
    requires RInv(s)
    ensures RInv(Next(s, step))
  {
    hide RInv, Complete, P.Next;
    match step
    case PayStep(st) => PayKeeps(s, st);
    case RequestStep(mayAct, order, amount) =>
      if Request(s, mayAct, order, amount) != s {
        NewRowKeeps(s, RefundRow(order, amount, Requested, None));
      }
    case ApproveStep(id) =>
      if Approve(s, id) != s {
        RowKeeps(s, id, s.refunds[id].(status := Approved));
      }
    case RejectStep(id) =>
      if Reject(s, id) != s {
        RowKeeps(s, id, s.refunds[id].(status := Rejected));
      }
    case ProviderStep(id, side) =>
      if RequestProvider(s, id, side) != s {
        RowKeeps(s, id, RequestProvider(s, id, side).refunds[id]);
      }
    case ConfirmStep(c) => ConfirmKeeps(s, c);
  }

  lemma {:induction false} ConfirmKeeps(s: State, c: Confirmation)
    requires RInv(s)
    ensures RInv(Confirm(s, c))
  {
    hide RInv, Complete;
    var found := Lookup(s.refunds, c);
    if found.Some? {
      CompleteKeeps(s, found.value, c);
    } else if c.order.Some? && c.stripeId.Some? && c.order.value < |OrdersOf(s)| {
      var row := RefundRow(c.order.value, if c.amountCents.Some? then c.amountCents.value else 0,
          ProviderRequested, c.stripeId);
      NewRowKeeps(s, row);
      CompleteKeeps(s.(refunds := s.refunds + [row]), |s.refunds|, c);
    }
  }

  lemma {:induction false} RunKeeps(s: State, steps: seq<Step>)
    requires Start(s)
    ensures RInv(Run(s, steps))
  {
    hide RInv;
    if |steps| == 0 {
      StartGood(s);
    } else {
      RunKeeps(s, steps[..|steps| - 1]);
      StepKeeps(Run(s, steps[..|steps| - 1]), steps[|steps| - 1]);
    }
  }

  lemma {:induction false} StartGood(s: State)
    requires Start(s)
    ensures RInv(s)
  {
    P.StartGood(s.pay);
  }

  /**
   * Over every run, with confirmations in any order, repeated, and of any amount: the ledger holds a
   * REFUND transaction for a refund exactly when that refund is COMPLETED, never two, and it reverses
   * the completed amount with its share of the order's commission.
   */
  lemma {:induction false} RefundsMirroredOnce(s: State, steps: seq<Step>, id: Id)
    requires Start(s)
    ensures var t := Run(s, steps);
            && (L.IsPosted(t.pay.book, RefundKey(id)) <==> id < |t.refunds| && t.refunds[id].status.Completed?)
            && (forall i, j :: 0 <= i < j < |t.pay.book| ==> t.pay.book[i].key != t.pay.book[j].key)
            && (forall i :: 0 <= i < |t.pay.book| && t.pay.book[i].key == RefundKey(id) ==>
                  && id < |t.refunds| && t.refunds[id].amountCents > 0 && t.refunds[id].order < |OrdersOf(t)|
                  && t.pay.book[i] == RefundTxFor(id, t.refunds[id].amountCents, OrdersOf(t)[t.refunds[id].order]))
  {
    hide RefundTxFor, P.HistoryGood, P.PaymentGood;
    RunKeeps(s, steps);
    var t := Run(s, steps);
    forall i | 0 <= i < |t.pay.book| && t.pay.book[i].key == RefundKey(id)
      ensures id < |t.refunds| && t.refunds[id].status.Completed? && t.refunds[id].amountCents > 0
              && t.refunds[id].order < |OrdersOf(t)|
              && t.pay.book[i] == RefundTxFor(id, t.refunds[id].amountCents, OrdersOf(t)[t.refunds[id].order])
    {
      assert Mirrors(OrdersOf(t), t.refunds, t.pay.book[i]);
    }
  }
}
