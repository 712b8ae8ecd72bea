/** What an order's payment and its refunds leave in the ledger, account by account. */
module RefundSettlement {
  import opened Common
  import opened Sums
  import opened CartSplit
  import opened Refunds
  import opened Proration
  import opened RefundRuns
  import P = Payments
  import L = Ledger

  // ---------------------------------------------------------- an order's books

  /** The order a transaction is about, if it is about one. */
  function About(refunds: seq<RefundRow>, key: L.Key): Option<Id> {
    if key.kind.Payment? then Some(key.id)
    else if key.kind.Refund? && key.id < |refunds| then Some(refunds[key.id].order)
    else None
  }

  function OrderTxNet(refunds: seq<RefundRow>, order: Id, slice: L.Slice): L.Transaction -> int {
    (t: L.Transaction) => if About(refunds, t.key) == Some(order) then L.NetEntries(t.entries, slice) else 0
  }

  /** Net of one order's transactions on a slice of the book. */
  function OrderNet(book: L.Book, refunds: seq<RefundRow>, order: Id, slice: L.Slice): int {
    Sum(book, OrderTxNet(refunds, order, slice))
  }

  function PaidNet(book: L.Book, o: Order, order: Id, slice: L.Slice): int {
    if L.IsPosted(book, P.PaymentKey(order)) then L.SplitNet(1, o.totalCents, o.commissionCents, o.shop, slice) else 0
  }

  function RowNet(o: Order, order: Id, slice: L.Slice): RefundRow -> int {
    (r: RefundRow) => if r.order == order && r.status.Completed? && r.amountCents > 0
      then L.SplitNet(-1, r.amountCents, Share(r.amountCents, o.commissionCents, o.totalCents), o.shop, slice) else 0
  }

  /** What the tables say an order's net should be. */
  function TableNet(s: State, order: Id, slice: L.Slice): int {
    if order >= |OrdersOf(s)| then 0
    else
      PaidNet(s.pay.book, OrdersOf(s)[order], order, slice)
      + Sum(s.refunds, RowNet(OrdersOf(s)[order], order, slice))
  }

  ghost predicate Settled(s: State) {
    forall order: Id, slice: L.Slice :: OrderNet(s.pay.book, s.refunds, order, slice) == TableNet(s, order, slice)
  }

  // ------------------------------------------------------------- posting

  lemma {:induction false} OrderNetAfterPost(book: L.Book, t: L.Transaction, refunds: seq<RefundRow>,
      order: Id, slice: L.Slice)
    ensures OrderNet(L.Post(book, t), refunds, order, slice)
            == OrderNet(book, refunds, order, slice)
               + (if L.Post(book, t) != book then OrderTxNet(refunds, order, slice)(t) else 0)
  {
    SumAppend(book, t, OrderTxNet(refunds, order, slice));
  }

  /** Posting a payment moves its own order, and only when it is new. */
  lemma {:induction false} PaymentSettles(book: L.Book, o: Order, paid: Id, refunds: seq<RefundRow>,
      order: Id, slice: L.Slice)
    ensures var t := L.PaymentTx(paid, o.totalCents, o.commissionCents, o.shop);
            OrderNet(L.Post(book, t), refunds, order, slice) - OrderNet(book, refunds, order, slice)
            == if order == paid then PaidNet(L.Post(book, t), o, order, slice) - PaidNet(book, o, order, slice) else 0
  {
    var t := L.PaymentTx(paid, o.totalCents, o.commissionCents, o.shop);
    OrderNetAfterPost(book, t, refunds, order, slice);
    L.BuiltIsLawful(L.PostPayment(paid, o.totalCents, o.commissionCents, o.shop));
    L.PostedAfterPost(book, t, P.PaymentKey(order));
    if o.totalCents > 0 {
      L.SplitEntriesNet(true, o.totalCents, o.commissionCents, o.shop, slice);
    }
  }

  lemma {:induction false} ForeignPostSettles(book: L.Book, op: L.Op, refunds: seq<RefundRow>,
      order: Id, slice: L.Slice)
    requires !op.PostPayment? && !op.PostRefund?
    ensures OrderNet(L.Post(book, L.TxOf(op)), refunds, order, slice) == OrderNet(book, refunds, order, slice)
    ensures forall o: Order :: PaidNet(L.Post(book, L.TxOf(op)), o, order, slice) == PaidNet(book, o, order, slice)
  {
    OrderNetAfterPost(book, L.TxOf(op), refunds, order, slice);
    L.PostedAfterPost(book, L.TxOf(op), P.PaymentKey(order));
  }

  /** Figures are what counts: an order's status does not enter. */
  lemma {:induction false} SameFigures(book: L.Book, refunds: seq<RefundRow>, o: Order, p: Order,
      order: Id, slice: L.Slice)
    requires p == o.(status := p.status)
    ensures PaidNet(book, o, order, slice) == PaidNet(book, p, order, slice)
    ensures Sum(refunds, RowNet(o, order, slice)) == Sum(refunds, RowNet(p, order, slice))
  {
    SumSame(refunds, RowNet(o, order, slice), refunds, RowNet(p, order, slice));
  }

  /** An order that was just created has nothing in the book or the refund table. */
  lemma {:induction false} NewOrderBlank(s: State, o: Order, order: Id, slice: L.Slice)
    requires RInv(s) && order >= |OrdersOf(s)|
    ensures PaidNet(s.pay.book, o, order, slice) == 0 && Sum(s.refunds, RowNet(o, order, slice)) == 0
  {
    forall i | 0 <= i < |s.pay.book| ensures s.pay.book[i].key != P.PaymentKey(order) {
      assert P.PostedRight(s.pay.market, s.pay.book[i]);
    }
    forall i | 0 <= i < |s.refunds| ensures RowNet(o, order, slice)(s.refunds[i]) == 0 {
      assert RowGood(OrdersOf(s), s.refunds[i]);
    }
    SumZero(s.refunds, RowNet(o, order, slice));
  }

  /** Orders grow, the book stays. */
  lemma {:induction false} GrowthSettled(s: State, market: P.Orders.Market, order: Id, slice: L.Slice)
    requires RInv(s) && P.Grows(s.pay.market, market)
    requires OrderNet(s.pay.book, s.refunds, order, slice) == TableNet(s, order, slice)
    ensures var t := s.(pay := s.pay.(market := market));
            OrderNet(t.pay.book, t.refunds, order, slice) == TableNet(t, order, slice)
  {
    hide RInv, PaidNet, RowNet;
    if order < |OrdersOf(s)| {
      SameFigures(s.pay.book, s.refunds, OrdersOf(s)[order], market.orders[order], order, slice);
    } else if order < |market.orders| {
      NewOrderBlank(s, market.orders[order], order, slice);
    }
  }

  lemma {:induction false} PaySettles(s: State, step: P.Step)
    requires RInv(s) && Settled(s)
    ensures Settled(Next(s, PayStep(step)))
  {
    hide RInv, P.Next, PaidNet, OrderNet, L.Post, P.Grows;
    if !(step.OtherPostStep? && step.op.PostRefund?) {
      var t := Next(s, PayStep(step));
      RInvPay(s);
      P.StepMoves(s.pay, step);
      forall order: Id, slice: L.Slice ensures OrderNet(t.pay.book, t.refunds, order, slice)
          == TableNet(t, order, slice) {
        GrowthSettled(s, t.pay.market, order, slice);
        if step.OtherPostStep? && t.pay.book == L.Post(s.pay.book, L.TxOf(step.op)) && !step.op.PostPayment? {
          ForeignPostSettles(s.pay.book, step.op, s.refunds, order, slice);
        } else if t.pay.book != s.pay.book {
          var o: Id :| o < |t.pay.market.orders| && t.pay.book == L.Post(s.pay.book, P.OrderPaymentTx(t.pay.market, o));
          PaymentSettles(s.pay.book, t.pay.market.orders[o], o, s.refunds, order, slice);
          OtherOrdersUnpaid(s.pay.book, t.pay.market, o, order, slice);
        }
      }
    }
  }

  lemma {:induction false} RInvPay(s: State)
    requires RInv(s)
    ensures P.PInv(s.pay)
  {
  }

  lemma {:induction false} OtherOrdersUnpaid(book: L.Book, market: P.Orders.Market, paid: Id, order: Id, slice: L.Slice)
    requires paid < |market.orders|
    ensures order != paid ==> forall o: Order :: PaidNet(L.Post(book, P.OrderPaymentTx(market, paid)), o, order, slice)
                                                 == PaidNet(book, o, order, slice)
  {
    L.PostedAfterPost(book, P.OrderPaymentTx(market, paid), P.PaymentKey(order));
  }

  // --------------------------------------------------------- refund rows

  /** Rows may be added or change, as long as every posted refund keeps its order. */
  lemma {:induction false} BookUnmoved(book: L.Book, before: seq<RefundRow>, after: seq<RefundRow>,
      order: Id, slice: L.Slice)
    requires forall i :: 0 <= i < |book| ==> About(before, book[i].key) == About(after, book[i].key)
    ensures OrderNet(book, after, order, slice) == OrderNet(book, before, order, slice)
  {
    SumSame(book, OrderTxNet(after, order, slice), book, OrderTxNet(before, order, slice));
  }

  lemma {:induction false} NewRowSettles(s: State, row: RefundRow)
    requires RInv(s) && Settled(s) && !row.status.Completed?
    ensures Settled(s.(refunds := s.refunds + [row]))
  {
    hide P.PInv, OrderNet, PaidNet;
    var t := s.(refunds := s.refunds + [row]);
    forall i | 0 <= i < |s.pay.book| ensures About(s.refunds, s.pay.book[i].key)
        == About(t.refunds, s.pay.book[i].key) {
      assert Mirrors(OrdersOf(s), s.refunds, s.pay.book[i]);
    }
    forall order: Id, slice: L.Slice ensures OrderNet(t.pay.book, t.refunds, order, slice)
        == TableNet(t, order, slice) {
      BookUnmoved(s.pay.book, s.refunds, t.refunds, order, slice);
      if order < |OrdersOf(s)| {
        SumAppend(s.refunds, row, RowNet(OrdersOf(s)[order], order, slice));
      }
    }
  }

  lemma {:induction false} RowSettles(s: State, id: nat, row: RefundRow)
    requires Settled(s) && id < |s.refunds| && row.order == s.refunds[id].order
    requires !row.status.Completed? && !s.refunds[id].status.Completed?
    ensures Settled(SetRow(s, id, row))
  {
    hide OrderNet, PaidNet;
    var t := SetRow(s, id, row);
    forall order: Id, slice: L.Slice ensures OrderNet(t.pay.book, t.refunds, order, slice)
        == TableNet(t, order, slice) {
      BookUnmoved(s.pay.book, s.refunds, t.refunds, order, slice);
      if order < |OrdersOf(s)| {
        SumUpdate(s.refunds, id, row, RowNet(OrdersOf(s)[order], order, slice));
      }
    }
  }

  lemma {:induction false} CompleteSettles(s: State, id: nat, c: Confirmation)
    requires RInv(s) && Settled(s) && id < |s.refunds|
    ensures Settled(Complete(s, id, c))
  {
    hide RInv, Settled;
    if Completes(s, id, c) {
      var t := Complete(s, id, c);
      forall order: Id, slice: L.Slice ensures OrderNet(t.pay.book, t.refunds, order, slice)
          == TableNet(t, order, slice) {
        CompleteOrderNet(s, id, c, order, slice);
        CompleteTableNet(s, id, c, order, slice);
        SettledAt(s, order, slice);
      }
      AllSettled(t);
    }
  }

  lemma {:induction false} SettledAt(s: State, order: Id, slice: L.Slice)
    requires Settled(s)
    ensures OrderNet(s.pay.book, s.refunds, order, slice) == TableNet(s, order, slice)
  {
  }

  lemma {:induction false} AllSettled(s: State)
    requires forall order: Id, slice: L.Slice ::
               OrderNet(s.pay.book, s.refunds, order, slice) == TableNet(s, order, slice)
    ensures Settled(s)
  {
  }

  /** The net of one completed refund. */
  function BackNet(s: State, id: nat, c: Confirmation, order: Id, slice: L.Slice): int
    requires Completes(s, id, c)
  {
    var o, amount := OrdersOf(s)[s.refunds[id].order], ConfirmedAmount(s.refunds[id], c);
    if order == s.refunds[id].order
        then L.SplitNet(-1, amount, Share(amount, o.commissionCents, o.totalCents), o.shop, slice) else 0
  }

  lemma {:induction false} CompleteOrderNet(s: State, id: nat, c: Confirmation, order: Id, slice: L.Slice)
    requires RInv(s) && Completes(s, id, c)
    ensures var t := Complete(s, id, c);
            OrderNet(t.pay.book, t.refunds, order, slice) == OrderNet(s.pay.book, s.refunds, order, slice)
                + BackNet(s, id, c, order, slice)
  {
    hide P.PInv, Share, StatusAfterRefund;
    var t := Complete(s, id, c);
    var o, amount := OrdersOf(s)[s.refunds[id].order], ConfirmedAmount(s.refunds[id], c);
    var tx := RefundTxFor(id, amount, o);
    CompletePosts(s, id, amount, o);
    BookUnmoved(s.pay.book, s.refunds, t.refunds, order, slice);
    SumAppend(s.pay.book, tx, OrderTxNet(t.refunds, order, slice));
    L.SplitEntriesNet(false, amount, Share(amount, o.commissionCents, o.totalCents), o.shop, slice);
  }

  lemma {:induction false} CompleteTableNet(s: State, id: nat, c: Confirmation, order: Id, slice: L.Slice)
    requires RInv(s) && Completes(s, id, c)
    ensures TableNet(Complete(s, id, c), order, slice) == TableNet(s, order, slice) + BackNet(s, id, c, order, slice)
  {
    hide P.PInv, Share, StatusAfterRefund, L.SplitNet;
    var t := Complete(s, id, c);
    var o, amount := OrdersOf(s)[s.refunds[id].order], ConfirmedAmount(s.refunds[id], c);
    CompletePosts(s, id, amount, o);
    L.PostedAfterPost(s.pay.book, RefundTxFor(id, amount, o), P.PaymentKey(order));
    if order < |OrdersOf(s)| {
      SumUpdate(s.refunds, id, t.refunds[id], RowNet(OrdersOf(s)[order], order, slice));
      SameFigures(t.pay.book, t.refunds, OrdersOf(s)[order], OrdersOf(t)[order], order, slice);
    }
  }

  lemma {:induction false} ConfirmSettles(s: State, c: Confirmation)
    requires RInv(s) && Settled(s)
    ensures Settled(Confirm(s, c))
  {
    hide RInv, Settled, Complete;
    var found := Lookup(s.refunds, c);
    if found.Some? {
      CompleteSettles(s, found.value, c);
    } else if c.order.Some? && c.stripeId.Some? && c.order.value < |OrdersOf(s)| {
      var row := RefundRow(c.order.value, if c.amountCents.Some? then c.amountCents.value else 0,
          ProviderRequested, c.stripeId);
      NewRowKeeps(s, row);
      NewRowSettles(s, row);
      CompleteSettles(s.(refunds := s.refunds + [row]), |s.refunds|, c);
    }
  }

  lemma {:induction false} StepSettles(s: State, step: Step)
    requires RInv(s) && Settled(s)
    ensures Settled(Next(s, step))
  {
    hide RInv, Settled, P.Next, Confirm;
    match step
    case PayStep(st) => PaySettles(s, st);
    case RequestStep(mayAct, order, amount) =>
      if Request(s, mayAct, order, amount) != s {
        NewRowSettles(s, RefundRow(order, amount, Requested, None));
      }
    case ApproveStep(id) =>
      if Approve(s, id) != s {
        RowSettles(s, id, s.refunds[id].(status := Approved));
      }
    case RejectStep(id) =>
      if Reject(s, id) != s {
        RowSettles(s, id, s.refunds[id].(status := Rejected));
      }
    case ProviderStep(id, side) =>
      if RequestProvider(s, id, side) != s {
        RowSettles(s, id, RequestProvider(s, id, side).refunds[id]);
      }
    case ConfirmStep(c) => ConfirmSettles(s, c);
  }

  lemma {:induction false} StartSettled(s: State)
    requires Start(s)
    ensures Settled(s)
  {
  }

  lemma {:induction false} RunSettles(s: State, steps: seq<Step>)
    requires Start(s)
    ensures RInv(Run(s, steps)) && Settled(Run(s, steps))
  {
    hide RInv, Settled, Next;
    RunKeeps(s, steps);
    if |steps| == 0 {
      StartSettled(s);
    } else {
      RunSettles(s, steps[..|steps| - 1]);
      StepSettles(Run(s, steps[..|steps| - 1]), steps[|steps| - 1]);
    }
  }

  // ------------------------------------------------------------- settlement

  function CompletedCents(order: Id): RefundRow -> int {
    (r: RefundRow) => if r.order == order && r.status.Completed? then r.amountCents else 0
  }

  function CompletedOne(order: Id): RefundRow -> int {
    (r: RefundRow) => if r.order == order && r.status.Completed? then 1 else 0
  }

  function CompletedShare(o: Order, order: Id): RefundRow -> int {
    (r: RefundRow) => if r.order == order && r.status.Completed? && r.amountCents > 0
      then Share(r.amountCents, o.commissionCents, o.totalCents) else 0
  }

  /** A fair order's shares pass the ledger's clamp unchanged. */
  lemma {:induction false} RowNets(r: RefundRow, o: Order, order: Id)
    requires o.commissionCents <= o.totalCents && (r.status.Completed? ==> r.amountCents > 0)
    ensures RowNet(o, order, L.Of(L.PlatformClearing))(r) == CompletedCents(order)(r)
    ensures RowNet(o, order, L.Of(L.PlatformCommission))(r) == -CompletedShare(o, order)(r)
    ensures RowNet(o, order, L.Of(L.VendorPayable))(r) == CompletedShare(o, order)(r) - CompletedCents(order)(r)
  {
    if r.status.Completed? {
      ShareWithin(r.amountCents, o.commissionCents, o.totalCents);
    }
  }

  lemma {:induction false} RefundNets(refunds: seq<RefundRow>, o: Order, order: Id)
    requires o.commissionCents <= o.totalCents
    requires forall i :: 0 <= i < |refunds| && refunds[i].status.Completed? ==> refunds[i].amountCents > 0
    ensures Sum(refunds, RowNet(o, order, L.Of(L.PlatformClearing))) == Sum(refunds, CompletedCents(order))
    ensures Sum(refunds, RowNet(o, order, L.Of(L.PlatformCommission))) == -Sum(refunds, CompletedShare(o, order))
    ensures Sum(refunds, RowNet(o, order, L.Of(L.VendorPayable))) == Sum(refunds, CompletedShare(o, order))
              - Sum(refunds, CompletedCents(order))
  {
    hide RowNet, CompletedCents, CompletedShare;
    if |refunds| == 0 {
    } else {
      var n := |refunds| - 1;
      RefundNets(refunds[..n], o, order);
      RowNets(refunds[n], o, order);
    }
  }

  lemma {:induction false} SharesDrift(refunds: seq<RefundRow>, o: Order, order: Id)
    requires o.totalCents > 0
    requires forall i :: 0 <= i < |refunds| && refunds[i].status.Completed? ==> refunds[i].amountCents > 0
    ensures var k := Sum(refunds, CompletedOne(order));
            -(o.totalCents * k)
            <= 2 * (Sum(refunds, CompletedShare(o, order)) * o.totalCents)
                - 2 * (Sum(refunds, CompletedCents(order)) * o.commissionCents)
            <= o.totalCents * k
  {
    forall i | 0 <= i < |refunds|
      ensures var r := refunds[i];
              -(o.totalCents * CompletedOne(order)(r))
              <= 2 * (CompletedShare(o, order)(r) * o.totalCents) - 2 * (CompletedCents(order)(r) * o.commissionCents)
              <= o.totalCents * CompletedOne(order)(r)
    {
      var r := refunds[i];
      if r.order == order && r.status.Completed? {
        ShareDrift(r.amountCents, o.commissionCents, o.totalCents);
      }
    }
    DriftBound(refunds, CompletedCents(order), CompletedShare(o, order), CompletedOne(order),
        o.commissionCents, o.totalCents);
  }

  /**
   * In every run, an order whose payment is in the ledger and whose k completed refunds add up to its
   * total is settled: nothing of it is left in clearing, at most k / 2 cents are left on the commission
   * account, and the vendor's balance carries exactly the opposite. With one refund nothing is left anywhere.
   */
  lemma {:induction false} RefundedOrderSettles(s: State, steps: seq<Step>, order: Id)
    requires Start(s)
    requires var t := Run(s, steps);
             && order < |OrdersOf(t)| && OrdersOf(t)[order].totalCents > 0
             && L.IsPosted(t.pay.book, P.PaymentKey(order))
             && Sum(t.refunds, CompletedCents(order)) == OrdersOf(t)[order].totalCents
    ensures var t := Run(s, steps);
            var k := Sum(t.refunds, CompletedOne(order));
            var left := (account: L.Account) => OrderNet(t.pay.book, t.refunds, order, L.Of(account));
            && left(L.PlatformClearing) == 0
            && -k <= 2 * left(L.PlatformCommission) <= k
            && left(L.VendorPayable) == -left(L.PlatformCommission)
            && (k == 1 ==> left(L.PlatformCommission) == 0)
  {
    hide P.PInv, Next, Mirrored, OrderNet, RowNet, CompletedCents, CompletedShare, CompletedOne;
    RunSettles(s, steps);
    var t := Run(s, steps);
    var o := OrdersOf(t)[order];
    forall i | 0 <= i < |t.refunds| && t.refunds[i].status.Completed? ensures t.refunds[i].amountCents > 0 {
      assert RowGood(OrdersOf(t), t.refunds[i]);
    }
    RefundNets(t.refunds, o, order);
    SharesDrift(t.refunds, o, order);
    DriftInCents(Sum(t.refunds, CompletedShare(o, order)), Sum(t.refunds, CompletedOne(order)),
        o.commissionCents, o.totalCents);
    SettledAt(t, order, L.Of(L.PlatformClearing));
    SettledAt(t, order, L.Of(L.PlatformCommission));
    SettledAt(t, order, L.Of(L.VendorPayable));
  }
}
