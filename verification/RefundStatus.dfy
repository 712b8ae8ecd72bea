/** What an order's status says of its refunds, over every run of the marketplace. */
module RefundStatus {
  import opened Common
  import opened OrderMachine
  import opened CartSplit
  import opened Refunds
  import opened RefundRuns
  import O = Orders
  import OrderStock
  import P = Payments

  predicate HasCompleted(s: State, order: Id) {
    exists i :: 0 <= i < |s.refunds| && s.refunds[i].order == order && s.refunds[i].status.Completed?
  }

  /** One completed refund alone covers the order's total. */
  predicate HasFull(s: State, order: Id)
    requires order < |OrdersOf(s)|
  {
    exists i :: 0 <= i < |s.refunds| && s.refunds[i].order == order && s.refunds[i].status.Completed?
                && s.refunds[i].amountCents >= OrdersOf(s)[order].totalCents
  }

  /** REFUNDED says that one refund covered the order, PARTIALLY_REFUNDED that there are refunds but no such one. */
  predicate Agrees(s: State, order: Id) {
    order < |OrdersOf(s)| ==>
      && (OrdersOf(s)[order].status.Refunded? <==> HasFull(s, order))
      && (OrdersOf(s)[order].status.PartiallyRefunded? <==> HasCompleted(s, order) && !HasFull(s, order))
  }

  /** An actor writes a refund status by hand, or a dispute hides the status of an order that has a completed refund. */
  predicate WritesAgainst(s: State, step: Step, order: Id) {
    step.PayStep? && order < |OrdersOf(s)| &&
    match step.step
    case MarketStep(StatusStep(role, mayAct, o, to, reason)) =>
      && o == order && (to.Refunded? || to.PartiallyRefunded?)
      && O.UpdateStatus(s.pay.market, role, mayAct, o, to, reason).Success?
    case DeliverStep(event, DisputeOpened(id), crash) =>
      && !P.AlreadyHandled(s.pay, event) && !crash.BeforeHandling?
      && id.Some? && P.PaidByMeant(s.pay.payments, id, order)
      && HasCompleted(s, order)
    case _ => false
  }

  // ------------------------------------------------------- steps on the market

  predicate RefundedEither(status: OrderStatus) {
    status.Refunded? || status.PartiallyRefunded?
  }

  /** Same order, and its status tells the same about refunds. */
  predicate TellsSame(m: O.Market, t: O.Market, order: Id)
    requires order < |m.orders|
  {
    && order < |t.orders|
    && t.orders[order] == m.orders[order].(status := t.orders[order].status)
    && (t.orders[order].status.Refunded? <==> m.orders[order].status.Refunded?)
    && (t.orders[order].status.PartiallyRefunded? <==> m.orders[order].status.PartiallyRefunded?)
  }

  lemma {:induction false} PayingTellsSame(m: O.Market, paid: Id, order: Id)
    requires order < |m.orders| && O.MarkPaid(m, paid).Success?
    ensures TellsSame(m, O.MarkPaid(m, paid).value, order) && |O.MarkPaid(m, paid).value.orders| == |m.orders|
  {
    hide O.Inv.Confirm;
  }

  lemma {:induction false} CompletingTellsSame(s: P.State, i: nat, providerId: Id, o: Id, cents: int, crash: P.Crash,
      order: Id)
    requires i < |s.payments| && order < |s.market.orders|
    ensures TellsSame(s.market, P.CompletePayment(s, i, providerId, o, cents, crash).market, order)
  {
    hide O.MarkPaid, P.L.Post;
    if O.MarkPaid(s.market, s.payments[i].order).Success? {
      PayingTellsSame(s.market, s.payments[i].order, order);
    }
  }

  lemma {:induction false} DeliveryTellsSame(s: P.State, event: Id, body: P.EventBody, crash: P.Crash, order: Id)
    requires order < |s.market.orders| && !body.DisputeOpened?
    ensures TellsSame(s.market, P.Deliver(s, event, body, crash).market, order)
  {
    hide P.CompletePayment;
    match body
    case IntentSucceeded(intent) =>
      var found := P.FindPayment(s.payments, intent);
      if found.Some? {
        CompletingTellsSame(s, found.value, intent.providerId, s.payments[found.value].order,
            s.payments[found.value].amountCents, crash, order);
      }
    case _ =>
  }

  lemma {:induction false} DevConfirmTellsSame(s: P.State, o: Id, id: Id, key: Id, order: Id)
    requires order < |s.market.orders|
    ensures TellsSame(s.market, P.DevConfirm(s, o, id, key).market, order)
  {
    hide P.CompletePayment, P.CreatePayment;
    if o < |s.market.orders| && s.market.orders[o].status.PendingPayment? {
      var t := P.CreatePayment(s, o, P.Dev, id, key);
      P.CreatedRow(s, o, P.Dev, id, key);
      var found := P.ByKey(s.payments, key);
      var i := if found.Some? then found.value else |s.payments|;
      CompletingTellsSame(t, i, t.payments[i].providerId, o, s.market.orders[o].totalCents, P.NoCrash, order);
    }
  }

  /** Carts, checkouts, expiries and other orders' statuses say nothing about this order's refunds. */
  lemma {:induction false} MarketTellsSame(m: O.Market, step: O.Step, order: Id)
    requires order < |m.orders| && !step.PayStep?
    requires step.StatusStep? ==> step.order != order
    ensures TellsSame(m, O.Next(m, step), order)
  {
    hide O.Inv.ReleaseOrder, O.RestockLines, CanTransition, O.OrdersFor, O.Inv.ExpireOne, O.AddItem;
    match step
    case CheckoutStep(cart, catalog, terms, now) =>
      OrderStockAppends(m, cart, catalog, terms, now);
    case AddItemStep(cart, product, quantity, sellable) => AddingKeepsOrders(m, cart, product, quantity, sellable);
    case _ =>
  }

  lemma {:induction false} AddingKeepsOrders(m: O.Market, cart: Id, product: Id, quantity: nat, sellable: bool)
    ensures O.AddItem(m, cart, product, quantity, sellable).orders == m.orders
  {
  }

  lemma {:induction false} OrderStockAppends(m: O.Market, cart: Id, catalog: O.Catalog, terms: Terms, now: Time)
    ensures var r := O.Checkout(m, cart, catalog, terms, now);
            r.Success? ==> |m.orders| <= |r.value.orders| && r.value.orders[..|m.orders|] == m.orders
                           && forall k :: |m.orders| <= k < |r.value.orders| ==>
                                r.value.orders[k].status.PendingPayment?
  {
    hide O.Checkout, O.OrdersFor;
    OrderStock.CheckoutAppends(m, cart, catalog, terms, now);
    NewOrdersPending(O.CartOf(m, cart), catalog, terms);
  }

  lemma {:induction false} NewOrdersPending(rows: seq<O.CartRow>, catalog: O.Catalog, terms: Terms)
    ensures forall k :: 0 <= k < |O.OrdersFor(rows, catalog, terms)| ==>
              O.OrdersFor(rows, catalog, terms)[k].status.PendingPayment?
  {
  }

  /** An actor's move starts from no refund status, and agrees with the refunds unless it ends in one. */
  lemma {:induction false} StatusAgreesExactly(s: State, role: Role, mayAct: bool, o: Id, to: OrderStatus, reason: bool)
    requires Agrees(s, o) && O.UpdateStatus(s.pay.market, role, mayAct, o, to, reason).Success?
    ensures var t := s.(pay := s.pay.(market := O.UpdateStatus(s.pay.market, role, mayAct, o, to, reason).value));
            Agrees(t, o) <==> !RefundedEither(to)
  {
    hide O.Inv.ReleaseOrder, O.RestockLines;
    var t := s.(pay := s.pay.(market := O.UpdateStatus(s.pay.market, role, mayAct, o, to, reason).value));
    TransitionsMoveForward(role, OrdersOf(s)[o].status, to);
    assert OrdersOf(t)[o] == OrdersOf(s)[o].(status := to);
    assert !RefundedEither(OrdersOf(s)[o].status);
    assert HasFull(t, o) == HasFull(s, o) && HasCompleted(t, o) == HasCompleted(s, o);
  }

  lemma {:induction false} DisputeAgreesExactly(s: State, event: Id, id: Option<Id>, crash: P.Crash, order: Id)
    requires Agrees(s, order) && order < |OrdersOf(s)|
    ensures var step := P.DeliverStep(event, P.DisputeOpened(id), crash);
            Agrees(s.(pay := P.Next(s.pay, step)), order) <==> !WritesAgainst(s, PayStep(step), order)
  {
    var step := P.DeliverStep(event, P.DisputeOpened(id), crash);
    var t := s.(pay := P.Next(s.pay, step));
    assert HasCompleted(t, order) == HasCompleted(s, order);
    if id.Some? {
      forall i: nat | i < |s.pay.payments|
        ensures P.Means(s.pay.payments, i, id, None) <==> P.ByIntent(s.pay.payments, id.value) == Some(i)
      {
        P.MeantById(s.pay.payments, i, id.value, None);
      }
    }
    assert HasFull(t, order) == HasFull(s, order);
  }

  lemma {:induction false} TellingAgrees(s: State, t: State, order: Id)
    requires order < |OrdersOf(s)| && TellsSame(s.pay.market, t.pay.market, order) && t.refunds == s.refunds
    ensures Agrees(t, order) <==> Agrees(s, order)
  {
    assert HasFull(t, order) == HasFull(s, order) && HasCompleted(t, order) == HasCompleted(s, order);
  }

  /** An order that is made in this step has no refund and no refund status. */
  lemma {:induction false} NewOrderAgrees(s: State, step: P.Step, order: Id)
    requires RInv(s) && order >= |OrdersOf(s)|
    ensures Agrees(s.(pay := P.Next(s.pay, step)), order)
  {
    hide P.PInv, Mirrored, P.Next, OrdersFair;
    var t := s.(pay := P.Next(s.pay, step));
    if order < |OrdersOf(t)| {
      StepMakesPending(s, step, order);
    }
    forall i | 0 <= i < |t.refunds| ensures t.refunds[i].order != order {
      assert RowGood(OrdersOf(s), s.refunds[i]);
    }
  }

  lemma {:induction false} StepMakesPending(s: State, step: P.Step, order: Id)
    requires RInv(s) && |OrdersOf(s)| <= order < |P.Next(s.pay, step).market.orders|
    ensures P.Next(s.pay, step).market.orders[order].status.PendingPayment?
  {
    hide P.Handle, P.DevConfirm, O.Inv.ReleaseOrder, O.RestockLines, CanTransition, O.Checkout, O.AddItem;
    Pay(s);
    P.StepMoves(s.pay, step);
    if step.MarketStep? && step.step.CheckoutStep? {
      OrderStockAppends(s.pay.market, step.step.cart, step.step.catalog, step.step.terms, step.step.now);
    } else if step.MarketStep? && step.step.AddItemStep? {
      AddingKeepsOrders(s.pay.market, step.step.cart, step.step.product, step.step.quantity,
          step.step.sellable);
    }
  }

  lemma {:induction false} Pay(s: State)
    requires RInv(s)
    ensures P.PInv(s.pay)
  {
  }

  lemma {:induction false} PayAgreesExactly(s: State, step: P.Step, order: Id)
    requires RInv(s) && Agrees(s, order)
    ensures Agrees(s.(pay := P.Next(s.pay, step)), order) <==> !WritesAgainst(s, PayStep(step), order)
  {
    if order >= |OrdersOf(s)| {
      NewOrderAgrees(s, step, order);
    } else if step.DeliverStep? && step.body.DisputeOpened? {
      DisputeAgreesExactly(s, step.event, step.body.intentId, step.crash, order);
    } else if step.MarketStep? && step.step.StatusStep? && step.step.order == order {
      ActorAgreesExactly(s, step, order);
    } else {
      OthersTellSame(s, step, order);
      TellingAgrees(s, s.(pay := P.Next(s.pay, step)), order);
    }
  }

  lemma {:induction false} ActorAgreesExactly(s: State, step: P.Step, order: Id)
    requires Agrees(s, order) && order < |OrdersOf(s)|
    requires step.MarketStep? && step.step.StatusStep? && step.step.order == order
    ensures Agrees(s.(pay := P.Next(s.pay, step)), order) <==> !WritesAgainst(s, PayStep(step), order)
  {
    hide O.UpdateStatus, Agrees;
    var st := step.step;
    if O.UpdateStatus(s.pay.market, st.role, st.mayAct, order, st.to, st.reasonGiven).Success? {
      StatusAgreesExactly(s, st.role, st.mayAct, order, st.to, st.reasonGiven);
    }
  }

  lemma {:induction false} OthersTellSame(s: State, step: P.Step, order: Id)
    requires order < |OrdersOf(s)|
    requires step.DeliverStep? ==> !step.body.DisputeOpened?
    requires step.MarketStep? && step.step.StatusStep? ==> step.step.order != order
    ensures TellsSame(s.pay.market, P.Next(s.pay, step).market, order)
    ensures !WritesAgainst(s, PayStep(step), order)
  {
    hide P.Deliver, P.DevConfirm, O.Next, P.CreatePayment, O.UpdateStatus;
    match step
    case CreateStep(o, provider, id, key) => CreatingKeepsMarket(s.pay, o, provider, id, key);
    case DeliverStep(event, body, crash) => DeliveryTellsSame(s.pay, event, body, crash, order);
    case DevConfirmStep(o, id, key) => DevConfirmTellsSame(s.pay, o, id, key, order);
    case MarketStep(st) =>
      if !st.PayStep? {
        MarketTellsSame(s.pay.market, st, order);
      }
    case OtherPostStep(op) =>
  }

  lemma {:induction false} CreatingKeepsMarket(s: P.State, o: Id, provider: P.Provider, id: Id, key: Id)
    ensures P.CreatePayment(s, o, provider, id, key).market == s.market
  {
  }

  // ------------------------------------------------------- steps on the refunds

  /** Requests, decisions and provider requests complete nothing and leave every order as it is. */
  lemma {:induction false} DecidingAgrees(s: State, step: Step, order: Id)
    requires Agrees(s, order) && !step.PayStep? && !step.ConfirmStep?
    ensures Agrees(Next(s, step), order)
  {
    hide PaidBase, OpenSum, HasStripePayment;
    var t := Next(s, step);
    assert t.pay == s.pay;
    forall i | 0 <= i < |t.refunds| && t.refunds[i].status.Completed?
      ensures i < |s.refunds| && s.refunds[i] == t.refunds[i]
    {
    }
    forall i | 0 <= i < |s.refunds| && s.refunds[i].status.Completed? ensures t.refunds[i] == s.refunds[i] {
    }
    hide Next;
    SameCompleted(s, t, order);
  }

  lemma {:induction false} SameCompleted(s: State, t: State, order: Id)
    requires OrdersOf(t) == OrdersOf(s) && Agrees(s, order)
    requires forall i :: 0 <= i < |t.refunds| && t.refunds[i].status.Completed? ==>
               i < |s.refunds| && s.refunds[i] == t.refunds[i]
    requires forall i :: 0 <= i < |s.refunds| && s.refunds[i].status.Completed? ==>
               i < |t.refunds| && t.refunds[i] == s.refunds[i]
    ensures Agrees(t, order)
  {
    if HasCompleted(s, order) {
      var i :| 0 <= i < |s.refunds| && s.refunds[i].order == order && s.refunds[i].status.Completed?;
      assert t.refunds[i].order == order;
    }
    if order < |OrdersOf(s)| && HasFull(s, order) {
      var i :| 0 <= i < |s.refunds| && s.refunds[i].order == order && s.refunds[i].status.Completed?
               && s.refunds[i].amountCents >= OrdersOf(s)[order].totalCents;
      assert t.refunds[i].order == order;
    }
  }

  /** A completed refund takes its order to the status that agrees with it. */
  lemma {:induction false} CompletionAgrees(s: State, id: nat, c: Confirmation, order: Id)
    requires Agrees(s, order) && id < |s.refunds|
    ensures Agrees(Complete(s, id, c), order)
  {
    hide P.L.Post, RefundTxFor, IdTaken;
    var t := Complete(s, id, c);
    if t != s && order < |OrdersOf(s)| {
      forall i | 0 <= i < |s.refunds| && i != id ensures t.refunds[i] == s.refunds[i] {
      }
      var r := t.refunds[id];
      assert r.status.Completed? && !s.refunds[id].status.Completed?;
      assert HasCompleted(t, order) <==> HasCompleted(s, order) || r.order == order by {
        MoreCompleted(s, t, id, order);
      }
      assert HasFull(t, order) <==> HasFull(s, order)
                                    || (r.order == order && r.amountCents >= OrdersOf(s)[order].totalCents) by {
        MoreCompleted(s, t, id, order);
      }
    }
  }

  lemma {:induction false} MoreCompleted(s: State, t: State, id: nat, order: Id)
    requires |t.refunds| == |s.refunds| && id < |t.refunds| && order < |OrdersOf(s)| == |OrdersOf(t)|
    requires OrdersOf(t)[order].totalCents == OrdersOf(s)[order].totalCents
    requires forall i :: 0 <= i < |s.refunds| && i != id ==> t.refunds[i] == s.refunds[i]
    requires t.refunds[id].status.Completed? && !s.refunds[id].status.Completed?
    ensures HasCompleted(t, order) <==> HasCompleted(s, order) || t.refunds[id].order == order
    ensures HasFull(t, order) <==> HasFull(s, order) || (t.refunds[id].order == order
                                                         && t.refunds[id].amountCents >= OrdersOf(s)[order].totalCents)
  {
    if HasCompleted(s, order) {
      var i :| 0 <= i < |s.refunds| && s.refunds[i].order == order && s.refunds[i].status.Completed?;
      assert t.refunds[i] == s.refunds[i];
    }
    if HasFull(s, order) {
      var i :| 0 <= i < |s.refunds| && s.refunds[i].order == order && s.refunds[i].status.Completed?
               && s.refunds[i].amountCents >= OrdersOf(s)[order].totalCents;
      assert t.refunds[i] == s.refunds[i];
    }
  }

  lemma {:induction false} ConfirmingAgrees(s: State, c: Confirmation, order: Id)
    requires Agrees(s, order)
    ensures Agrees(Confirm(s, c), order)
  {
    hide Complete, Agrees;
    var found := Lookup(s.refunds, c);
    if found.Some? {
      CompletionAgrees(s, found.value, c, order);
    } else if c.order.Some? && c.stripeId.Some? && c.order.value < |OrdersOf(s)| {
      var row := RefundRow(c.order.value, if c.amountCents.Some? then c.amountCents.value else 0,
          ProviderRequested, c.stripeId);
      var t := s.(refunds := s.refunds + [row]);
      NewRowAgrees(s, row, order);
      CompletionAgrees(t, |s.refunds|, c, order);
    }
  }

  lemma {:induction false} NewRowAgrees(s: State, row: RefundRow, order: Id)
    requires Agrees(s, order) && !row.status.Completed?
    ensures Agrees(s.(refunds := s.refunds + [row]), order)
  {
    SameCompleted(s, s.(refunds := s.refunds + [row]), order);
  }

  // -------------------------------------------------------------------- runs

  /** A step keeps status and refunds in agreement exactly when it does not write a status against them. */
  lemma {:induction false} StepAgreesExactly(s: State, step: Step, order: Id)
    requires RInv(s) && Agrees(s, order)
    ensures Agrees(Next(s, step), order) <==> !WritesAgainst(s, step, order)
  {
    hide RInv, Agrees, P.Next, Confirm, WritesAgainst;
    match step
    case PayStep(st) =>
      if st.OtherPostStep? && st.op.PostRefund? {
        NothingWritten(s, st, order);
      } else {
        PayAgreesExactly(s, st, order);
      }
    case ConfirmStep(c) =>
      ConfirmingAgrees(s, c, order);
      OnlyPaySteps(s, step, order);
    case _ =>
      DecidingAgrees(s, step, order);
      OnlyPaySteps(s, step, order);
  }

  lemma {:induction false} NothingWritten(s: State, step: P.Step, order: Id)
    requires step.OtherPostStep?
    ensures !WritesAgainst(s, PayStep(step), order)
  {
  }

  lemma {:induction false} OnlyPaySteps(s: State, step: Step, order: Id)
    requires !step.PayStep?
    ensures !WritesAgainst(s, step, order)
  {
  }

  /** No step of the run writes a status against the order's refunds. */
  predicate Undisturbed(s: State, steps: seq<Step>, order: Id) {
    |steps| == 0 ||
    var n := |steps| - 1;
    Undisturbed(s, steps[..n], order) && !WritesAgainst(Run(s, steps[..n]), steps[n], order)
  }

  lemma {:induction false} RunAgrees(s: State, steps: seq<Step>, order: Id)
    requires Start(s) && Undisturbed(s, steps, order)
    ensures Agrees(Run(s, steps), order)
  {
    hide Next, WritesAgainst, RInv;
    if |steps| == 0 {
    } else {
      var n := |steps| - 1;
      RunAgrees(s, steps[..n], order);
      RefundRuns.RunKeeps(s, steps[..n]);
      StepAgreesExactly(Run(s, steps[..n]), steps[n], order);
    }
  }

  /**
   * Over every run in which no actor writes a refund status by hand and no dispute overwrites one, an order is
   * REFUNDED exactly when one completed refund of it covers its total, and PARTIALLY_REFUNDED exactly when it has
   * completed refunds and none does, whatever they add up to.
   */
  lemma {:induction false} StatusTellsRefunds(s: State, steps: seq<Step>, order: Id)
    requires Start(s) && Undisturbed(s, steps, order) && order < |OrdersOf(Run(s, steps))|
    ensures var t := Run(s, steps);
            var o := OrdersOf(t)[order];
            && (o.status.Refunded? <==>
                  exists i :: 0 <= i < |t.refunds| && t.refunds[i].order == order && t.refunds[i].status.Completed?
                              && t.refunds[i].amountCents >= o.totalCents)
            && (o.status.PartiallyRefunded? <==>
                  && (exists i :: 0 <= i < |t.refunds| && t.refunds[i].order == order && t.refunds[i].status.Completed?)
                  && (forall i :: 0 <= i < |t.refunds| && t.refunds[i].order == order && t.refunds[i].status.Completed?
                        ==> t.refunds[i].amountCents < o.totalCents))
  {
    RunAgrees(s, steps, order);
  }

  /** And in no other: status and refunds agree all along a run exactly when nothing writes against them. */
  lemma {:induction false} StatusTellsRefundsExactly(s: State, steps: seq<Step>, order: Id)
    requires Start(s)
    ensures Undisturbed(s, steps, order) <==> forall n: nat :: n <= |steps| ==> Agrees(Run(s, steps[..n]), order)
  {
    hide Next, WritesAgainst, Agrees, RInv;
    if |steps| == 0 {
      RunAgrees(s, steps, order);
      assert steps[..0] == steps;
    } else {
      var last := |steps| - 1;
      var before := steps[..last];
      StatusTellsRefundsExactly(s, before, order);
      forall n: nat | n <= last ensures steps[..n] == before[..n] {
      }
      assert steps[..|steps|] == steps;
      if Undisturbed(s, before, order) {
        RunAgrees(s, before, order);
        RefundRuns.RunKeeps(s, before);
        StepAgreesExactly(Run(s, before), steps[last], order);
      }
    }
  }
}
