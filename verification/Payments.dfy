/**
 * Payment webhooks: deliveries may be repeated, reordered, retried after a crash, or arrive for
 * several payments of one order; their effect on orders, stock and ledger happens once.
 */
module Payments {
  import opened Common
  import opened Sums
  import opened OrderMachine
  import opened CartSplit
  import opened Orders
  import L = Ledger
  import Inv = Inventory

  datatype Provider = Stripe | Dev

  datatype PaymentStatus = Pending | Succeeded | Failed

  /** A payment row; identified by its position, rows in creation order. */
  datatype PaymentRow = PaymentRow(order: Id, provider: Provider, providerId: Id, status: PaymentStatus,
      amountCents: int, idempotencyKey: Id)

  datatype EventStatus = Received | Processed | Ignored | EventFailed

  datatype State = State(market: Market, payments: seq<PaymentRow>, events: map<Id, EventStatus>, book: L.Book)

  /** The parts of a payment intent the handlers look at. */
  datatype Intent = Intent(providerId: Id, metaOrder: Option<Id>, amountReceived: Option<int>, currencyMatches: bool)

  datatype EventBody =
    | IntentSucceeded(intent: Intent)
    | IntentFailed(intentId: Option<Id>, failedOrder: Option<Id>)
    | DisputeOpened(intentId: Option<Id>)
    | Unhandled

  /** Where the handling of one delivery breaks off, if it does; a ledger that is down does not stop it. */
  datatype Crash = NoCrash | BeforeHandling | AfterMarkPaid | LedgerDown | BeforeEventUpdate

  // ---------------------------------------------------------------- lookups

  predicate IsIntent(p: PaymentRow, providerId: Id) {
    p.provider.Stripe? && p.providerId == providerId
  }

  predicate IsOpenFor(p: PaymentRow, order: Id) {
    p.provider.Stripe? && p.order == order && p.status.Pending?
  }

  /** The first Stripe row with this provider id. */
  function ByIntent(payments: seq<PaymentRow>, providerId: Id): (r: Option<nat>)
    ensures r.Some? ==> r.value < |payments| && IsIntent(payments[r.value], providerId)
                        && forall i :: 0 <= i < r.value ==> !IsIntent(payments[i], providerId)
    ensures r.None? ==> forall i :: 0 <= i < |payments| ==> !IsIntent(payments[i], providerId)
  {
    if |payments| == 0 then None
    else
      var earlier := ByIntent(payments[..|payments| - 1], providerId);
      if earlier.Some? then earlier
      else if IsIntent(payments[|payments| - 1], providerId) then Some(|payments| - 1)
      else None
  }

  /** The newest PENDING Stripe row of an order. */
  function NewestOpen(payments: seq<PaymentRow>, order: Id): (r: Option<nat>)
    ensures r.Some? ==> r.value < |payments| && IsOpenFor(payments[r.value], order)
                        && forall i :: r.value < i < |payments| ==> !IsOpenFor(payments[i], order)
    ensures r.None? ==> forall i :: 0 <= i < |payments| ==> !IsOpenFor(payments[i], order)
  {
    if |payments| == 0 then None
    else if IsOpenFor(payments[|payments| - 1], order) then Some(|payments| - 1)
    else NewestOpen(payments[..|payments| - 1], order)
  }

  function FindPayment(payments: seq<PaymentRow>, intent: Intent): (r: Option<nat>)
    ensures r.Some? ==> r.value < |payments|
  {
    var direct := ByIntent(payments, intent.providerId);
    if direct.None? && intent.metaOrder.Some? then NewestOpen(payments, intent.metaOrder.value) else direct
  }

  function ByKey(payments: seq<PaymentRow>, key: Id): (r: Option<nat>)
    ensures r.Some? ==> r.value < |payments| && payments[r.value].idempotencyKey == key
                        && forall i :: r.value < i < |payments| ==> payments[i].idempotencyKey != key
    ensures r.None? ==> forall i :: 0 <= i < |payments| ==> payments[i].idempotencyKey != key
  {
    if |payments| == 0 then None
    else if payments[|payments| - 1].idempotencyKey == key then Some(|payments| - 1)
    else ByKey(payments[..|payments| - 1], key)
  }

  // ------------------------------------------------------------- operations

  function SetPayment(s: State, i: nat, status: PaymentStatus): State
    requires i < |s.payments|
  {
    s.(payments := s.payments[i := s.payments[i].(status := status)])
  }

  /** `createPaymentIntent`: a PENDING row for the order's total, once per idempotency key. */
  function CreatePayment(s: State, order: Id, provider: Provider, providerId: Id, key: Id): State {
    if order >= |s.market.orders| || !s.market.orders[order].status.PendingPayment?
        || ByKey(s.payments, key).Some? then s
    else s.(payments := s.payments
        + [PaymentRow(order, provider, providerId, Pending, s.market.orders[order].totalCents, key)])
  }

  /** `completePayment` for a row that was found: pay the order, settle the row, post to the ledger. */
  function CompletePayment(s: State, i: nat, providerId: Id, order: Id, expectedCents: int, crash: Crash): State
    requires i < |s.payments|
  {
    var p := s.payments[i];
    if p.status.Succeeded? then s
    else if p.amountCents != expectedCents || p.order != order then SetPayment(s, i, Failed)
    else
      match MarkPaid(s.market, p.order)
      case Failure(_) => SetPayment(s, i, Failed)
      case Success(market) =>
        var paid := s.(market := market);
        if crash.AfterMarkPaid? || p.order >= |market.orders| then paid
        else
          var done := paid.(payments := s.payments[i := p.(status := Succeeded, providerId := providerId)]);
          if crash.LedgerDown? then done
          else
            var o := market.orders[p.order];
            done.(book := L.Post(s.book, L.PaymentTx(p.order, o.totalCents, o.commissionCents, o.shop)))
  }

  /** `completeStripeSucceeded`: every recorded figure must match before the order is paid. */
  function HandleSucceeded(s: State, intent: Intent, crash: Crash): State {
    var found := FindPayment(s.payments, intent);
    if found.None? then s
    else
      var i := found.value;
      var p := s.payments[i];
      if p.status.Succeeded? then s
      else if intent.metaOrder != Some(p.order)
           || intent.amountReceived != Some(p.amountCents)
           || !intent.currencyMatches
           || p.order >= |s.market.orders|
           || s.market.orders[p.order].totalCents != p.amountCents then SetPayment(s, i, Failed)
      else CompletePayment(s, i, intent.providerId, p.order, p.amountCents, crash)
  }

  /** `handlePaymentIntentFailed`: only a PENDING row becomes FAILED. */
  function HandleFailed(s: State, intentId: Option<Id>, order: Option<Id>): State {
    var found := if intentId.Some? then ByIntent(s.payments, intentId.value)
                 else if order.Some? then NewestOpen(s.payments, order.value)
                 else None;
    if found.Some? && s.payments[found.value].status.Pending? then SetPayment(s, found.value, Failed) else s
  }

  /** `handleStripeDispute`: the order of the disputed payment becomes DISPUTED, whatever it was. */
  function HandleDispute(s: State, intentId: Option<Id>): State {
    var found := if intentId.Some? then ByIntent(s.payments, intentId.value) else None;
    if found.Some? then s.(market := Overwrite(s.market, s.payments[found.value].order, Disputed)) else s
  }

  function Handle(s: State, body: EventBody, crash: Crash): State {
    match body
    case IntentSucceeded(intent) => HandleSucceeded(s, intent, crash)
    case IntentFailed(id, order) => HandleFailed(s, id, order)
    case DisputeOpened(id) => HandleDispute(s, id)
    case Unhandled => s
  }

  function EventOutcome(body: EventBody, crash: Crash): EventStatus {
    if crash.BeforeHandling? || crash.AfterMarkPaid? || crash.BeforeEventUpdate? then EventFailed
    else if body.Unhandled? then Ignored
    else Processed
  }

  predicate AlreadyHandled(s: State, event: Id) {
    event in s.events && (s.events[event].Processed? || s.events[event].Ignored?)
  }

  /** `processVerifiedStripeEvent`: one delivery of one event. */
  function Deliver(s: State, event: Id, body: EventBody, crash: Crash): State {
    if AlreadyHandled(s, event) then s
    else
      var t := if crash.BeforeHandling? then s else Handle(s, body, crash);
      t.(events := s.events[event := EventOutcome(body, crash)])
  }

  datatype Step =
    | CreateStep(order: Id, provider: Provider, providerId: Id, key: Id)
    | DeliverStep(event: Id, body: EventBody, crash: Crash)
    | DevConfirmStep(order: Id, providerId: Id, key: Id)
    | MarketStep(step: Orders.Step)      // carts, checkouts, status changes, expiries
    | OtherPostStep(op: L.Op)            // refunds and payouts

  /** `devConfirm`: find or create the development payment of the key, and complete it. */
  function DevConfirm(s: State, order: Id, freshId: Id, key: Id): State {
    if order >= |s.market.orders| || !s.market.orders[order].status.PendingPayment? then s
    else
      var found := ByKey(s.payments, key);
      var t := CreatePayment(s, order, Dev, freshId, key);
      var i := if found.Some? then found.value else |s.payments|;
      CompletePayment(t, i, t.payments[i].providerId, order, s.market.orders[order].totalCents, NoCrash)
  }

  function Next(s: State, step: Step): State {
    match step
    case CreateStep(order, provider, id, key) => CreatePayment(s, order, provider, id, key)
    case DeliverStep(event, body, crash) => Deliver(s, event, body, crash)
    case DevConfirmStep(order, id, key) => DevConfirm(s, order, id, key)
    case MarketStep(st) => if st.PayStep? then s else s.(market := Orders.Next(s.market, st))
    case OtherPostStep(op) => if op.PostPayment? then s else s.(book := L.Post(s.book, L.TxOf(op)))
  }

  function Run(s: State, steps: seq<Step>): State {
    if |steps| == 0 then s else Next(Run(s, steps[..|steps| - 1]), steps[|steps| - 1])
  }

  /** A market without orders, and nothing else yet. */
  predicate Start(s: State) {
    s.market.orders == [] && s.market.history == [] && s.payments == [] && s.events == map[] && s.book == []
  }

  // -------------------------------------------------------------- invariant

  /** Rows of the status history that say the order became PAID; each is written with one stock confirmation. */
  function BecamePaid(order: Id): HistoryRow -> int {
    (h: HistoryRow) => if h.order == order && h.to.Paid? then 1 else 0
  }

  function TimesPaid(m: Market, order: Id): int {
    Sum(m.history, BecamePaid(order))
  }

  function PaymentKey(order: Id): L.Key {
    L.Key(L.Payment, L.OrderRef, order)
  }

  /** A posted payment is for a paid order, and for exactly its total. */
  predicate PostedRight(m: Market, t: L.Transaction) {
    t.key.kind.Payment? ==>
      && t.key.reference.OrderRef? && t.key.id < |m.orders|
      && TimesPaid(m, t.key.id) == 1
      && var o := m.orders[t.key.id];
         t == L.PaymentTx(t.key.id, o.totalCents, o.commissionCents, o.shop)
  }

  predicate HistoryGood(m: Market) {
    && (forall o :: 0 <= o < |m.orders| ==>
         0 <= TimesPaid(m, o) <= 1 && (m.orders[o].status.PendingPayment? ==> TimesPaid(m, o) == 0)
                                            && (m.orders[o].status.Paid? ==> TimesPaid(m, o) == 1))
    && (forall i :: 0 <= i < |m.history| ==> m.history[i].order < |m.orders|)
  }

  predicate PaymentGood(m: Market, p: PaymentRow) {
    p.order < |m.orders| && p.amountCents == m.orders[p.order].totalCents
        && (p.status.Succeeded? ==> TimesPaid(m, p.order) == 1)
  }

  predicate BookGood(m: Market, book: L.Book) {
    L.KeysUnique(book) && forall i :: 0 <= i < |book| ==> PostedRight(m, book[i])
  }

  predicate PInv(s: State) {
    && HistoryGood(s.market)
    && (forall i :: 0 <= i < |s.payments| ==> PaymentGood(s.market, s.payments[i]))
    && BookGood(s.market, s.book)
  }

  /** What any market step may do: keep each order's figures, add orders, and add history that pays nobody anew. */
  ghost predicate Grows(m: Market, t: Market) {
    && |m.orders| <= |t.orders|
    && (forall o :: 0 <= o < |m.orders| ==> t.orders[o] == m.orders[o].(status := t.orders[o].status))
    && (forall o :: 0 <= o < |m.orders| && TimesPaid(m, o) == 1 ==> TimesPaid(t, o) == 1)
  }

  lemma {:induction false} GrowthKeepsRows(s: State, t: Market)
    requires PInv(s) && Grows(s.market, t) && HistoryGood(t)
    ensures PInv(s.(market := t))
  {
    forall i | 0 <= i < |s.payments| ensures PaymentGood(t, s.payments[i]) {
      assert PaymentGood(s.market, s.payments[i]);
    }
    forall i | 0 <= i < |s.book| ensures PostedRight(t, s.book[i]) {
      assert PostedRight(s.market, s.book[i]);
    }
  }

  lemma {:induction false} HistoryAppend(m: Market, t: Market, h: HistoryRow)
    requires t.history == m.history + [h]
    ensures forall o :: TimesPaid(t, o) == TimesPaid(m, o) + (if h.order == o && h.to.Paid? then 1 else 0)
  {
    forall o ensures TimesPaid(t, o) == TimesPaid(m, o) + (if h.order == o && h.to.Paid? then 1 else 0) {
      SumAppend(m.history, h, BecamePaid(o));
    }
  }

  /** A new order has no history of payment. */
  lemma {:induction false} NewOrderUnpaid(m: Market, o: Id)
    requires HistoryGood(m) && o >= |m.orders|
    ensures TimesPaid(m, o) == 0
  {
    SumZero(m.history, BecamePaid(o));
  }

  lemma {:induction false} PlacingGrows(m: Market, order: Order, now: Time)
    requires HistoryGood(m) && order.status.PendingPayment?
    requires PlaceOrder(m, order, now).Success?
    ensures Grows(m, PlaceOrder(m, order, now).value) && HistoryGood(PlaceOrder(m, order, now).value)
  {
    var t := PlaceOrder(m, order, now).value;
    HistoryAppend(m, t, HistoryRow(|m.orders|, None, PendingPayment));
    NewOrderUnpaid(m, |m.orders|);
  }

  lemma {:induction false} GrowsTransitive(m: Market, t: Market, u: Market)
    requires Grows(m, t) && Grows(t, u)
    ensures Grows(m, u)
  {
  }

  lemma {:induction false} PlacingAllGrows(m: Market, orders: seq<Order>, now: Time)
    requires HistoryGood(m) && forall k :: 0 <= k < |orders| ==> orders[k].status.PendingPayment?
    requires PlaceOrders(m, orders, now).Success?
    ensures Grows(m, PlaceOrders(m, orders, now).value) && HistoryGood(PlaceOrders(m, orders, now).value)
  {
    hide PlaceOrder, HistoryGood;
    if |orders| == 0 {
    } else {
      var n := |orders| - 1;
      PlacingAllGrows(m, orders[..n], now);
      var mid := PlaceOrders(m, orders[..n], now).value;
      PlacingGrows(mid, orders[n], now);
      GrowsTransitive(m, mid, PlaceOrders(m, orders, now).value);
    }
  }

  lemma {:induction false} StatusGrows(m: Market, t: Market, order: Id, to: OrderStatus)
    requires HistoryGood(m) && order < |m.orders| && !to.PendingPayment?
    requires to.Paid? <==> m.orders[order].status.PendingPayment? && to.Paid?
    requires t.orders == m.orders[order := m.orders[order].(status := to)]
    requires t.history == m.history + [HistoryRow(order, Some(m.orders[order].status), to)]
    ensures Grows(m, t) && HistoryGood(t)
    ensures to.Paid? ==> TimesPaid(t, order) == 1
  {
    HistoryAppend(m, t, HistoryRow(order, Some(m.orders[order].status), to));
  }

  lemma {:induction false} MarketStepGrows(m: Market, step: Orders.Step)
    requires HistoryGood(m) && !step.PayStep?
    ensures Grows(m, Orders.Next(m, step)) && HistoryGood(Orders.Next(m, step))
  {
    match step
    case AddItemStep(cart, product, quantity, sellable) => SameHistory(m, Orders.Next(m, step));
    case ExpireStep(i) => SameHistory(m, Orders.Next(m, step));
    case StatusStep(role, mayAct, order, to, reason) =>
      if UpdateStatus(m, role, mayAct, order, to, reason).Success? {
        TransitionsMoveForward(role, m.orders[order].status, to);
        StatusGrows(m, Orders.Next(m, step), order, to);
      }
    case CheckoutStep(cart, catalog, terms, now) => CheckoutGrows(m, cart, catalog, terms, now);
  }

  lemma {:induction false} SameHistory(m: Market, t: Market)
    requires HistoryGood(m) && t.orders == m.orders && t.history == m.history
    ensures Grows(m, t) && HistoryGood(t)
  {
    assert forall o :: TimesPaid(t, o) == TimesPaid(m, o);
  }

  lemma {:induction false} CheckoutGrows(m: Market, cart: Id, catalog: Catalog, terms: Terms, now: Time)
    requires HistoryGood(m)
    ensures var t := Orders.Next(m, CheckoutStep(cart, catalog, terms, now)); Grows(m, t) && HistoryGood(t)
  {
    hide HistoryGood;
    var orders := OrdersFor(CartOf(m, cart), catalog, terms);
    if Checkout(m, cart, catalog, terms, now).Success? {
      var t := PlaceOrders(m, orders, now).value;
      PlacingAllGrows(m, orders, now);
      SameHistory(t, t.(carts := t.carts[cart := []]));
      GrowsTransitive(m, t, t.(carts := t.carts[cart := []]));
    } else {
      SameHistory(m, m);
    }
  }

  // --------------------------------------------------------- single deliveries

  /** Paying an order: its history says PAID exactly once afterwards, however often it is asked. */
  lemma {:induction false} MarkPaidGrows(m: Market, order: Id)
    requires HistoryGood(m) && MarkPaid(m, order).Success?
    ensures var t := MarkPaid(m, order).value;
            Grows(m, t) && HistoryGood(t) && order < |t.orders| == |m.orders| && TimesPaid(t, order) == 1
                && t.orders[order].status.Paid?
  {
    var t := MarkPaid(m, order).value;
    if m.orders[order].status.PendingPayment? {
      StatusGrows(m, t, order, Paid);
    } else {
      SameHistory(m, t);
    }
  }

  lemma {:induction false} SetPaymentKeeps(s: State, i: nat, row: PaymentRow)
    requires PInv(s) && i < |s.payments| && PaymentGood(s.market, row)
    ensures PInv(s.(payments := s.payments[i := row]))
  {
  }

  lemma {:induction false} PostPaymentKeeps(s: State, order: Id)
    requires PInv(s) && order < |s.market.orders| && TimesPaid(s.market, order) == 1
    ensures var o := s.market.orders[order];
            PInv(s.(book := L.Post(s.book, L.PaymentTx(order, o.totalCents, o.commissionCents, o.shop))))
  {
    var o := s.market.orders[order];
    L.PostKeepsKeysUnique(s.book, L.PaymentTx(order, o.totalCents, o.commissionCents, o.shop));
  }

  lemma {:induction false} CompletePaymentKeeps(s: State, i: nat, providerId: Id, order: Id,
      expectedCents: int, crash: Crash)
    requires PInv(s) && i < |s.payments|
    ensures PInv(CompletePayment(s, i, providerId, order, expectedCents, crash))
  {
    var p := s.payments[i];
    assert PaymentGood(s.market, p);
    if p.status.Succeeded? {
    } else if p.amountCents != expectedCents || p.order != order {
      SetPaymentKeeps(s, i, p.(status := Failed));
    } else {
      var r := MarkPaid(s.market, p.order);
      if r.Failure? {
        SetPaymentKeeps(s, i, p.(status := Failed));
      } else {
        MarkPaidGrows(s.market, p.order);
        GrowthKeepsRows(s, r.value);
        var paid := s.(market := r.value);
        SetPaymentKeeps(paid, i, p.(status := Succeeded, providerId := providerId));
        PostPaymentKeeps(paid.(payments := s.payments[i := p.(status := Succeeded, providerId := providerId)]),
            p.order);
      }
    }
  }

  lemma {:induction false} HandleKeeps(s: State, body: EventBody, crash: Crash)
    requires PInv(s)
    ensures PInv(Handle(s, body, crash))
  {
    hide HistoryGood, BookGood, MarkPaid;
    match body
    case IntentSucceeded(intent) =>
      var found := FindPayment(s.payments, intent);
      if found.Some? {
        assert PaymentGood(s.market, s.payments[found.value]);
        CompletePaymentKeeps(s, found.value, intent.providerId, s.payments[found.value].order,
            s.payments[found.value].amountCents, crash);
        SetPaymentKeeps(s, found.value, s.payments[found.value].(status := Failed));
      }
    case IntentFailed(id, order) =>
      var found := if id.Some? then ByIntent(s.payments, id.value) else if order.Some?
          then NewestOpen(s.payments, order.value) else None;
      if found.Some? {
        assert PaymentGood(s.market, s.payments[found.value]);
        SetPaymentKeeps(s, found.value, s.payments[found.value].(status := Failed));
      }
    case DisputeOpened(id) =>
      if id.Some? && ByIntent(s.payments, id.value).Some? {
        OverwriteKeeps(s, s.payments[ByIntent(s.payments, id.value).value].order, Disputed);
      }
    case Unhandled =>
  }

  lemma {:induction false} OverwriteGrows(m: Market, order: Id, status: OrderStatus)
    requires HistoryGood(m) && !status.PendingPayment? && !status.Paid?
    ensures Grows(m, Overwrite(m, order, status)) && HistoryGood(Overwrite(m, order, status))
  {
    assert forall o :: TimesPaid(Overwrite(m, order, status), o) == TimesPaid(m, o);
  }

  lemma {:induction false} OverwriteKeeps(s: State, order: Id, status: OrderStatus)
    requires PInv(s) && !status.PendingPayment? && !status.Paid?
    ensures PInv(s.(market := Overwrite(s.market, order, status)))
  {
    OverwriteGrows(s.market, order, status);
    GrowthKeepsRows(s, Overwrite(s.market, order, status));
  }

  lemma {:induction false} OtherPostKeeps(s: State, op: L.Op)
    requires PInv(s) && !op.PostPayment?
    ensures PInv(s.(book := L.Post(s.book, L.TxOf(op))))
  {
    L.PostKeepsKeysUnique(s.book, L.TxOf(op));
  }

  lemma {:induction false} EventsDoNotMatter(s: State, events: map<Id, EventStatus>)
    requires PInv(s)
    ensures PInv(s.(events := events))
  {
  }

  lemma {:induction false} CreateKeeps(s: State, order: Id, provider: Provider, providerId: Id, key: Id)
    requires PInv(s)
    ensures PInv(CreatePayment(s, order, provider, providerId, key))
  {
  }

  lemma {:induction false} CreatedRow(s: State, order: Id, provider: Provider, providerId: Id, key: Id)
    requires order < |s.market.orders| && s.market.orders[order].status.PendingPayment?
    ensures var t := CreatePayment(s, order, provider, providerId, key);
            var found := ByKey(s.payments, key);
            |t.payments| == |s.payments| + (if found.Some? then 0 else 1) && t.market == s.market
  {
  }

  lemma {:induction false} DevConfirmKeeps(s: State, order: Id, freshId: Id, key: Id)
    requires PInv(s)
    ensures PInv(DevConfirm(s, order, freshId, key))
  {
    hide PInv, CompletePayment, CreatePayment;
    if order < |s.market.orders| && s.market.orders[order].status.PendingPayment? {
      var t := CreatePayment(s, order, Dev, freshId, key);
      CreateKeeps(s, order, Dev, freshId, key);
      CreatedRow(s, order, Dev, freshId, key);
      var found := ByKey(s.payments, key);
      var i := if found.Some? then found.value else |s.payments|;
      CompletePaymentKeeps(t, i, t.payments[i].providerId, order, s.market.orders[order].totalCents, NoCrash);
    }
  }

  lemma {:induction false} StepKeepsInv(s: State, step: Step)
    requires PInv(s)
    ensures PInv(Next(s, step))
  {
    hide PInv, CompletePayment, CreatePayment, Handle;
    match step
    case CreateStep(order, provider, id, key) => CreateKeeps(s, order, provider, id, key);
    case DeliverStep(event, body, crash) =>
      HandleKeeps(s, body, crash);
      var t := if crash.BeforeHandling? then s else Handle(s, body, crash);
      EventsDoNotMatter(t, s.events[event := EventOutcome(body, crash)]);
    case DevConfirmStep(order, id, key) => DevConfirmKeeps(s, order, id, key);
    case MarketStep(st) => MarketKeeps(s, st);
    case OtherPostStep(op) =>
      if !op.PostPayment? {
        OtherPostKeeps(s, op);
      }
  }

  lemma {:induction false} MarketKeeps(s: State, step: Orders.Step)
    requires PInv(s)
    ensures PInv(Next(s, MarketStep(step)))
  {
    if !step.PayStep? {
      MarketStepGrows(s.market, step);
      GrowthKeepsRows(s, Orders.Next(s.market, step));
    }
  }

  lemma {:induction false} RunKeepsInv(s: State, steps: seq<Step>)
    requires Start(s)
    ensures PInv(Run(s, steps))
  {
    hide PInv;
    if |steps| > 0 {
      RunKeepsInv(s, steps[..|steps| - 1]);
      StepKeepsInv(Run(s, steps[..|steps| - 1]), steps[|steps| - 1]);
    } else {
      StartGood(s);
    }
  }

  lemma {:induction false} StartGood(s: State)
    requires Start(s)
    ensures PInv(s)
  {
  }

  /**
   * From `s` to `t` stock stands still and nobody becomes PAID, or one order does for the first time and its
   * stock is confirmed.
   */
  ghost predicate StockMovesWithPaid(s: Market, t: Market) {
    || (t.inv == s.inv && forall o: Id :: TimesPaid(t, o) == TimesPaid(s, o))
    || exists o: Id ::
         && TimesPaid(s, o) == 0 && TimesPaid(t, o) == 1 && Inv.Confirm(s.inv, o) == Success(t.inv)
         && forall p: Id :: p != o ==> TimesPaid(t, p) == TimesPaid(s, p)
  }

  lemma {:induction false} MarkPaidStock(m: Market, order: Id)
    requires HistoryGood(m) && MarkPaid(m, order).Success?
    ensures StockMovesWithPaid(m, MarkPaid(m, order).value)
  {
    hide Inv.Confirm;
    var t := MarkPaid(m, order).value;
    if m.orders[order].status.PendingPayment? {
      HistoryAppend(m, t, HistoryRow(order, Some(PendingPayment), Paid));
      assert TimesPaid(m, order) == 0 && TimesPaid(t, order) == 1 && Inv.Confirm(m.inv, order) == Success(t.inv);
    }
  }

  lemma {:induction false} CompletePaymentStock(s: State, i: nat, providerId: Id, order: Id,
      expectedCents: int, crash: Crash)
    requires PInv(s) && i < |s.payments|
    ensures StockMovesWithPaid(s.market, CompletePayment(s, i, providerId, order, expectedCents, crash).market)
  {
    hide StockMovesWithPaid, TimesPaid, HistoryGood;
    StillMarket(s.market, s.market);
    if MarkPaid(s.market, s.payments[i].order).Success? {
      MarkPaidStock(s.market, s.payments[i].order);
    }
  }

  lemma {:induction false} StillMarket(m: Market, t: Market)
    requires t.inv == m.inv && t.history == m.history
    ensures StockMovesWithPaid(m, t)
  {
  }

  lemma {:induction false} HandleStock(s: State, body: EventBody, crash: Crash)
    requires PInv(s)
    ensures StockMovesWithPaid(s.market, Handle(s, body, crash).market)
  {
    hide PInv, StockMovesWithPaid, CompletePayment;
    StillMarket(s.market, s.market);
    match body
    case IntentSucceeded(intent) =>
      var found := FindPayment(s.payments, intent);
      if found.Some? {
        CompletePaymentStock(s, found.value, intent.providerId, s.payments[found.value].order,
            s.payments[found.value].amountCents, crash);
      }
    case DisputeOpened(id) => StillMarket(s.market, HandleDispute(s, id).market);
    case _ =>
  }

  /** Payments, of whatever kind, confirm stock only with an order's first PAID. */
  lemma {:induction false} StepStock(s: State, step: Step)
    requires PInv(s) && !step.MarketStep?
    ensures StockMovesWithPaid(s.market, Next(s, step).market)
  {
    hide PInv, StockMovesWithPaid, CompletePayment, Handle;
    StillMarket(s.market, s.market);
    match step
    case DeliverStep(event, body, crash) => HandleStock(s, body, crash);
    case DevConfirmStep(order, id, key) =>
      if order < |s.market.orders| && s.market.orders[order].status.PendingPayment? {
        var t := CreatePayment(s, order, Dev, id, key);
        CreateKeeps(s, order, Dev, id, key);
        CreatedRow(s, order, Dev, id, key);
        var found := ByKey(s.payments, key);
        var i := if found.Some? then found.value else |s.payments|;
        CompletePaymentStock(t, i, t.payments[i].providerId, order, s.market.orders[order].totalCents, NoCrash);
      }
    case _ =>
  }

  /**
   * Effects happen once, over every run of deliveries: an order becomes PAID at most once, payments
   * confirm its stock at that step and no other, a SUCCEEDED payment is for an order that did, and
   * the ledger holds at most one PAYMENT per order, for exactly the order's total and commission.
   */
  lemma {:induction false} EffectsHappenOnce(s: State, steps: seq<Step>)
    requires Start(s)
    ensures var t := Run(s, steps);
            && (forall o :: 0 <= o < |t.market.orders| ==> TimesPaid(t.market, o) <= 1)
            && (forall n: nat :: n < |steps| && !steps[n].MarketStep? ==>
                  StockMovesWithPaid(Run(s, steps[..n]).market, Run(s, steps[..n + 1]).market))
            && (forall i :: 0 <= i < |t.payments| && t.payments[i].status.Succeeded? ==>
                 TimesPaid(t.market, t.payments[i].order) == 1)
            && (forall i, j :: 0 <= i < j < |t.book| ==> t.book[i].key != t.book[j].key)
            && (forall i :: 0 <= i < |t.book| && t.book[i].key.kind.Payment? ==>
                  && t.book[i].key.id < |t.market.orders| && TimesPaid(t.market, t.book[i].key.id) == 1
                  && var o := t.market.orders[t.book[i].key.id];
                     t.book[i] == L.PaymentTx(t.book[i].key.id, o.totalCents, o.commissionCents, o.shop))
  {
    hide StockMovesWithPaid, Next;
    RunKeepsInv(s, steps);
    var t := Run(s, steps);
    forall n: nat | n < |steps| && !steps[n].MarketStep?
      ensures StockMovesWithPaid(Run(s, steps[..n]).market, Run(s, steps[..n + 1]).market)
    {
      RunKeepsInv(s, steps[..n]);
      assert steps[..n + 1][..n] == steps[..n];
      StepStock(Run(s, steps[..n]), steps[n]);
    }
    forall i | 0 <= i < |t.payments| && t.payments[i].status.Succeeded?
        ensures TimesPaid(t.market, t.payments[i].order) == 1 {
      assert PaymentGood(t.market, t.payments[i]);
    }
    forall i | 0 <= i < |t.book| && t.book[i].key.kind.Payment?
      ensures && t.book[i].key.id < |t.market.orders| && TimesPaid(t.market, t.book[i].key.id) == 1
              && var o := t.market.orders[t.book[i].key.id];
                 t.book[i] == L.PaymentTx(t.book[i].key.id, o.totalCents, o.commissionCents, o.shop)
    {
      assert PostedRight(t.market, t.book[i]);
    }
  }

  /** The order of a payment can be marked PAID, or already is. */
  predicate Payable(m: Market, order: Id) {
    && order < |m.orders|
    && (m.orders[order].status.Paid? || (m.orders[order].status.PendingPayment? && Inv.Confirm(m.inv, order).Success?))
  }

  /**
   * An undisturbed success settles its payment exactly when the event names the payment's order, the
   * order's total and the currency, and the order is payable. It then leaves the order PAID with its
   * stock confirmed once and its payment in the ledger; otherwise the row is FAILED and nothing else moves.
   */
  lemma {:induction false} DeliveryPaysExactly(s: State, event: Id, intent: Intent)
    requires PInv(s) && !AlreadyHandled(s, event) && FindPayment(s.payments, intent).Some?
    requires !s.payments[FindPayment(s.payments, intent).value].status.Succeeded?
    ensures var t := Deliver(s, event, IntentSucceeded(intent), NoCrash);
            var i := FindPayment(s.payments, intent).value;
            var order := s.payments[i].order;
            && order < |s.market.orders| == |t.market.orders|
            && (t.payments[i].status.Succeeded?
                <==> intent.metaOrder == Some(order) && intent.amountReceived == Some(s.market.orders[order].totalCents)
                     && intent.currencyMatches && Payable(s.market, order))
            && (t.payments[i].status.Succeeded? ==>
                  && t.market.orders[order].status.Paid? && TimesPaid(t.market, order) == 1
                  && (s.market.orders[order].totalCents > 0 ==> L.IsPosted(t.book, PaymentKey(order)))
                  && t.market.inv == (if s.market.orders[order].status.Paid? then s.market.inv
                       else Inv.Confirm(s.market.inv, order).value))
            && (!t.payments[i].status.Succeeded? ==> t.payments[i].status.Failed? && t.market == s.market
                                                     && t.book == s.book)
  {
    var i := FindPayment(s.payments, intent).value;
    var p := s.payments[i];
    assert PaymentGood(s.market, p);
    hide BookGood, Inv.Confirm, L.Post;
    if MarkPaid(s.market, p.order).Success? {
      MarkPaidGrows(s.market, p.order);
      var o := MarkPaid(s.market, p.order).value.orders[p.order];
      L.BuiltIsLawful(L.PostPayment(p.order, o.totalCents, o.commissionCents, o.shop));
      L.PostedAfterPost(s.book, L.PaymentTx(p.order, o.totalCents, o.commissionCents, o.shop), PaymentKey(p.order));
    }
  }

  /** The row an event means: the first Stripe row with its provider id, or without an id the newest waiting one. */
  predicate Means(payments: seq<PaymentRow>, i: nat, providerId: Option<Id>, order: Option<Id>)
    requires i < |payments|
  {
    && payments[i].provider.Stripe?
    && match (providerId, order)
       case (Some(id), _) =>
         && payments[i].providerId == id
         && forall k :: 0 <= k < i ==> !(payments[k].provider.Stripe? && payments[k].providerId == id)
       case (None, Some(o)) =>
         && payments[i].order == o && payments[i].status.Pending?
         && forall k :: i < k < |payments| ==>
              !(payments[k].provider.Stripe? && payments[k].order == o && payments[k].status.Pending?)
       case (None, None) => false
  }

  /**
   * An undisturbed failure fails exactly the payment it means, if that still waits; no other row, no order,
   * no stock and no transaction moves, and the event is done with.
   */
  lemma {:induction false} DeliveryFailsExactly(s: State, event: Id, intentId: Option<Id>, order: Option<Id>)
    requires !AlreadyHandled(s, event)
    ensures var t := Deliver(s, event, IntentFailed(intentId, order), NoCrash);
            && |t.payments| == |s.payments|
            && (forall i :: 0 <= i < |s.payments| ==>
                  t.payments[i] == if Means(s.payments, i, intentId, order) && s.payments[i].status.Pending?
                                   then s.payments[i].(status := Failed) else s.payments[i])
            && t.market == s.market && t.book == s.book && t.events == s.events[event := Processed]
  {
    var t := Deliver(s, event, IntentFailed(intentId, order), NoCrash);
    forall i | 0 <= i < |s.payments|
      ensures t.payments[i] == if Means(s.payments, i, intentId, order) && s.payments[i].status.Pending?
                               then s.payments[i].(status := Failed) else s.payments[i]
    {
      if intentId.Some? {
        MeantById(s.payments, i, intentId.value, order);
      } else if order.Some? {
        MeantByOrder(s.payments, i, order.value);
      }
    }
  }

  lemma {:induction false} MeantById(payments: seq<PaymentRow>, i: nat, id: Id, order: Option<Id>)
    requires i < |payments|
    ensures Means(payments, i, Some(id), order) <==> ByIntent(payments, id) == Some(i)
  {
    if Means(payments, i, Some(id), order) {
      assert IsIntent(payments[i], id);
      assert forall k :: 0 <= k < i ==> !IsIntent(payments[k], id);
    } else if ByIntent(payments, id) == Some(i) {
      assert forall k :: 0 <= k < i ==> !IsIntent(payments[k], id);
    }
  }

  lemma {:induction false} MeantByOrder(payments: seq<PaymentRow>, i: nat, order: Id)
    requires i < |payments|
    ensures Means(payments, i, None, Some(order)) <==> NewestOpen(payments, order) == Some(i)
  {
    if Means(payments, i, None, Some(order)) {
      assert IsOpenFor(payments[i], order);
      assert forall k :: i < k < |payments| ==> !IsOpenFor(payments[k], order);
    }
  }

  /**
   * Which payment a success means: the first Stripe row with its provider id; if no row has that, the newest
   * waiting Stripe row of the order it names; and none otherwise.
   */
  lemma {:induction false} SuccessMeansExactly(payments: seq<PaymentRow>, intent: Intent)
    ensures var id := intent.providerId;
            var known := exists k :: 0 <= k < |payments|
                                     && payments[k].provider.Stripe? && payments[k].providerId == id;
            forall i: nat :: i < |payments| ==>
              (FindPayment(payments, intent) == Some(i) <==>
                 if known then Means(payments, i, Some(id), None) else Means(payments, i, None, intent.metaOrder))
  {
    var direct := ByIntent(payments, intent.providerId);
    if direct.None? {
      assert forall k :: 0 <= k < |payments| ==> !IsIntent(payments[k], intent.providerId);
    }
    forall i: nat | i < |payments|
      ensures Means(payments, i, Some(intent.providerId), None) <==> direct == Some(i)
      ensures intent.metaOrder.Some? ==>
                (Means(payments, i, None, intent.metaOrder) <==>
                   NewestOpen(payments, intent.metaOrder.value) == Some(i))
    {
      MeantById(payments, i, intent.providerId, None);
      if intent.metaOrder.Some? {
        MeantByOrder(payments, i, intent.metaOrder.value);
      }
    }
  }

  /** An undisturbed dispute makes exactly the order of the payment it means DISPUTED, and moves nothing else. */
  lemma {:induction false} DeliveryDisputesExactly(s: State, event: Id, intentId: Option<Id>)
    requires PInv(s) && !AlreadyHandled(s, event)
    ensures var t := Deliver(s, event, DisputeOpened(intentId), NoCrash);
            && |t.market.orders| == |s.market.orders|
            && (forall o: nat :: o < |s.market.orders| ==>
                  t.market.orders[o] == if intentId.Some? && PaidByMeant(s.payments, intentId, o)
                                        then s.market.orders[o].(status := Disputed) else s.market.orders[o])
            && t == s.(market := s.market.(orders := t.market.orders), events := s.events[event := Processed])
  {
    hide PInv;
    forall i: nat | i < |s.payments| && intentId.Some?
      ensures Means(s.payments, i, intentId, None) <==> ByIntent(s.payments, intentId.value) == Some(i)
    {
      MeantById(s.payments, i, intentId.value, None);
    }
  }

  predicate PaidByMeant(payments: seq<PaymentRow>, providerId: Option<Id>, order: Id) {
    exists i :: 0 <= i < |payments| && payments[i].order == order && Means(payments, i, providerId, None)
  }

  /**
   * What a delivery writes into the event table: nothing for an event that was processed or ignored before, which
   * changes nothing else either; FAILED if it broke off, so that it will be handled again; else PROCESSED, or
   * IGNORED for an event of no known kind.
   */
  lemma {:induction false} DeliveryRecordsExactly(s: State, event: Id, body: EventBody, crash: Crash)
    ensures var t := Deliver(s, event, body, crash);
            if event in s.events && s.events[event] in {Processed, Ignored} then t == s
            else
              var broken := crash in {BeforeHandling, AfterMarkPaid, BeforeEventUpdate};
              var status := if broken then EventFailed else if body.Unhandled? then Ignored else Processed;
              t.events == s.events[event := status]
  {
    hide Handle;
    HandlingKeepsEvents(s, s, body, crash);
  }

  /**
   * A development confirmation of an order awaiting payment works on row `i`: the one its key names, or a new one for
   * the order's total. It settles the row, pays the order, confirms its stock once and books it, exactly when the row
   * waits or failed before, is the order's own, and the stock can be confirmed. A succeeded row stays, and so does
   * everything else; any other row is FAILED and nothing else moves.
   */
  lemma {:induction false} DevConfirmExactly(s: State, order: Id, freshId: Id, key: Id, i: nat)
    requires PInv(s) && order < |s.market.orders| && s.market.orders[order].status.PendingPayment?
    requires i <= |s.payments| && forall k :: i < k < |s.payments| ==> s.payments[k].idempotencyKey != key
    requires if i < |s.payments| then s.payments[i].idempotencyKey == key
             else forall k :: 0 <= k < |s.payments| ==> s.payments[k].idempotencyKey != key
    ensures var t := DevConfirm(s, order, freshId, key);
            var o := s.market.orders[order];
            var p := if i < |s.payments| then s.payments[i]
                else PaymentRow(order, Dev, freshId, Pending, o.totalCents, key);
            var rows := if i < |s.payments| then s.payments else s.payments + [p];
            if p.status.Succeeded? then t == s
            else if p.order == order && Inv.Confirm(s.market.inv, order).Success? then
              && t.payments == rows[i := p.(status := Succeeded)]
              && t.market.orders == s.market.orders[order := o.(status := Paid)]
              && t.market.inv == Inv.Confirm(s.market.inv, order).value
              && (o.totalCents > 0 ==> L.IsPosted(t.book, PaymentKey(order)))
            else t == s.(payments := rows[i := p.(status := Failed)])
  {
    hide Inv.Confirm, L.Post, HistoryGood, BookGood;
    var o := s.market.orders[order];
    var p := if i < |s.payments| then s.payments[i] else PaymentRow(order, Dev, freshId, Pending, o.totalCents, key);
    assert ByKey(s.payments, key) == if i < |s.payments| then Some(i) else None;
    if i < |s.payments| {
      assert PaymentGood(s.market, p);
    }
    L.BuiltIsLawful(L.PostPayment(order, o.totalCents, o.commissionCents, o.shop));
    L.PostedAfterPost(s.book, L.PaymentTx(order, o.totalCents, o.commissionCents, o.shop), PaymentKey(order));
  }

  /** Orders that are unknown or do not await payment are left alone, whatever the key. */
  lemma {:induction false} DevConfirmRefused(s: State, order: Id, freshId: Id, key: Id)
    requires order >= |s.market.orders| || !s.market.orders[order].status.PendingPayment?
    ensures DevConfirm(s, order, freshId, key) == s
  {
  }

  // ------------------------------------------------------ what a step may touch

  function OrderPaymentTx(m: Market, o: Id): L.Transaction
    requires o < |m.orders|
  {
    L.PaymentTx(o, m.orders[o].totalCents, m.orders[o].commissionCents, m.orders[o].shop)
  }

  /** A step leaves the book, posts the payment of an order, or posts something else. */
  ghost predicate BookMoves(s: State, t: State) {
    || t.book == s.book
    || (exists o: Id :: o < |t.market.orders| && t.book == L.Post(s.book, OrderPaymentTx(t.market, o)))
  }

  lemma {:induction false} CompletePaymentMoves(s: State, i: nat, providerId: Id, order: Id,
      expectedCents: int, crash: Crash)
    requires PInv(s) && i < |s.payments|
    ensures var t := CompletePayment(s, i, providerId, order, expectedCents, crash);
            Grows(s.market, t.market) && |t.market.orders| == |s.market.orders| && BookMoves(s, t)
                && |t.payments| == |s.payments|
  {
    var p := s.payments[i];
    SameHistory(s.market, s.market);
    if !p.status.Succeeded? && p.amountCents == expectedCents && p.order == order
        && MarkPaid(s.market, p.order).Success? {
      MarkPaidGrows(s.market, p.order);
      var t := CompletePayment(s, i, providerId, order, expectedCents, crash);
      assert t.book == s.book || t.book == L.Post(s.book, OrderPaymentTx(t.market, p.order));
    }
  }

  lemma {:induction false} HandleMoves(s: State, body: EventBody, crash: Crash)
    requires PInv(s)
    ensures var t := Handle(s, body, crash);
            Grows(s.market, t.market) && |t.market.orders| == |s.market.orders| && BookMoves(s, t)
                && |t.payments| == |s.payments|
  {
    hide HistoryGood, BookGood, CompletePayment;
    SameHistory(s.market, s.market);
    match body
    case IntentSucceeded(intent) =>
      var found := FindPayment(s.payments, intent);
      if found.Some? {
        CompletePaymentMoves(s, found.value, intent.providerId, s.payments[found.value].order,
            s.payments[found.value].amountCents, crash);
      }
    case DisputeOpened(id) =>
      if id.Some? && ByIntent(s.payments, id.value).Some? {
        OverwriteGrows(s.market, s.payments[ByIntent(s.payments, id.value).value].order, Disputed);
      }
    case _ =>
  }

  lemma {:induction false} DevConfirmMoves(s: State, order: Id, freshId: Id, key: Id)
    requires PInv(s)
    ensures var t := DevConfirm(s, order, freshId, key);
            Grows(s.market, t.market) && |t.market.orders| == |s.market.orders| && BookMoves(s, t)
                && |t.payments| >= |s.payments|
  {
    hide PInv, CompletePayment;
    SameMarket(s);
    if order < |s.market.orders| && s.market.orders[order].status.PendingPayment? {
      var t := CreatePayment(s, order, Dev, freshId, key);
      CreateKeeps(s, order, Dev, freshId, key);
      var found := ByKey(s.payments, key);
      var i := if found.Some? then found.value else |s.payments|;
      CompletePaymentMoves(t, i, t.payments[i].providerId, order, s.market.orders[order].totalCents, NoCrash);
    }
  }

  lemma {:induction false} SameMarket(s: State)
    requires PInv(s)
    ensures Grows(s.market, s.market)
  {
    SameHistory(s.market, s.market);
  }

  /** Every step lets the market only grow, keeps all payment rows, and posts at most once. */
  lemma {:induction false} StepMoves(s: State, step: Step)
    requires PInv(s)
    ensures var t := Next(s, step);
            && Grows(s.market, t.market) && |t.payments| >= |s.payments|
            && (!step.MarketStep? ==> |t.market.orders| == |s.market.orders|)
            && (BookMoves(s, t) || (step.OtherPostStep? && !step.op.PostPayment?
                 && t.book == L.Post(s.book, L.TxOf(step.op))))
  {
    hide PInv, Handle, CompletePayment, Grows;
    SameMarket(s);
    match step
    case CreateStep(order, provider, id, key) =>
    case DeliverStep(event, body, crash) => HandleMoves(s, body, crash);
    case DevConfirmStep(order, id, key) => DevConfirmMoves(s, order, id, key);
    case MarketStep(st) =>
      if !st.PayStep? {
        MarketGrows(s, st);
      }
    case OtherPostStep(op) =>
  }

  lemma {:induction false} MarketGrows(s: State, step: Orders.Step)
    requires PInv(s) && !step.PayStep?
    ensures Grows(s.market, Orders.Next(s.market, step))
  {
    MarketStepGrows(s.market, step);
  }

  // ------------------------------------------------- when a payment is booked

  /** From `s` to `t` a payment row of the order becomes SUCCEEDED. */
  predicate Settles(s: seq<PaymentRow>, t: seq<PaymentRow>, order: Id) {
    exists i :: 0 <= i < |t| && t[i].order == order && t[i].status.Succeeded? && (i < |s| ==> !s[i].status.Succeeded?)
  }

  predicate LedgerUp(step: Step) {
    step.DeliverStep? ==> !step.crash.LedgerDown?
  }

  predicate Charged(m: Market, order: Id) {
    order < |m.orders| && m.orders[order].totalCents > 0
  }

  /** After this change the order's PAYMENT is in the book if it was, or if a row of it settled with the ledger up. */
  predicate BookedRight(s: State, t: State, order: Id, up: bool) {
    L.IsPosted(t.book, PaymentKey(order))
    <==> L.IsPosted(s.book, PaymentKey(order))
         || (up && Settles(s.payments, t.payments, order) && Charged(t.market, order))
  }

  lemma {:induction false} NothingSettles(s: State, t: State, order: Id, up: bool)
    requires t.book == s.book && |t.payments| >= |s.payments|
    requires forall i :: 0 <= i < |t.payments| && t.payments[i].status.Succeeded? ==>
               i < |s.payments| && s.payments[i].status.Succeeded?
    ensures BookedRight(s, t, order, up)
  {
  }

  lemma {:induction false} CompletePaymentBooks(s: State, i: nat, providerId: Id, order: Id, expectedCents: int,
      crash: Crash, o: Id)
    requires PInv(s) && i < |s.payments|
    ensures BookedRight(s, CompletePayment(s, i, providerId, order, expectedCents, crash), o, !crash.LedgerDown?)
  {
    hide HistoryGood, BookGood, L.Post, L.IsPosted, Inv.Confirm;
    var p := s.payments[i];
    assert PaymentGood(s.market, p);
    var t := CompletePayment(s, i, providerId, order, expectedCents, crash);
    assert |t.payments| == |s.payments| && forall k :: 0 <= k < |t.payments| && k != i ==>
        t.payments[k] == s.payments[k];
    if t.payments[i].status.Succeeded? && !p.status.Succeeded? {
      assert t.payments[i].order == p.order;
      assert Settles(s.payments, t.payments, p.order);
      var q := t.market.orders[p.order];
      L.BuiltIsLawful(L.PostPayment(p.order, q.totalCents, q.commissionCents, q.shop));
      L.PostedAfterPost(s.book, L.PaymentTx(p.order, q.totalCents, q.commissionCents, q.shop), PaymentKey(o));
    } else {
      NothingSettles(s, t, o, !crash.LedgerDown?);
    }
  }

  lemma {:induction false} HandleBooks(s: State, body: EventBody, crash: Crash, o: Id)
    requires PInv(s)
    ensures BookedRight(s, Handle(s, body, crash), o, !crash.LedgerDown?)
  {
    hide PInv, BookedRight, CompletePayment;
    NothingSettles(s, s, o, !crash.LedgerDown?);
    match body
    case IntentSucceeded(intent) =>
      var found := FindPayment(s.payments, intent);
      if found.Some? {
        NothingSettles(s, SetPayment(s, found.value, Failed), o, !crash.LedgerDown?);
        CompletePaymentBooks(s, found.value, intent.providerId, s.payments[found.value].order,
            s.payments[found.value].amountCents, crash, o);
      }
    case IntentFailed(id, order) => NothingSettles(s, HandleFailed(s, id, order), o, !crash.LedgerDown?);
    case DisputeOpened(id) => NothingSettles(s, HandleDispute(s, id), o, !crash.LedgerDown?);
    case Unhandled =>
  }

  lemma {:induction false} DevConfirmBooks(s: State, order: Id, freshId: Id, key: Id, o: Id)
    requires PInv(s)
    ensures BookedRight(s, DevConfirm(s, order, freshId, key), o, true)
  {
    hide PInv, CompletePayment;
    NothingSettles(s, s, o, true);
    if order < |s.market.orders| && s.market.orders[order].status.PendingPayment? {
      var t := CreatePayment(s, order, Dev, freshId, key);
      CreateKeeps(s, order, Dev, freshId, key);
      var found := ByKey(s.payments, key);
      var i := if found.Some? then found.value else |s.payments|;
      var u := CompletePayment(t, i, t.payments[i].providerId, order, s.market.orders[order].totalCents, NoCrash);
      CompletePaymentBooks(t, i, t.payments[i].providerId, order, s.market.orders[order].totalCents, NoCrash, o);
      assert Settles(t.payments, u.payments, o) <==> Settles(s.payments, u.payments, o);
    }
  }

  /**
   * Per step, and for every order: its PAYMENT is posted afterwards exactly if it was before, or a row of it
   * settles with the ledger up and a positive total.
   */
  lemma {:induction false} StepBooksExactly(s: State, step: Step, order: Id)
    requires PInv(s)
    ensures BookedRight(s, Next(s, step), order, LedgerUp(step))
  {
    hide PInv, Handle, DevConfirm, Settles, L.IsPosted;
    NothingSettles(s, s, order, LedgerUp(step));
    match step
    case CreateStep(o, provider, id, key) => NothingSettles(s, Next(s, step), order, LedgerUp(step));
    case DeliverStep(event, body, crash) => HandleBooks(s, body, crash, order);
    case DevConfirmStep(o, id, key) => DevConfirmBooks(s, o, id, key, order);
    case MarketStep(st) => NothingSettles(s, Next(s, step), order, LedgerUp(step));
    case OtherPostStep(op) =>
      if !op.PostPayment? {
        OtherPostBooks(s, op, order);
      }
  }

  lemma {:induction false} OtherPostBooks(s: State, op: L.Op, order: Id)
    requires !op.PostPayment?
    ensures BookedRight(s, s.(book := L.Post(s.book, L.TxOf(op))), order, true)
  {
    L.PostedAfterPost(s.book, L.TxOf(op), PaymentKey(order));
    assert !Settles(s.payments, s.payments, order);
  }

  /** Along a run, a row of the order has settled with the ledger up and a positive total. */
  predicate SettledWithLedger(s: State, steps: seq<Step>, order: Id) {
    |steps| > 0 &&
    var n := |steps| - 1;
    var before := Run(s, steps[..n]);
    || SettledWithLedger(s, steps[..n], order)
    || (LedgerUp(steps[n]) && Settles(before.payments, Next(before, steps[n]).payments, order)
         && Charged(Next(before, steps[n]).market, order))
  }

  /**
   * Over every run, the ledger holds an order's PAYMENT exactly if some payment of the order settled
   * while the ledger was up. A settlement the ledger missed is made good by a later one of the same
   * order, and by nothing else.
   */
  lemma {:induction false} LedgerHoldsExactly(s: State, steps: seq<Step>, order: Id)
    requires Start(s)
    ensures L.IsPosted(Run(s, steps).book, PaymentKey(order)) <==> SettledWithLedger(s, steps, order)
  {
    hide Next, Settles, Charged;
    if |steps| == 0 {
    } else {
      var n := |steps| - 1;
      LedgerHoldsExactly(s, steps[..n], order);
      RunKeepsInv(s, steps[..n]);
      StepBooksExactly(Run(s, steps[..n]), steps[n], order);
    }
  }

  predicate HasSucceeded(payments: seq<PaymentRow>, order: Id) {
    exists i :: 0 <= i < |payments| && payments[i].order == order && payments[i].status.Succeeded?
  }

  /** In a run without ledger outages, exactly the orders with a succeeded payment and a positive total are booked. */
  lemma {:induction false} WithoutOutagesAllBooked(s: State, steps: seq<Step>, order: Id)
    requires Start(s) && forall n :: 0 <= n < |steps| ==> LedgerUp(steps[n])
    ensures var t := Run(s, steps);
            L.IsPosted(t.book, PaymentKey(order)) <==> HasSucceeded(t.payments, order) && Charged(t.market, order)
  {
    hide Next, Charged;
    if |steps| == 0 {
    } else {
      var n := |steps| - 1;
      var before := Run(s, steps[..n]);
      WithoutOutagesAllBooked(s, steps[..n], order);
      RunKeepsInv(s, steps[..n]);
      StepBooksExactly(before, steps[n], order);
      SucceededPlusSettled(before, steps[n], order);
    }
  }

  lemma {:induction false} SucceededPlusSettled(s: State, step: Step, order: Id)
    requires PInv(s)
    ensures var t := Next(s, step);
            && (HasSucceeded(t.payments, order) <==>
                 HasSucceeded(s.payments, order) || Settles(s.payments, t.payments, order))
            && (HasSucceeded(s.payments, order) ==> (Charged(t.market, order) <==> Charged(s.market, order)))
            && (Charged(s.market, order) ==> Charged(t.market, order))
  {
    hide Next, HistoryGood, BookGood;
    var t := Next(s, step);
    StepMoves(s, step);
    if HasSucceeded(s.payments, order) {
      var i :| 0 <= i < |s.payments| && s.payments[i].order == order && s.payments[i].status.Succeeded?;
      assert PaymentGood(s.market, s.payments[i]);
      SucceededStays(s, step, i);
      assert t.payments[i] == s.payments[i];
    }
    if Settles(s.payments, t.payments, order) {
      var i :| 0 <= i < |t.payments| && t.payments[i].order == order && t.payments[i].status.Succeeded?;
    }
    if HasSucceeded(t.payments, order) && !Settles(s.payments, t.payments, order) {
      var i :| 0 <= i < |t.payments| && t.payments[i].order == order && t.payments[i].status.Succeeded?;
      SucceededStays(s, step, i);
    }
  }

  // -------------------------------------------------- absorbing and idempotent

  /** SUCCEEDED is absorbing: no step changes a succeeded row. */
  lemma {:induction false} SucceededStays(s: State, step: Step, i: nat)
    requires i < |s.payments| && s.payments[i].status.Succeeded?
    ensures i < |Next(s, step).payments| && Next(s, step).payments[i] == s.payments[i]
  {
    hide MarkPaid, Orders.Next, L.Post, Overwrite;
  }

  lemma {:induction false} SucceededStaysForever(s: State, steps: seq<Step>, i: nat)
    requires i < |s.payments| && s.payments[i].status.Succeeded?
    ensures i < |Run(s, steps).payments| && Run(s, steps).payments[i] == s.payments[i]
  {
    hide Next;
    if |steps| == 0 {
    } else {
      SucceededStaysForever(s, steps[..|steps| - 1], i);
      SucceededStays(Run(s, steps[..|steps| - 1]), steps[|steps| - 1], i);
    }
  }

  lemma {:induction false} HandledStays(s: State, step: Step, event: Id)
    requires AlreadyHandled(s, event)
    ensures AlreadyHandled(Next(s, step), event)
  {
    hide CompletePayment, Handle;
    match step
    case DeliverStep(other, body, crash) => HandlingKeepsEvents(s, s, body, crash);
    case DevConfirmStep(order, id, key) =>
      if order < |s.market.orders| && s.market.orders[order].status.PendingPayment? {
        var t := CreatePayment(s, order, Dev, id, key);
        var found := ByKey(s.payments, key);
        var i := if found.Some? then found.value else |s.payments|;
        CompletingKeepsEvents(t, i, t.payments[i].providerId, order, s.market.orders[order].totalCents);
      }
    case _ =>
  }

  lemma {:induction false} CompletingKeepsEvents(s: State, i: nat, providerId: Id, order: Id, expectedCents: int)
    requires i < |s.payments|
    ensures CompletePayment(s, i, providerId, order, expectedCents, NoCrash).events == s.events
  {
    hide MarkPaid;
  }

  lemma {:induction false} HandledForever(s: State, steps: seq<Step>, event: Id)
    requires AlreadyHandled(s, event)
    ensures AlreadyHandled(Run(s, steps), event)
  {
    hide Next, AlreadyHandled;
    if |steps| == 0 {
    } else {
      HandledForever(s, steps[..|steps| - 1], event);
      HandledStays(Run(s, steps[..|steps| - 1]), steps[|steps| - 1], event);
    }
  }

  lemma {:induction false} RunSplits(s: State, first: seq<Step>, rest: seq<Step>)
    ensures Run(s, first + rest) == Run(Run(s, first), rest)
  {
    hide Next;
    if |rest| == 0 {
      assert first + rest == first;
    } else {
      var n := |rest| - 1;
      RunSplits(s, first, rest[..n]);
      assert (first + rest)[..|first| + n] == first + rest[..n];
      assert (first + rest)[|first| + n] == rest[n];
    }
  }

  /**
   * Once an event has been handled, every later delivery of it, with whatever body and whenever it
   * comes, can be struck from the run without changing where the run ends.
   */
  lemma {:induction false} RedeliveriesCanBeStruck(s: State, before: seq<Step>, again: Step, after: seq<Step>)
    requires again.DeliverStep? && AlreadyHandled(s, again.event)
    ensures Run(s, before + [again] + after) == Run(s, before + after)
  {
    hide AlreadyHandled;
    HandledForever(s, before, again.event);
    RunSplits(s, before + [again], after);
    RunSplits(s, before, after);
    StruckStep(Run(s, before), again);
    assert (before + [again])[..|before|] == before;
  }

  lemma {:induction false} StruckStep(s: State, again: Step)
    requires again.DeliverStep? && AlreadyHandled(s, again.event)
    ensures Next(s, again) == s
  {
  }

  /** Under another event id, the same successful intent touches only the event table. */
  lemma {:induction false} SecondSuccessIsInert(s: State, event: Id, other: Id, intent: Intent, crash: Crash,
      crashAgain: Crash)
    requires !AlreadyHandled(s, event) && !crash.BeforeHandling?
    requires var t := Deliver(s, event, IntentSucceeded(intent), crash);
             FindPayment(s.payments, intent).Some?
                 && t.payments[FindPayment(s.payments, intent).value].status.Succeeded?
    ensures var t := Deliver(s, event, IntentSucceeded(intent), crash);
            var u := Deliver(t, other, IntentSucceeded(intent), crashAgain);
            u.market == t.market && u.payments == t.payments && u.book == t.book
  {
    var t := Deliver(s, event, IntentSucceeded(intent), crash);
    var i := FindPayment(s.payments, intent).value;
    if !s.payments[i].status.Succeeded? {
      assert t.payments == s.payments[i := s.payments[i].(status := Succeeded, providerId := intent.providerId)];
      assert s.payments[i].provider.Stripe?;
      FirstStaysFirst(s.payments, t.payments, i, intent.providerId);
    }
  }

  lemma {:induction false} FirstStaysFirst(before: seq<PaymentRow>, after: seq<PaymentRow>, i: nat, providerId: Id)
    requires i < |before| && |after| == |before|
    requires forall k :: 0 <= k < |before| && k != i ==> after[k] == before[k]
    requires IsIntent(after[i], providerId)
    requires ByIntent(before, providerId) == Some(i) || ByIntent(before, providerId).None?
    ensures ByIntent(after, providerId) == Some(i)
  {
    forall k | 0 <= k < i ensures !IsIntent(after[k], providerId) {
      assert after[k] == before[k];
    }
  }

  /** A delivery that broke off before the payment row was settled is fully repaired by the provider's retry. */
  lemma {:induction false} RetryRepairs(s: State, event: Id, body: EventBody, crash: Crash)
    requires !AlreadyHandled(s, event)
    requires crash.BeforeHandling? || (crash.AfterMarkPaid? && Handle(s, body, crash).payments == s.payments)
    ensures Deliver(Deliver(s, event, body, crash), event, body, NoCrash) == Deliver(s, event, body, NoCrash)
  {
    hide Inv.Confirm;
    var broken := Deliver(s, event, body, crash);
    if crash.AfterMarkPaid? {
      RetryOfHandling(s, broken, body);
    } else {
      HandlingKeepsEvents(s, broken, body, NoCrash);
    }
    var t := Handle(s, body, NoCrash);
    assert broken.events[event := EventOutcome(body, NoCrash)] == s.events[event := EventOutcome(body, NoCrash)];
  }

  /** Handling an event reads and writes nothing of the event table. */
  lemma {:induction false} HandlingKeepsEvents(s: State, t: State, body: EventBody, crash: Crash)
    requires t == s.(events := t.events)
    ensures Handle(t, body, crash) == Handle(s, body, crash).(events := t.events)
    ensures Handle(s, body, crash).events == s.events
  {
    hide MarkPaid;
  }

  lemma {:induction false} RetryOfHandling(s: State, broken: State, body: EventBody)
    requires Handle(s, body, AfterMarkPaid).payments == s.payments
    requires broken == Handle(s, body, AfterMarkPaid).(events := broken.events)
    ensures Handle(broken, body, NoCrash) == Handle(s, body, NoCrash).(events := broken.events)
    ensures Handle(s, body, NoCrash).events == s.events
  {
    hide Inv.Confirm;
    match body
    case DisputeOpened(id) =>
      var found := if id.Some? then ByIntent(s.payments, id.value) else None;
      if found.Some? {
        var o := s.payments[found.value].order;
        assert Overwrite(Overwrite(s.market, o, Disputed), o, Disputed) == Overwrite(s.market, o, Disputed);
      }
    case _ =>
  }

  /**
   * A ledger that was down when the payment settled is not retried for it: no redelivery of that intent posts
   * the missing transaction.
   */
  lemma {:induction false} LedgerOutageIsNotRetried(s: State, event: Id, other: Id, intent: Intent, crash: Crash)
    requires !AlreadyHandled(s, event)
    requires intent.metaOrder.Some? && !L.IsPosted(s.book, PaymentKey(intent.metaOrder.value))
    requires FindPayment(s.payments, intent).Some?
    requires Deliver(s, event, IntentSucceeded(intent),
               LedgerDown).payments[FindPayment(s.payments, intent).value].status.Succeeded?
    ensures var t := Deliver(s, event, IntentSucceeded(intent), LedgerDown);
            !L.IsPosted(Deliver(t, other, IntentSucceeded(intent), crash).book, PaymentKey(intent.metaOrder.value))
  {
    SecondSuccessIsInert(s, event, other, intent, LedgerDown, crash);
  }

  /** Another payment of the order does, when it succeeds later. */
  lemma {:induction false} OtherIntentMakesGood(s: State, event: Id, intent: Intent, order: Id)
    requires PInv(s) && !AlreadyHandled(s, event) && FindPayment(s.payments, intent).Some?
    requires var p := s.payments[FindPayment(s.payments, intent).value];
             p.order == order && !p.status.Succeeded? && order < |s.market.orders|
                 && s.market.orders[order].status.Paid?
    requires intent.metaOrder == Some(order) && intent.amountReceived == Some(s.market.orders[order].totalCents)
               && intent.currencyMatches
    requires s.market.orders[order].totalCents > 0
    ensures L.IsPosted(Deliver(s, event, IntentSucceeded(intent), NoCrash).book, PaymentKey(order))
  {
    DeliveryPaysExactly(s, event, intent);
  }

  /** No row of the order but this one waits for payment. */
  predicate OnlyOpen(payments: seq<PaymentRow>, i: nat, order: Id) {
    forall k :: 0 <= k < |payments| && k != i ==> !IsOpenFor(payments[k], order)
  }

  /**
   * Whether handling the event a second time finds nothing left to do: not if the payment was found by its
   * order only, was failed, and another row of the order still waits, which the second lookup finds instead.
   */
  predicate Repeatable(s: State, body: EventBody) {
    match body
    case IntentSucceeded(intent) =>
      var found := FindPayment(s.payments, intent);
      found.Some? ==> || ByIntent(s.payments, intent.providerId).Some?
                      || Handle(s, body, NoCrash).payments[found.value].status.Succeeded?
                      || (intent.metaOrder.Some? && OnlyOpen(s.payments, found.value, intent.metaOrder.value))
    case IntentFailed(id, order) =>
      id.None? && order.Some? ==>
        var found := NewestOpen(s.payments, order.value);
        found.Some? ==> OnlyOpen(s.payments, found.value, order.value)
    case _ => true
  }

  /** A break after everything was done, but before the event row says so: when the retry adds nothing. */
  lemma {:induction false} RetryAfterHandlingExactly(s: State, event: Id, body: EventBody)
    requires !AlreadyHandled(s, event)
    ensures var broken := Deliver(s, event, body, BeforeEventUpdate);
            Deliver(broken, event, body, NoCrash) == Deliver(s, event, body, NoCrash) <==> Repeatable(s, body)
  {
    hide Inv.Confirm, Handle, Repeatable;
    var broken := Deliver(s, event, body, BeforeEventUpdate);
    SameHandling(s, body);
    var t := Handle(s, body, NoCrash);
    HandlingKeepsEvents(s, s, body, NoCrash);
    HandlingKeepsEvents(t, broken, body, NoCrash);
    if Repeatable(s, body) {
      HandlingTwice(s, body);
    } else {
      SecondFindsAnother(s, body);
      assert Deliver(broken, event, body, NoCrash).payments == Handle(t, body, NoCrash).payments;
    }
    assert broken.events[event := EventOutcome(body, NoCrash)] == s.events[event := EventOutcome(body, NoCrash)];
  }

  /** Otherwise the second handling settles or fails another row. */
  lemma {:induction false} SecondFindsAnother(s: State, body: EventBody)
    requires !Repeatable(s, body)
    ensures Handle(Handle(s, body, NoCrash), body, NoCrash).payments != Handle(s, body, NoCrash).payments
  {
    hide Inv.Confirm, L.Post;
    var t := Handle(s, body, NoCrash);
    var order := if body.IntentSucceeded? then body.intent.metaOrder.value else body.failedOrder.value;
    var i := NewestOpen(s.payments, order).value;
    var k :| 0 <= k < |s.payments| && k != i && IsOpenFor(s.payments[k], order);
    assert t.payments == s.payments[i := s.payments[i].(status := Failed)];
    assert IsOpenFor(t.payments[k], order);
    if body.IntentSucceeded? {
      SameFirst(s.payments, t.payments, body.intent.providerId);
    }
    var j := NewestOpen(t.payments, order).value;
    assert t.payments[j].status.Pending?;
    assert !Handle(t, body, NoCrash).payments[j].status.Pending?;
  }

  /** After the only open row is failed, the order has none. */
  lemma {:induction false} NoneOpenLeft(payments: seq<PaymentRow>, i: nat, order: Id)
    requires i < |payments| && OnlyOpen(payments, i, order)
    ensures NewestOpen(payments[i := payments[i].(status := Failed)], order).None?
  {
  }

  lemma {:induction false} SameHandling(s: State, body: EventBody)
    ensures Handle(s, body, BeforeEventUpdate) == Handle(s, body, NoCrash)
  {
    hide MarkPaid;
  }

  lemma {:induction false} SuccessTwice(s: State, intent: Intent)
    requires FindPayment(s.payments, intent).Some? && Repeatable(s, IntentSucceeded(intent))
    requires !s.payments[FindPayment(s.payments, intent).value].status.Succeeded?
    ensures HandleSucceeded(HandleSucceeded(s, intent, NoCrash), intent, NoCrash) == HandleSucceeded(s, intent, NoCrash)
  {
    hide Inv.Confirm, L.Post;
    var t := HandleSucceeded(s, intent, NoCrash);
    var i := FindPayment(s.payments, intent).value;
    if t.payments[i].status.Succeeded? {
      assert t.payments == s.payments[i := s.payments[i].(status := Succeeded, providerId := intent.providerId)];
      FirstStaysFirst(s.payments, t.payments, i, intent.providerId);
    } else {
      assert t == SetPayment(s, i, Failed);
      SameFirst(s.payments, t.payments, intent.providerId);
      if ByIntent(s.payments, intent.providerId).None? {
        NoneOpenLeft(s.payments, i, intent.metaOrder.value);
      }
      assert t.payments[i := t.payments[i].(status := Failed)] == t.payments;
    }
  }

  lemma {:induction false} HandlingTwice(s: State, body: EventBody)
    requires Repeatable(s, body)
    ensures Handle(Handle(s, body, NoCrash), body, NoCrash) == Handle(s, body, NoCrash)
  {
    hide MarkPaid, L.Post;
    var t := Handle(s, body, NoCrash);
    match body
    case IntentSucceeded(intent) =>
      var found := FindPayment(s.payments, intent);
      if found.Some? && !s.payments[found.value].status.Succeeded? {
        SuccessTwice(s, intent);
      }
    case IntentFailed(id, order) =>
      if id.Some? && ByIntent(s.payments, id.value).Some? {
        SameFirst(s.payments, t.payments, id.value);
      } else if id.None? && order.Some? && NewestOpen(s.payments, order.value).Some? {
        NoneOpenLeft(s.payments, NewestOpen(s.payments, order.value).value, order.value);
      }
    case DisputeOpened(id) =>
      if id.Some? && ByIntent(s.payments, id.value).Some? {
        var o := s.payments[ByIntent(s.payments, id.value).value].order;
        assert Overwrite(Overwrite(s.market, o, Disputed), o, Disputed) == Overwrite(s.market, o, Disputed);
      }
    case Unhandled =>
  }

  lemma {:induction false} SameFirst(before: seq<PaymentRow>, after: seq<PaymentRow>, providerId: Id)
    requires |after| == |before|
    requires forall k :: 0 <= k < |before| ==> (IsIntent(after[k], providerId) <==> IsIntent(before[k], providerId))
    ensures ByIntent(after, providerId) == ByIntent(before, providerId)
  {
    if |before| == 0 {
    } else {
      SameFirst(before[..|before| - 1], after[..|after| - 1], providerId);
    }
  }
}
