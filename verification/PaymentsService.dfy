/** The payments service over mutable tables; each handler refines the operation of the same name in module Payments. */
module PaymentsService {
  import opened Common
  import opened OrderMachine
  import opened Orders
  import opened Payments
  import L = Ledger
  import S = OrdersService

  class PaymentsService {
    const orders: S.OrdersService
    const ledger: L.LedgerService
    var payments: seq<PaymentRow>
    var events: map<Id, EventStatus>

    constructor (orders: S.OrdersService, ledger: L.LedgerService)
      ensures this.orders == orders && this.ledger == ledger && payments == [] && events == map[]
    {
      this.orders, this.ledger := orders, ledger;
      payments, events := [], map[];
    }

    function Current(): State
      reads this, orders, orders.inventory, ledger
    {
      State(orders.Current(), payments, events, ledger.transactions)
    }

    /** The row for this key, new or old; none when the order is not awaiting payment. */
    method CreatePaymentIntent(order: Id, provider: Provider, providerId: Id, key: Id) returns (r: Option<nat>)
      modifies this
      ensures Current() == CreatePayment(old(Current()), order, provider, providerId, key)
      ensures r.None? <==> order >= |orders.orders| || !orders.orders[order].status.PendingPayment?
      ensures r.Some? ==> r.value < |payments| && payments[r.value].idempotencyKey == key
      ensures r.Some? ==> r.value == (var found := ByKey(old(payments), key); if found.Some? then found.value
                else |old(payments)|)
    {
      if order >= |orders.orders| || !orders.orders[order].status.PendingPayment? {
        return None;
      }
      var existing := ByKey(payments, key);
      if existing.Some? {
        return existing;
      }
      payments := payments + [PaymentRow(order, provider, providerId, Pending, orders.orders[order].totalCents, key)];
      return Some(|payments| - 1);
    }

    method SetStatus(i: nat, status: PaymentStatus)
      requires i < |payments|
      modifies this
      ensures Current() == SetPayment(old(Current()), i, status)
    {
      payments := payments[i := payments[i].(status := status)];
    }

    /** Returns false only when processing breaks off between the order and the payment row. */
    method CompletePayment(i: nat, providerId: Id, order: Id, expectedCents: int, crash: Crash) returns (finished: bool)
      requires i < |payments|
      modifies this, orders, orders.inventory, ledger
      ensures Current() == Payments.CompletePayment(old(Current()), i, providerId, order, expectedCents, crash)
      ensures !finished ==> crash.AfterMarkPaid? && payments == old(payments)
    {
      var payment := payments[i];
      if payment.status.Succeeded? {
        return true;
      }
      if payment.amountCents != expectedCents || payment.order != order {
        SetStatus(i, Failed);
        return true;
      }
      var result := orders.MarkPaidFromPayment(payment.order);
      if result.Failure? {
        SetStatus(i, Failed);
        return true;
      }
      if crash.AfterMarkPaid? {
        return false;
      }
      payments := payments[i := payment.(status := Succeeded, providerId := providerId)];
      if !crash.LedgerDown? {
        var o := orders.orders[payment.order];
        var _ := ledger.PostPayment(payment.order, o.totalCents, o.commissionCents, o.shop);
      }
      return true;
    }

    method CompleteStripeSucceeded(intent: Intent, crash: Crash) returns (finished: bool)
      modifies this, orders, orders.inventory, ledger
      ensures Current() == HandleSucceeded(old(Current()), intent, crash)
      ensures !finished ==> crash.AfterMarkPaid?
    {
      hide Payments.CompletePayment, MarkPaid;
      var found := ByIntent(payments, intent.providerId);
      if found.None? && intent.metaOrder.Some? {
        found := NewestOpen(payments, intent.metaOrder.value);
      }
      if found.None? {
        return true;
      }
      var payment := payments[found.value];
      if payment.status.Succeeded? {
        return true;
      }
      if intent.metaOrder.None? || intent.metaOrder.value != payment.order {
        SetStatus(found.value, Failed);
        return true;
      }
      if intent.amountReceived.None? || intent.amountReceived.value != payment.amountCents {
        SetStatus(found.value, Failed);
        return true;
      }
      if !intent.currencyMatches {
        SetStatus(found.value, Failed);
        return true;
      }
      if payment.order >= |orders.orders| || orders.orders[payment.order].totalCents != payment.amountCents {
        SetStatus(found.value, Failed);
        return true;
      }
      finished := CompletePayment(found.value, intent.providerId, payment.order, payment.amountCents, crash);
    }

    method HandlePaymentIntentFailed(intentId: Option<Id>, order: Option<Id>)
      modifies this
      ensures Current() == HandleFailed(old(Current()), intentId, order)
    {
      if intentId.None? && order.None? {
        return;
      }
      var payment: Option<nat> := None;
      if intentId.Some? {
        payment := ByIntent(payments, intentId.value);
      } else {
        payment := NewestOpen(payments, order.value);
      }
      if payment.Some? && payments[payment.value].status.Pending? {
        SetStatus(payment.value, Failed);
      }
    }

    method HandleStripeDispute(intentId: Option<Id>)
      modifies orders
      ensures Current() == HandleDispute(old(Current()), intentId)
    {
      if intentId.None? {
        return;
      }
      var payment := ByIntent(payments, intentId.value);
      if payment.Some? {
        var order := payments[payment.value].order;
        if order < |orders.orders| {
          orders.orders := orders.orders[order := orders.orders[order].(status := Disputed)];
        }
      }
    }

    /** A redelivery of a finished event returns at once; a broken-off one leaves the event FAILED, to be retried. */
    method ProcessVerifiedStripeEvent(event: Id, body: EventBody, crash: Crash) returns (status: Option<EventStatus>)
      modifies this, orders, orders.inventory, ledger
      ensures Current() == Deliver(old(Current()), event, body, crash)
      ensures status.None? <==> AlreadyHandled(old(Current()), event)
      ensures status.Some? ==> event in events && events[event] == status.value
    {
      hide HandleSucceeded, HandleFailed, HandleDispute;
      if event in events && (events[event].Processed? || events[event].Ignored?) {
        return None;
      }
      ghost var before: map<Id, EventStatus> := events;
      events := events[event := Received];
      ghost var received := Current();
      var final := EventOutcome(body, crash);
      if !crash.BeforeHandling? {
        HandlingKeepsEvents(old(Current()), received, body, crash);
        match body
        case IntentSucceeded(intent) => var _ := CompleteStripeSucceeded(intent, crash);
        case IntentFailed(id, order) => HandlePaymentIntentFailed(id, order);
        case DisputeOpened(id) => HandleStripeDispute(id);
        case Unhandled =>
      }
      events := events[event := final];
      assert events == before[event := final];
      return Some(final);
    }

    method DevConfirm(order: Id, freshId: Id, key: Id)
      modifies this, orders, orders.inventory, ledger
      ensures Current() == Payments.DevConfirm(old(Current()), order, freshId, key)
    {
      hide Payments.CompletePayment, CreatePayment;
      if order >= |orders.orders| || !orders.orders[order].status.PendingPayment? {
        return;
      }
      CreatedRow(Current(), order, Dev, freshId, key);
      var payment := CreatePaymentIntent(order, Dev, freshId, key);
      var i := payment.value;
      var _ := CompletePayment(i, payments[i].providerId, order, orders.orders[order].totalCents, NoCrash);
    }
  }
}
