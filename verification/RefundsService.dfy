/** The refunds service over mutable tables; each method refines the operation of module Refunds. */
module RefundsService {
  import opened Common
  import opened Sums
  import opened Refunds
  import O = Orders
  import S = PaymentsService
  import L = Ledger

  datatype RefundError = NotFound | Forbidden | NotEligible | InvalidAmount(max: int) | InvalidStatus | NoStripePayment
      | NotConfigured | ProviderRefused | DuplicateProviderId

  /** What a confirmation reports back. */
  datatype Confirmed = Done(id: Id) | Already(id: Id) | IgnoredStatus | Unknown | RolledBack

  class RefundsService {
    const payments: S.PaymentsService
    var refunds: seq<RefundRow>

    constructor (payments: S.PaymentsService)
      ensures this.payments == payments && refunds == []
    {
      this.payments := payments;
      refunds := [];
    }

    function Current(): State
      reads this, payments, payments.orders, payments.orders.inventory, payments.ledger
    {
      State(payments.Current(), refunds)
    }

    method RequestRefund(mayAct: bool, order: Id, amountCents: int) returns (r: Result<Id, RefundError>)
      modifies this
      ensures Current() == Request(old(Current()), mayAct, order, amountCents)
      ensures r.Success? ==> refunds == old(refunds) + [RefundRow(order, amountCents, Requested, None)]
                             && r.value == |old(refunds)|
      ensures r.Failure? ==> refunds == old(refunds)
      ensures r.Failure? && r.error.InvalidAmount? ==> amountCents <= 0 || amountCents > r.error.max
    {
      if order >= |payments.orders.orders| {
        return Failure(NotFound);
      }
      if !mayAct {
        return Failure(Forbidden);
      }
      var row := payments.orders.orders[order];
      if !row.status.Paid? && !row.status.PartiallyRefunded? && !row.status.Processing? && !row.status.Shipped?
          && !row.status.Completed? {
        return Failure(NotEligible);
      }
      var paid := Sum(payments.payments, PaidRow(order));
      var refundedSoFar := OpenSum(refunds, order);
      var paidBase := if paid > 0 then paid else row.totalCents;
      var maxRefundable := Max(paidBase - refundedSoFar, 0);
      if amountCents <= 0 || amountCents > maxRefundable {
        return Failure(InvalidAmount(maxRefundable));
      }
      refunds := refunds + [RefundRow(order, amountCents, Requested, None)];
      return Success(|refunds| - 1);
    }

    method ApproveRefund(id: Id) returns (r: Result<(), RefundError>)
      modifies this
      ensures Current() == Approve(old(Current()), id)
      ensures r.Success? <==> id < |old(refunds)| && old(refunds)[id].status.Requested?
    {
      if id >= |refunds| {
        return Failure(NotFound);
      }
      if !refunds[id].status.Requested? || !CanTransitionRefund(refunds[id].status, Approved) {
        return Failure(InvalidStatus);
      }
      refunds := refunds[id := refunds[id].(status := Approved)];
      return Success(());
    }

    method RejectRefund(id: Id) returns (r: Result<(), RefundError>)
      modifies this
      ensures Current() == Reject(old(Current()), id)
      ensures r.Success? <==> id < |old(refunds)|
                              && (old(refunds)[id].status.Requested? || old(refunds)[id].status.Approved?)
    {
      if id >= |refunds| {
        return Failure(NotFound);
      }
      if !refunds[id].status.Requested? && !refunds[id].status.Approved? {
        return Failure(InvalidStatus);
      }
      refunds := refunds[id := refunds[id].(status := Rejected)];
      return Success(());
    }

    method RequestProviderRefund(id: Id, side: ProviderSide) returns (r: Result<(), RefundError>)
      modifies this
      ensures Current() == RequestProvider(old(Current()), id, side)
      ensures r.Failure? && !r.error.ProviderRefused? ==> refunds == old(refunds)
      ensures r == Failure(ProviderRefused) ==> id < |refunds| && refunds[id].status.RefundFailed?
    {
      if id >= |refunds| {
        return Failure(NotFound);
      }
      var refund := refunds[id];
      if !refund.status.Approved? {
        return Failure(InvalidStatus);
      }
      if !HasStripePayment(payments.payments, refund.order) {
        if side.devMode {
          refunds := refunds[id := refund.(status := RefundFailed)];
          return Success(());
        }
        return Failure(NoStripePayment);
      }
      if !side.configured {
        return Failure(NotConfigured);
      }
      if side.reply.None? {
        refunds := refunds[id := refund.(status := RefundFailed)];
        return Failure(ProviderRefused);
      }
      if IdTaken(refunds, id, side.reply) {
        return Failure(DuplicateProviderId);
      }
      refunds := refunds[id := refund.(status := ProviderRequested, stripeId := side.reply)];
      return Success(());
    }

    /** The confirming transaction: row, order status and ledger together, or none of them. */
    method CompleteRefund(id: Id, c: Confirmation) returns (r: Confirmed)
      requires id < |refunds|
      modifies this, payments.orders, payments.ledger
      ensures Current() == Complete(old(Current()), id, c)
      ensures r == Done(id) || r == Already(id) || r == IgnoredStatus || r == RolledBack
      ensures r == Done(id) ==> refunds[id].status.Completed? && !old(refunds)[id].status.Completed?
      ensures r == Already(id) <==> old(refunds)[id].status.Completed?
      ensures r == IgnoredStatus <==> !old(refunds)[id].status.Completed? && !Confirmable(old(refunds)[id].status)
      ensures !r.Done? ==> Current() == old(Current())
    {
      hide L.Post, L.RefundTx;
      var refund := refunds[id];
      if refund.status.Completed? {
        return Already(id);
      }
      if !Confirmable(refund.status) {
        return IgnoredStatus;
      }
      var amount := if c.amountCents.Some? && c.amountCents.value > 0 then c.amountCents.value else refund.amountCents;
      if refund.order >= |payments.orders.orders| || amount <= 0 || IdTaken(refunds, id, c.stripeId) {
        return RolledBack;
      }
      refunds := refunds[id := refund.(status := RefundStatus.Completed, amountCents := amount,
                                       stripeId := if c.stripeId.Some? then c.stripeId else refund.stripeId)];
      var order := payments.orders.orders[refund.order];
      var full := amount >= order.totalCents;
      if !order.status.Refunded? && !order.status.PartiallyRefunded? {
        SetOrderStatus(refund.order, if full then O.OrderMachine.Refunded else O.OrderMachine.PartiallyRefunded);
      } else if !full && order.status.Refunded? {
        // the order stays REFUNDED
      } else if full {
        SetOrderStatus(refund.order, O.OrderMachine.Refunded);
      }
      assert payments.orders.Current()
          == O.Overwrite(old(payments.orders.Current()), refund.order, StatusAfterRefund(order, amount));
      var commission := if order.totalCents > 0 then RoundDiv(amount * order.commissionCents, order.totalCents)
          else RoundDiv(amount, 10);
      var _ := payments.ledger.PostRefund(id, amount, commission, order.shop);
      return Done(id);
    }

    method SetOrderStatus(order: Id, status: O.OrderMachine.OrderStatus)
      requires order < |payments.orders.orders|
      modifies payments.orders
      ensures payments.orders.Current() == O.Overwrite(old(payments.orders.Current()), order, status)
    {
      payments.orders.orders := payments.orders.orders[order := payments.orders.orders[order].(status := status)];
    }

    method ConfirmProviderRefund(c: Confirmation) returns (r: Confirmed)
      modifies this, payments.orders, payments.ledger
      ensures Current() == Confirm(old(Current()), c)
      ensures r.Already? || r.IgnoredStatus? || r.Unknown? ==> Current() == old(Current())
    {
      hide Complete;
      var found: Option<nat> := None;
      if c.refundId.Some? && c.refundId.value < |refunds| {
        found := Some(c.refundId.value);
      }
      if found.None? && c.stripeId.Some? {
        found := ByStripe(refunds, c.stripeId.value);
      }
      if found.None? && c.order.Some? && c.stripeId.Some? {
        if c.order.value >= |payments.orders.orders| {
          return Unknown;
        }
        var amount := if c.amountCents.Some? then c.amountCents.value else 0;
        refunds := refunds + [RefundRow(c.order.value, amount, ProviderRequested, c.stripeId)];
        found := Some(|refunds| - 1);
      }
      if found.None? {
        return Unknown;
      }
      r := CompleteRefund(found.value, c);
    }
  }
}
