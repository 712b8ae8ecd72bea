/** What every operation on refunds does, from every state: which requests are granted, and where each refund goes. */
module RefundMoves {
  import opened Common
  import opened Sums
  import opened OrderMachine
  import opened CartSplit
  import opened Refunds
  import P = Payments

  // -------------------------------------------------------------- the headroom

  /** The rows of payments received for an order. */
  function Received(payments: seq<P.PaymentRow>, order: Id): set<nat> {
    set i: nat | i < |payments| && payments[i].order == order && payments[i].status.Succeeded?
  }

  lemma {:induction false} ReceivedGrow(payments: seq<P.PaymentRow>, order: Id)
    requires |payments| > 0
    ensures var n := |payments| - 1;
            |Received(payments, order)| == |Received(payments[..n], order)|
              + (if payments[n].order == order && payments[n].status.Succeeded? then 1 else 0)
  {
    var n := |payments| - 1;
    var last := if payments[n].order == order && payments[n].status.Succeeded? then {n} else {};
    assert Received(payments, order) == Received(payments[..n], order) + last;
  }

  lemma {:induction false} SumOfReceived(payments: seq<P.PaymentRow>, order: Id, totalCents: int)
    requires forall i :: 0 <= i < |payments| && payments[i].order == order ==> payments[i].amountCents == totalCents
    ensures Sum(payments, PaidRow(order)) == totalCents * |Received(payments, order)|
  {
    if |payments| == 0 {
      assert Received(payments, order) == {};
    } else {
      var n := |payments| - 1;
      SumOfReceived(payments[..n], order, totalCents);
      ReceivedGrow(payments, order);
    }
  }

  /** An order's refunds are measured against its total, once for each payment received, and at least once. */
  lemma {:induction false} PaidBaseExactly(s: State, order: Id)
    requires P.PInv(s.pay) && order < |OrdersOf(s)|
    ensures var received := |Received(s.pay.payments, order)|;
            PaidBase(s.pay, order) == OrdersOf(s)[order].totalCents * (if received > 0 then received else 1)
  {
    var total := OrdersOf(s)[order].totalCents;
    forall i | 0 <= i < |s.pay.payments| && s.pay.payments[i].order == order
      ensures s.pay.payments[i].amountCents == total
    {
      assert P.PaymentGood(s.pay.market, s.pay.payments[i]);
    }
    SumOfReceived(s.pay.payments, order, total);
    var received := |Received(s.pay.payments, order)|;
    assert received == 0 ==> total * received == 0;
    assert received > 0 ==> total * received >= total;
    assert total == 0 ==> total * received == 0;
  }

  function OpenCents(order: Id): RefundRow -> int {
    (r: RefundRow) =>
      if r.order == order && r.status !in {Rejected, RefundFailed} then r.amountCents else 0
  }

  /**
   * A refund is granted exactly to somebody who may ask, for an order that is paid and not closed, for a positive
   * amount that, with all the order's refunds neither rejected nor failed, stays within what was paid. It is then
   * REQUESTED and nothing else has changed; else nothing has.
   */
  lemma {:induction false} RequestGrantedExactly(s: State, mayAct: bool, order: Id, amount: int)
    ensures var t := Next(s, RequestStep(mayAct, order, amount));
            if && mayAct && order < |OrdersOf(s)|
               && OrdersOf(s)[order].status in {Paid, Processing, Shipped, OrderStatus.Completed, PartiallyRefunded}
               && 0 < amount && Sum(s.refunds, OpenCents(order)) + amount <= PaidBase(s.pay, order)
            then t == s.(refunds := s.refunds + [RefundRow(order, amount, Requested, None)])
            else t == s
  {
    hide PaidBase;
    SumSame(s.refunds, OpenCents(order), s.refunds, OpenRow(order));
  }

  // ----------------------------------------------------------- decisions

  /** The order has been paid through the provider. */
  predicate PaidByProvider(payments: seq<P.PaymentRow>, order: Id) {
    exists p :: p in payments && p.order == order && p.provider.Stripe? && p.status.Succeeded?
  }

  lemma {:induction false} PaidByProviderExactly(payments: seq<P.PaymentRow>, order: Id)
    ensures PaidByProvider(payments, order) <==> HasStripePayment(payments, order)
  {
    if HasStripePayment(payments, order) {
      var i :| 0 <= i < |payments| && payments[i].order == order && payments[i].provider.Stripe?
               && payments[i].status.Succeeded?;
      assert payments[i] in payments;
    }
  }

  /** Some other refund has this provider id. */
  predicate UsedElsewhere(refunds: seq<RefundRow>, id: nat, stripeId: Id) {
    exists j :: 0 <= j < |refunds| && j != id && refunds[j].stripeId == Some(stripeId)
  }

  /** Only refund `id` may differ, and nothing outside the refunds does. */
  predicate OnlyRow(s: State, t: State, id: nat) {
    && t.pay == s.pay && |t.refunds| == |s.refunds|
    && forall i :: 0 <= i < |s.refunds| && i != id ==> t.refunds[i] == s.refunds[i]
  }

  /** Approval moves REQUESTED refunds and rejection those REQUESTED or APPROVED; every other stays as it is. */
  lemma {:induction false} DecisionsExactly(s: State, id: nat)
    requires id < |s.refunds|
    ensures var row := s.refunds[id];
            var a, r := Next(s, ApproveStep(id)), Next(s, RejectStep(id));
            && OnlyRow(s, a, id) && OnlyRow(s, r, id)
            && a.refunds[id] == (if row.status == Requested then row.(status := Approved) else row)
            && r.refunds[id] == (if row.status in {Requested, Approved} then row.(status := Rejected) else row)
  {
  }

  /**
   * An APPROVED refund of an order paid through the provider is sent out when the provider is configured: it is
   * PROVIDER_REQUESTED with the id the provider gives it, FAILED if the provider refuses, and unchanged if the id is
   * another refund's. Without such a payment it fails in development and stays otherwise. No other refund moves.
   */
  lemma {:induction false} ProviderExactly(s: State, id: nat, side: ProviderSide)
    requires id < |s.refunds|
    ensures var row := s.refunds[id];
            var t := Next(s, ProviderStep(id, side));
            && OnlyRow(s, t, id)
            && t.refunds[id] ==
                 if row.status != Approved then row
                 else if !PaidByProvider(s.pay.payments, row.order) then
                   (if side.devMode then row.(status := RefundFailed) else row)
                 else if !side.configured then row
                 else match side.reply
                   case None => row.(status := RefundFailed)
                   case Some(x) =>
                     if UsedElsewhere(s.refunds, id, x) then row
                     else row.(status := ProviderRequested, stripeId := Some(x))
  {
    hide HasStripePayment, PaidByProvider;
    PaidByProviderExactly(s.pay.payments, s.refunds[id].order);
    if side.reply.Some? {
      assert IdTaken(s.refunds, id, side.reply) <==> UsedElsewhere(s.refunds, id, side.reply.value);
    }
  }

  // ---------------------------------------------------------- confirmations

  /** The refund a confirmation is for: the one it names, else the first with its provider id. */
  predicate IsFor(refunds: seq<RefundRow>, c: Confirmation, id: nat)
    requires id < |refunds|
  {
    if c.refundId.Some? && c.refundId.value < |refunds| then c.refundId.value == id
    else c.stripeId.Some? && refunds[id].stripeId == c.stripeId
         && forall j :: 0 <= j < id ==> refunds[j].stripeId != c.stripeId
  }

  lemma {:induction false} IsForExactly(refunds: seq<RefundRow>, c: Confirmation, id: nat)
    requires id < |refunds|
    ensures IsFor(refunds, c, id) <==> Lookup(refunds, c) == Some(id)
  {
  }

  /** The cents a confirmation settles a refund at: its own positive figure, else what the refund asked for. */
  function SettledCents(row: RefundRow, c: Confirmation): int {
    match c.amountCents
    case Some(cents) => if cents > 0 then cents else row.amountCents
    case None => row.amountCents
  }

  /**
   * A confirmation completes the refund it is for exactly when that is on its way (APPROVED, PROVIDER_REQUESTED or
   * PROVIDER_CONFIRMED), its amount is positive, and its provider id is no other refund's. The refund then has
   * the confirmed amount and id, and no other refund or order moves; else nothing does.
   */
  lemma {:induction false} ConfirmsExactly(s: State, c: Confirmation, id: nat)
    requires id < |s.refunds| && IsFor(s.refunds, c, id) && s.refunds[id].order < |OrdersOf(s)|
    ensures var row := s.refunds[id];
            var t := Next(s, ConfirmStep(c));
            if && row.status in {Approved, ProviderRequested, ProviderConfirmed}
               && SettledCents(row, c) > 0
               && (c.stripeId.Some? ==> !UsedElsewhere(s.refunds, id, c.stripeId.value))
            then
              && t.refunds == s.refunds[id := RefundRow(row.order, SettledCents(row, c), RefundStatus.Completed,
                                                        if c.stripeId.Some? then c.stripeId else row.stripeId)]
              && t.pay == s.pay.(market := t.pay.market, book := t.pay.book)
              && t.pay.market == s.pay.market.(orders := t.pay.market.orders)
              && |OrdersOf(t)| == |OrdersOf(s)|
              && (forall o :: 0 <= o < |OrdersOf(s)| && o != row.order ==> OrdersOf(t)[o] == OrdersOf(s)[o])
            else t == s
  {
    hide P.L.Post, RefundTxFor, StatusAfterRefund;
    IsForExactly(s.refunds, c, id);
    if c.stripeId.Some? {
      assert IdTaken(s.refunds, id, c.stripeId) <==> UsedElsewhere(s.refunds, id, c.stripeId.value);
    }
  }

  /**
   * A confirmation that is for no known refund makes a row of its own exactly when it names a known order and a
   * provider id, and completes it at once when its amount is positive.
   */
  lemma {:induction false} OutOfBandExactly(s: State, c: Confirmation)
    requires forall id: nat :: id < |s.refunds| ==> !IsFor(s.refunds, c, id)
    ensures var t := Next(s, ConfirmStep(c));
            var cents := if c.amountCents.Some? then c.amountCents.value else 0;
            var status := if cents > 0 then RefundStatus.Completed else ProviderRequested;
            if c.order.Some? && c.order.value < |OrdersOf(s)| && c.stripeId.Some? then
              && t.refunds == s.refunds + [RefundRow(c.order.value, cents, status, c.stripeId)]
              && (cents <= 0 ==> t.pay == s.pay)
            else t == s
  {
    hide P.L.Post, RefundTxFor, StatusAfterRefund;
    if Lookup(s.refunds, c).Some? {
      IsForExactly(s.refunds, c, Lookup(s.refunds, c).value);
    }
    if c.stripeId.Some? {
      assert forall j :: 0 <= j < |s.refunds| ==> s.refunds[j].stripeId != c.stripeId;
    }
  }
}
