/**
 * Refunds: requested within what was paid, decided by administrators, completed only by the
 * provider's confirmation, and mirrored in the ledger exactly once with a rounded commission share.
 */
module Refunds {
  import opened Common
  import opened Sums
  import opened OrderMachine
  import opened CartSplit
  import O = Orders
  import P = Payments
  import L = Ledger

  datatype RefundStatus =
    | Requested | Approved | ProviderRequested | ProviderConfirmed | Completed | Rejected | RefundFailed

  /** Refunds are identified by their position in the table. */
  datatype RefundRow = RefundRow(order: Id, amountCents: int, status: RefundStatus, stripeId: Option<Id>)

  datatype State = State(pay: P.State, refunds: seq<RefundRow>)

  /** What a refund webhook tells: any part may be missing. */
  datatype Confirmation = Confirmation(refundId: Option<Id>, stripeId: Option<Id>, order: Option<Id>,
      amountCents: Option<int>)

  // ------------------------------------------------------------ status table

  function AllowedRefundTransitions(from: RefundStatus): set<RefundStatus> {
    match from
    case Requested => {Approved, Rejected}
    case Approved => {ProviderRequested, Rejected, RefundFailed}
    case ProviderRequested => {ProviderConfirmed, RefundStatus.Completed, RefundFailed}
    case ProviderConfirmed => {RefundStatus.Completed}
    case RefundFailed => {Approved}
    case Completed | Rejected => {}
  }

  predicate CanTransitionRefund(from: RefundStatus, to: RefundStatus) {
    to in AllowedRefundTransitions(from)
  }

  predicate Confirmable(status: RefundStatus) {
    status.ProviderRequested? || status.Approved? || status.ProviderConfirmed?
  }

  predicate Open(status: RefundStatus) {
    status.Requested? || Confirmable(status) || status.Completed?
  }

  // ------------------------------------------------------------- operations

  function OrdersOf(s: State): seq<Order> {
    s.pay.market.orders
  }

  function PaidRow(order: Id): P.PaymentRow -> int {
    (p: P.PaymentRow) => if p.order == order && p.status.Succeeded? then p.amountCents else 0
  }

  /** Cents received for an order over all its succeeded payments. */
  function Paid(s: P.State, order: Id): int {
    Sum(s.payments, PaidRow(order))
  }

  function PaidBase(s: P.State, order: Id): int
    requires order < |s.market.orders|
  {
    if Paid(s, order) > 0 then Paid(s, order) else s.market.orders[order].totalCents
  }

  function OpenRow(order: Id): RefundRow -> int {
    (r: RefundRow) => if r.order == order && Open(r.status) then r.amountCents else 0
  }

  /** Cents of an order's refunds that are requested, on their way, or completed. */
  function OpenSum(refunds: seq<RefundRow>, order: Id): int {
    Sum(refunds, OpenRow(order))
  }

  predicate Refundable(status: OrderStatus) {
    status.Paid? || status.PartiallyRefunded? || status.Processing? || status.Shipped? || status.Completed?
  }

  function Request(s: State, mayAct: bool, order: Id, amount: int): State {
    if order >= |OrdersOf(s)| || !mayAct || !Refundable(OrdersOf(s)[order].status) then s
    else if amount <= 0 || amount > Max(PaidBase(s.pay, order) - OpenSum(s.refunds, order), 0) then s
    else s.(refunds := s.refunds + [RefundRow(order, amount, Requested, None)])
  }

  function SetRow(s: State, id: nat, row: RefundRow): State
    requires id < |s.refunds|
  {
    s.(refunds := s.refunds[id := row])
  }

  function Approve(s: State, id: Id): State {
    if id < |s.refunds| && s.refunds[id].status.Requested? then SetRow(s, id, s.refunds[id].(status := Approved)) else s
  }

  function Reject(s: State, id: Id): State {
    if id < |s.refunds| && (s.refunds[id].status.Requested? || s.refunds[id].status.Approved?)
    then SetRow(s, id, s.refunds[id].(status := Rejected)) else s
  }

  predicate HasStripePayment(payments: seq<P.PaymentRow>, order: Id) {
    exists i :: 0 <= i < |payments| && payments[i].order == order && payments[i].provider.Stripe?
                && payments[i].status.Succeeded?
  }

  /** Provider ids are unique in the table: a write that would repeat one of another row fails. */
  predicate IdTaken(refunds: seq<RefundRow>, id: nat, stripeId: Option<Id>) {
    stripeId.Some? && exists j :: 0 <= j < |refunds| && j != id && refunds[j].stripeId == stripeId
  }

  /** How the provider is set up, and its reply if it is asked: a refund id, or a refusal. */
  datatype ProviderSide = ProviderSide(devMode: bool, configured: bool, reply: Option<Id>)

  function RequestProvider(s: State, id: Id, side: ProviderSide): State {
    if id >= |s.refunds| || !s.refunds[id].status.Approved? then s
    else
      var r := s.refunds[id];
      if !HasStripePayment(s.pay.payments, r.order) then
        if side.devMode then SetRow(s, id, r.(status := RefundFailed)) else s
      else if !side.configured then s
      else
        match side.reply
        case None => SetRow(s, id, r.(status := RefundFailed))
        case Some(stripeId) =>
          if IdTaken(s.refunds, id, side.reply) then s
          else SetRow(s, id, r.(status := ProviderRequested, stripeId := Some(stripeId)))
  }

  /** Commission reversed by a refund of `amount`. */
  function Share(amount: nat, commission: nat, total: nat): nat {
    if total > 0 then RoundDiv(amount * commission, total) else RoundDiv(amount, 10)
  }

  function ByStripe(refunds: seq<RefundRow>, stripeId: Id): (r: Option<nat>)
    ensures r.Some? ==> r.value < |refunds| && refunds[r.value].stripeId == Some(stripeId)
                        && forall i :: 0 <= i < r.value ==> refunds[i].stripeId != Some(stripeId)
    ensures r.None? ==> forall i :: 0 <= i < |refunds| ==> refunds[i].stripeId != Some(stripeId)
  {
    if |refunds| == 0 then None
    else
      var earlier := ByStripe(refunds[..|refunds| - 1], stripeId);
      if earlier.Some? then earlier
      else if refunds[|refunds| - 1].stripeId == Some(stripeId) then Some(|refunds| - 1)
      else None
  }

  function Lookup(refunds: seq<RefundRow>, c: Confirmation): (r: Option<nat>)
    ensures r.Some? ==> r.value < |refunds|
  {
    if c.refundId.Some? && c.refundId.value < |refunds| then Some(c.refundId.value)
    else if c.stripeId.Some? then ByStripe(refunds, c.stripeId.value)
    else None
  }

  function ConfirmedAmount(row: RefundRow, c: Confirmation): int {
    if c.amountCents.Some? && c.amountCents.value > 0 then c.amountCents.value else row.amountCents
  }

  function StatusAfterRefund(order: Order, amount: int): OrderStatus {
    if amount >= order.totalCents then OrderStatus.Refunded
    else if order.status.Refunded? then order.status
    else PartiallyRefunded
  }

  function RefundTxFor(id: Id, amount: nat, order: Order): L.Transaction {
    L.RefundTx(id, amount, Share(amount, order.commissionCents, order.totalCents), order.shop)
  }

  /** The confirming transaction for a refund that was found; a repeated id or a rejected ledger post rolls it back. */
  function Complete(s: State, id: nat, c: Confirmation): State
    requires id < |s.refunds|
  {
    var r := s.refunds[id];
    var amount := ConfirmedAmount(r, c);
    if !Confirmable(r.status) || r.order >= |OrdersOf(s)| || amount <= 0 || IdTaken(s.refunds, id, c.stripeId) then s
    else
      var o := OrdersOf(s)[r.order];
      var row := r.(status := RefundStatus.Completed, amountCents := amount,
          stripeId := if c.stripeId.Some? then c.stripeId else r.stripeId);
      State(s.pay.(market := O.Overwrite(s.pay.market, r.order, StatusAfterRefund(o, amount)),
                   book := L.Post(s.pay.book, RefundTxFor(id, amount, o))),
            s.refunds[id := row])
  }

  /** `confirmProviderRefund`: complete the refund; one the provider started by itself gets a row first. */
  function Confirm(s: State, c: Confirmation): State {
    var found := Lookup(s.refunds, c);
    if found.Some? then Complete(s, found.value, c)
    else if c.order.Some? && c.stripeId.Some? && c.order.value < |OrdersOf(s)| then
      var row := RefundRow(c.order.value, if c.amountCents.Some? then c.amountCents.value else 0,
          ProviderRequested, c.stripeId);
      Complete(s.(refunds := s.refunds + [row]), |s.refunds|, c)
    else s
  }

  datatype Step =
    | PayStep(step: P.Step)      // everything but refunds: carts, orders, payments, payouts
    | RequestStep(mayAct: bool, order: Id, amount: int)
    | ApproveStep(id: Id)
    | RejectStep(id: Id)
    | ProviderStep(id: Id, side: ProviderSide)
    | ConfirmStep(confirmation: Confirmation)

  function Next(s: State, step: Step): State {
    match step
    case PayStep(st) => if st.OtherPostStep? && st.op.PostRefund? then s else s.(pay := P.Next(s.pay, st))
    case RequestStep(mayAct, order, amount) => Request(s, mayAct, order, amount)
    case ApproveStep(id) => Approve(s, id)
    case RejectStep(id) => Reject(s, id)
    case ProviderStep(id, side) => RequestProvider(s, id, side)
    case ConfirmStep(c) => Confirm(s, c)
  }

  function Run(s: State, steps: seq<Step>): State {
    if |steps| == 0 then s else Next(Run(s, steps[..|steps| - 1]), steps[|steps| - 1])
  }

  predicate Start(s: State) {
    P.Start(s.pay) && s.refunds == []
  }

  // --------------------------------------------------------- status lifecycle

  /** The one move outside the table: a confirmation that arrives before the provider's id was stored. */
  predicate EarlyConfirmation(from: RefundStatus, to: RefundStatus) {
    from.Approved? && to.Completed?
  }

  /** Every step keeps each refund's order and moves its status by the table, save an early confirmation. */
  lemma {:induction false} StepFollowsTable(s: State, step: Step, i: nat)
    requires i < |s.refunds|
    ensures var t := Next(s, step);
            && i < |t.refunds| && t.refunds[i].order == s.refunds[i].order
            && var from, to := s.refunds[i].status, t.refunds[i].status;
               && (from == to || CanTransitionRefund(from, to) || (EarlyConfirmation(from, to) && step.ConfirmStep?))
               && (to.Completed? && !from.Completed? ==> step.ConfirmStep?)
               && (from.Completed? || from.Rejected? || from.RefundFailed? ==> t.refunds[i] == s.refunds[i])
  {
    hide P.Next;
  }

  /** COMPLETED, REJECTED and FAILED refunds never change again, although the table would let FAILED be re-approved. */
  lemma {:induction false} SettledForever(s: State, steps: seq<Step>, i: nat)
    requires i < |s.refunds|
    requires s.refunds[i].status.Completed? || s.refunds[i].status.Rejected? || s.refunds[i].status.RefundFailed?
    ensures i < |Run(s, steps).refunds| && Run(s, steps).refunds[i] == s.refunds[i]
  {
    hide Next;
    if |steps| == 0 {
    } else {
      SettledForever(s, steps[..|steps| - 1], i);
      StepFollowsTable(Run(s, steps[..|steps| - 1]), steps[|steps| - 1], i);
    }
  }

  /** A confirmation repeated is a confirmation made: the whole state is as after the first. */
  lemma {:induction false} ConfirmTwice(s: State, c: Confirmation)
    ensures Confirm(Confirm(s, c), c) == Confirm(s, c)
  {
    hide L.Post, RefundTxFor;
    var t := Confirm(s, c);
    var found := Lookup(s.refunds, c);
    if t != s && !(c.refundId.Some? && c.refundId.value < |s.refunds|) {
      var i := if found.Some? then found.value else |s.refunds|;
      var again := ByStripe(t.refunds, c.stripeId.value);
      forall k | 0 <= k < i ensures t.refunds[k].stripeId != c.stripeId {
        assert t.refunds[k] == s.refunds[k];
      }
      assert t.refunds[i].stripeId == c.stripeId;
      assert again == Some(i);
    }
  }

  /** Delivered again after anything at all, the confirmation of a completed refund changes nothing. */
  lemma {:induction false} LateReplayIsInert(s: State, steps: seq<Step>, c: Confirmation)
    requires c.refundId.Some? && c.refundId.value < |s.refunds| && s.refunds[c.refundId.value].status.Completed?
    ensures Confirm(Run(s, steps), c) == Run(s, steps)
  {
    SettledForever(s, steps, c.refundId.value);
  }

  // ------------------------------------------- replays by the provider's id

  predicate IdsUnique(refunds: seq<RefundRow>) {
    forall i, j :: 0 <= i < j < |refunds| && refunds[i].stripeId.Some? ==> refunds[i].stripeId != refunds[j].stripeId
  }

  /** No two refunds of a run share a provider id. */
  lemma {:induction false} StepKeepsIdsUnique(s: State, step: Step)
    requires IdsUnique(s.refunds)
    ensures IdsUnique(Next(s, step).refunds)
  {
    hide P.Next, L.Post, RefundTxFor, StatusAfterRefund, HasStripePayment, PaidBase, OpenSum;
  }

  lemma {:induction false} IdsStayUnique(s: State, steps: seq<Step>)
    requires IdsUnique(s.refunds)
    ensures IdsUnique(Run(s, steps).refunds)
  {
    hide Next, IdsUnique;
    if |steps| == 0 {
    } else {
      IdsStayUnique(s, steps[..|steps| - 1]);
      StepKeepsIdsUnique(Run(s, steps[..|steps| - 1]), steps[|steps| - 1]);
    }
  }

  /** In a table without repeated ids, the lookup finds the row that has the id. */
  lemma {:induction false} FoundById(refunds: seq<RefundRow>, stripeId: Id, i: nat)
    requires IdsUnique(refunds) && i < |refunds| && refunds[i].stripeId == Some(stripeId)
    ensures ByStripe(refunds, stripeId) == Some(i)
  {
    var found := ByStripe(refunds, stripeId);
    assert found.Some?;
    assert !(found.value < i) && !(i < found.value);
  }

  /**
   * A confirmation that names only the provider's id, as one for a refund the provider started itself:
   * once that refund is completed, repeating it after any steps changes nothing, for the id stays with
   * the refund that has it.
   */
  lemma {:induction false} LateReplayByProviderId(s: State, before: seq<Step>, after: seq<Step>, c: Confirmation)
    requires Start(s) && c.refundId.None? && c.stripeId.Some?
    requires exists i :: 0 <= i < |Run(s, before).refunds| && Run(s, before).refunds[i].stripeId == c.stripeId
                         && Run(s, before).refunds[i].status.Completed?
    ensures var t := Run(Run(s, before), after); Confirm(t, c) == t
  {
    hide Next, Start;
    var mid := Run(s, before);
    var t := Run(mid, after);
    var i :| 0 <= i < |mid.refunds| && mid.refunds[i].stripeId == c.stripeId && mid.refunds[i].status.Completed?;
    EmptyAtStart(s);
    IdsStayUnique(s, before);
    IdsStayUnique(mid, after);
    SettledForever(mid, after, i);
    FoundById(t.refunds, c.stripeId.value, i);
  }

  lemma {:induction false} EmptyAtStart(s: State)
    requires Start(s)
    ensures IdsUnique(s.refunds)
  {
  }
}
