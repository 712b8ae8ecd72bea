/** An order's refunds stay within what was paid for it, exactly as long as confirmations stay within their requests. */
module RefundCap {
  import opened Common
  import opened Sums
  import opened Refunds
  import opened RefundRuns
  import P = Payments
  import L = Ledger

  predicate Capped(s: State) {
    forall o :: 0 <= o < |OrdersOf(s)| ==> OpenSum(s.refunds, o) <= PaidBase(s.pay, o)
  }

  // ------------------------------------------------- the paid base only grows

  lemma {:induction false} LongerSum<T>(xs: seq<T>, ys: seq<T>, f: T -> int)
    requires |xs| <= |ys|
    requires forall i :: 0 <= i < |xs| ==> f(xs[i]) <= f(ys[i])
    requires forall i :: |xs| <= i < |ys| ==> f(ys[i]) >= 0
    ensures Sum(xs, f) <= Sum(ys, f)
  {
    assert ys == ys[..|xs|] + ys[|xs|..];
    SumConcat(ys[..|xs|], ys[|xs|..], f);
    SumLe(xs, f, ys[..|xs|], f);
    SumNonNegative(ys[|xs|..], f);
  }

  lemma {:induction false} PaidGrows(s: P.State, step: P.Step, order: Id)
    requires P.PInv(s)
    ensures Paid(s, order) <= Paid(P.Next(s, step), order)
  {
    hide P.Next, P.HistoryGood, P.BookGood;
    var t := P.Next(s, step);
    P.StepKeepsInv(s, step);
    P.StepMoves(s, step);
    forall i | 0 <= i < |t.payments| ensures PaidRow(order)(t.payments[i]) >= 0 {
      assert P.PaymentGood(t.market, t.payments[i]);
    }
    forall i | 0 <= i < |s.payments| ensures PaidRow(order)(s.payments[i]) <= PaidRow(order)(t.payments[i]) {
      if s.payments[i].status.Succeeded? {
        P.SucceededStays(s, step, i);
      }
    }
    LongerSum(s.payments, t.payments, PaidRow(order));
  }

  /** Every succeeded payment is for the order's whole total. */
  lemma {:induction false} PaidIsZeroOrMore(payments: seq<P.PaymentRow>, m: P.Orders.Market, order: Id)
    requires order < |m.orders|
    requires forall i :: 0 <= i < |payments| ==> P.PaymentGood(m, payments[i])
    ensures Sum(payments, PaidRow(order)) == 0 || Sum(payments, PaidRow(order)) >= m.orders[order].totalCents
  {
    if |payments| == 0 {
    } else {
      PaidIsZeroOrMore(payments[..|payments| - 1], m, order);
      assert P.PaymentGood(m, payments[|payments| - 1]);
    }
  }

  lemma {:induction false} PaidBaseGrows(s: P.State, step: P.Step, order: Id)
    requires P.PInv(s) && order < |s.market.orders|
    ensures order < |P.Next(s, step).market.orders|
    ensures PaidBase(s, order) <= PaidBase(P.Next(s, step), order)
  {
    hide P.Next, P.HistoryGood, P.BookGood;
    P.StepKeepsInv(s, step);
    P.StepMoves(s, step);
    PaidGrows(s, step, order);
    PaidIsZeroOrMore(P.Next(s, step).payments, P.Next(s, step).market, order);
  }

  // ---------------------------------------------------------------- steps

  lemma {:induction false} NoRefundsYet(s: State, order: Id)
    requires RInv(s) && order >= |OrdersOf(s)|
    ensures OpenSum(s.refunds, order) == 0
  {
    forall i | 0 <= i < |s.refunds| ensures OpenRow(order)(s.refunds[i]) == 0 {
      assert RowGood(OrdersOf(s), s.refunds[i]);
    }
    SumZero(s.refunds, OpenRow(order));
  }

  lemma {:induction false} PayKeepsCap(s: State, step: P.Step)
    requires RInv(s) && Capped(s)
    ensures Capped(Next(s, PayStep(step)))
  {
    hide P.Next, P.PInv, RInv;
    var t := Next(s, PayStep(step));
    Pay(s);
    forall o: Id | o < |OrdersOf(t)| ensures OpenSum(t.refunds, o) <= PaidBase(t.pay, o) {
      if o < |OrdersOf(s)| {
        PaidBaseGrows(s.pay, step, o);
      } else {
        NoRefundsYet(s, o);
      }
    }
  }

  lemma {:induction false} Pay(s: State)
    requires RInv(s)
    ensures P.PInv(s.pay)
  {
  }

  /** Changing one row moves its own order's open sum by the difference, and no other. */
  lemma {:induction false} RowMovesSum(refunds: seq<RefundRow>, id: nat, row: RefundRow, order: Id)
    requires id < |refunds| && row.order == refunds[id].order
    ensures OpenSum(refunds[id := row], order)
            == OpenSum(refunds, order) + (if row.order == order then OpenRow(order)(row)
                - OpenRow(order)(refunds[id]) else 0)
  {
    SumUpdate(refunds, id, row, OpenRow(order));
  }

  lemma {:induction false} SetRowKeepsCap(s: State, id: nat, row: RefundRow)
    requires Capped(s) && id < |s.refunds| && row.order == s.refunds[id].order
    requires row.amountCents == s.refunds[id].amountCents && (Open(row.status) ==> Open(s.refunds[id].status))
    requires s.refunds[id].amountCents >= 0
    ensures Capped(SetRow(s, id, row))
  {
    forall o | 0 <= o < |OrdersOf(s)| ensures OpenSum(s.refunds[id := row], o) <= PaidBase(s.pay, o) {
      RowMovesSum(s.refunds, id, row, o);
    }
  }

  /** A request is granted exactly within the headroom that is left. */
  lemma {:induction false} RequestExactly(s: State, order: Id, amount: int)
    requires order < |OrdersOf(s)| && Refundable(OrdersOf(s)[order].status) && amount > 0
    requires Capped(s)
    ensures Request(s, true, order, amount) != s <==> amount <= PaidBase(s.pay, order) - OpenSum(s.refunds, order)
    ensures Capped(Request(s, true, order, amount))
  {
    var row := RefundRow(order, amount, Requested, None);
    assert s.refunds + [row] != s.refunds;
    forall o ensures OpenSum(s.refunds + [row], o) == OpenSum(s.refunds, o) + (if o == order then amount else 0) {
      SumAppend(s.refunds, row, OpenRow(o));
    }
  }

  /** What a confirmation does to the cap: it replaces the requested amount by the confirmed one. */
  lemma {:induction false} CompletedSums(s: State, id: nat, c: Confirmation, order: Id)
    requires Completes(s, id, c)
    ensures var r := s.refunds[id];
            OpenSum(Complete(s, id, c).refunds, order)
            == OpenSum(s.refunds, order) + (if order == r.order then ConfirmedAmount(r, c) - r.amountCents else 0)
  {
    hide L.Post, RefundTxFor;
    var r := s.refunds[id];
    RowMovesSum(s.refunds, id, Complete(s, id, c).refunds[id], order);
  }

  lemma {:induction false} BasesStay(s: State, id: nat, c: Confirmation, order: Id)
    requires id < |s.refunds| && order < |OrdersOf(s)|
    ensures |OrdersOf(Complete(s, id, c))| == |OrdersOf(s)|
    ensures PaidBase(Complete(s, id, c).pay, order) == PaidBase(s.pay, order)
  {
    hide L.Post, RefundTxFor;
  }

  lemma {:induction false} CompleteKeepsCapExactly(s: State, id: nat, c: Confirmation)
    requires Capped(s) && Completes(s, id, c)
    ensures var r := s.refunds[id];
            Capped(Complete(s, id, c))
            <==> ConfirmedAmount(r, c) - r.amountCents <= PaidBase(s.pay, r.order) - OpenSum(s.refunds, r.order)
  {
    hide Complete;
    var t := Complete(s, id, c);
    forall o: Id | o < |OrdersOf(s)|
      ensures |OrdersOf(t)| == |OrdersOf(s)| && PaidBase(t.pay, o) == PaidBase(s.pay, o)
      ensures OpenSum(t.refunds, o) == OpenSum(s.refunds, o)
                + (if o == s.refunds[id].order then ConfirmedAmount(s.refunds[id], c)
                    - s.refunds[id].amountCents else 0)
    {
      BasesStay(s, id, c, o);
      CompletedSums(s, id, c, o);
    }
    var own: Id := s.refunds[id].order;
    BasesStay(s, id, c, own);
    CompletedSums(s, id, c, own);
  }

  /** Does the confirmation make its own row? */
  predicate Creates(s: State, c: Confirmation) {
    Lookup(s.refunds, c).None? && c.order.Some? && c.stripeId.Some? && c.order.value < |OrdersOf(s)|
  }

  function CreatedCents(c: Confirmation): int {
    if c.amountCents.Some? then c.amountCents.value else 0
  }

  function Headroom(s: State, order: Id): int
    requires order < |OrdersOf(s)|
  {
    PaidBase(s.pay, order) - OpenSum(s.refunds, order)
  }

  /** What the confirmation adds to its order's refunds fits the headroom it meets. */
  predicate Fits(s: State, c: Confirmation) {
    var found := Lookup(s.refunds, c);
    if found.Some? then
      Completes(s, found.value, c) ==>
        ConfirmedAmount(s.refunds[found.value], c) - s.refunds[found.value].amountCents
            <= Headroom(s, s.refunds[found.value].order)
    else Creates(s, c) ==> CreatedCents(c) <= Headroom(s, c.order.value)
  }

  /** A confirmation that makes its own row adds the whole amount to the order's refunds, completed or not. */
  lemma {:induction false} CreatedSums(s: State, c: Confirmation, order: Id)
    requires Creates(s, c) && order < |OrdersOf(s)|
    ensures |OrdersOf(Confirm(s, c))| == |OrdersOf(s)|
    ensures OpenSum(Confirm(s, c).refunds, order) == OpenSum(s.refunds, order)
              + (if order == c.order.value then CreatedCents(c) else 0)
    ensures PaidBase(Confirm(s, c).pay, order) == PaidBase(s.pay, order)
  {
    hide Complete, Completes, Lookup;
    var row := RefundRow(c.order.value, CreatedCents(c), ProviderRequested, c.stripeId);
    var t := s.(refunds := s.refunds + [row]);
    SumAppend(s.refunds, row, OpenRow(order));
    BasesStay(t, |s.refunds|, c, order);
    CreatedRow(s, c);
    if Completes(t, |s.refunds|, c) {
      CompletedSums(t, |s.refunds|, c, order);
    }
  }

  lemma {:induction false} CreatedRow(s: State, c: Confirmation)
    requires Creates(s, c)
    ensures var t := s.(refunds := s.refunds
              + [RefundRow(c.order.value, CreatedCents(c), ProviderRequested, c.stripeId)]);
            && Confirm(s, c) == Complete(t, |s.refunds|, c)
            && ConfirmedAmount(t.refunds[|s.refunds|], c) == CreatedCents(c)
            && (!Completes(t, |s.refunds|, c) ==> Complete(t, |s.refunds|, c) == t)
  {
  }

  /** The cap survives a confirmation, of a requested refund or one the provider started, exactly when it fits. */
  lemma {:induction false} ConfirmKeepsCapExactly(s: State, c: Confirmation)
    requires Capped(s)
    ensures Capped(Confirm(s, c)) <==> Fits(s, c)
  {
    hide Complete, PaidBase, OpenSum, Lookup;
    var found := Lookup(s.refunds, c);
    if found.Some? {
      if Completes(s, found.value, c) {
        CompleteKeepsCapExactly(s, found.value, c);
      } else {
        IncompleteStays(s, found.value, c);
      }
    } else if Creates(s, c) {
      var t := Confirm(s, c);
      forall o: Id | o < |OrdersOf(s)|
        ensures |OrdersOf(t)| == |OrdersOf(s)| && PaidBase(t.pay, o) == PaidBase(s.pay, o)
        ensures OpenSum(t.refunds, o) == OpenSum(s.refunds, o) + (if o == c.order.value then CreatedCents(c) else 0)
      {
        CreatedSums(s, c, o);
      }
      CreatedSums(s, c, c.order.value);
    }
  }

  lemma {:induction false} IncompleteStays(s: State, id: nat, c: Confirmation)
    requires id < |s.refunds| && !Completes(s, id, c)
    ensures Complete(s, id, c) == s
  {
  }

  /**
   * A `charge.refunded` event carries the whole charge as its amount: confirming one refund of an order
   * with it keeps the cap exactly when the order's other refunds fit what its other payments brought.
   */
  lemma {:induction false} WholeChargeConfirmation(s: State, id: nat, c: Confirmation, payment: nat)
    requires Capped(s) && Lookup(s.refunds, c) == Some(id) && Completes(s, id, c)
    requires payment < |s.pay.payments| && s.pay.payments[payment].order == s.refunds[id].order
    requires s.pay.payments[payment].amountCents > 0 && c.amountCents == Some(s.pay.payments[payment].amountCents)
    ensures var order := s.refunds[id].order;
            Capped(Confirm(s, c))
            <==> OpenSum(s.refunds, order) - s.refunds[id].amountCents <= PaidBase(s.pay, order)
                 - s.pay.payments[payment].amountCents
  {
    ConfirmKeepsCapExactly(s, c);
  }

  // -------------------------------------------------------------------- runs

  predicate StepFits(s: State, step: Step) {
    step.ConfirmStep? ==> Fits(s, step.confirmation)
  }

  predicate FitsRun(s: State, steps: seq<Step>) {
    |steps| == 0 || (FitsRun(s, steps[..|steps| - 1]) && StepFits(Run(s, steps[..|steps| - 1]), steps[|steps| - 1]))
  }

  /** Refunds that can still be decided were requested, and for something. */
  predicate RequestsPositive(refunds: seq<RefundRow>) {
    forall i :: 0 <= i < |refunds| && (refunds[i].status.Requested? || refunds[i].status.Approved?) ==>
        refunds[i].amountCents > 0
  }

  lemma {:induction false} StepKeepsPositive(s: State, step: Step)
    requires RequestsPositive(s.refunds)
    ensures RequestsPositive(Next(s, step).refunds)
  {
    hide P.Next, PaidBase, OpenSum, Lookup, RefundTxFor, StatusAfterRefund;
  }

  /** A step keeps the cap exactly when it is no confirmation, or one that fits. */
  lemma {:induction false} StepKeepsCapExactly(s: State, step: Step)
    requires RInv(s) && Capped(s) && RequestsPositive(s.refunds)
    ensures Capped(Next(s, step)) <==> StepFits(s, step)
  {
    hide RInv, Capped, P.Next, Confirm, Fits;
    match step
    case PayStep(st) => PayKeepsCap(s, st);
    case RequestStep(mayAct, order, amount) =>
      if Request(s, mayAct, order, amount) != s {
        RequestExactly(s, order, amount);
      }
    case ApproveStep(id) =>
      if Approve(s, id) != s {
        SetRowKeepsCap(s, id, s.refunds[id].(status := Approved));
      }
    case RejectStep(id) =>
      if Reject(s, id) != s {
        SetRowKeepsCap(s, id, s.refunds[id].(status := Rejected));
      }
    case ProviderStep(id, side) =>
      if RequestProvider(s, id, side) != s {
        SetRowKeepsCap(s, id, RequestProvider(s, id, side).refunds[id]);
      }
    case ConfirmStep(c) => ConfirmKeepsCapExactly(s, c);
  }

  lemma {:induction false} StartCapped(s: State)
    requires Start(s)
    ensures Capped(s) && RequestsPositive(s.refunds)
  {
  }

  lemma {:induction false} RunCapped(s: State, steps: seq<Step>)
    requires Start(s)
    ensures RInv(Run(s, steps)) && RequestsPositive(Run(s, steps).refunds)
    ensures FitsRun(s, steps) ==> Capped(Run(s, steps))
  {
    hide RInv, Next, StepFits, Capped, RequestsPositive;
    RunKeeps(s, steps);
    if |steps| == 0 {
      StartCapped(s);
    } else {
      var mid := Run(s, steps[..|steps| - 1]);
      RunCapped(s, steps[..|steps| - 1]);
      StepKeepsPositive(mid, steps[|steps| - 1]);
      if FitsRun(s, steps) {
        StepKeepsCapExactly(mid, steps[|steps| - 1]);
      }
    }
  }

  /**
   * The cap over every run whose confirmations fit the headroom they meet: the refunds of an order that
   * are requested, under way or completed never exceed its paid base.
   */
  lemma {:induction false} RefundsWithinPaid(s: State, steps: seq<Step>, order: Id)
    requires Start(s) && FitsRun(s, steps) && order < |OrdersOf(Run(s, steps))|
    ensures OpenSum(Run(s, steps).refunds, order) <= PaidBase(Run(s, steps).pay, order)
  {
    RunCapped(s, steps);
  }

  /** And no other run keeps it: the cap holds all along exactly when every confirmation fits. */
  lemma {:induction false} RefundsWithinPaidExactly(s: State, steps: seq<Step>)
    requires Start(s)
    ensures FitsRun(s, steps) <==> forall n: nat :: n <= |steps| ==> Capped(Run(s, steps[..n]))
  {
    hide RInv, Next, StepFits, Capped, RequestsPositive;
    if |steps| == 0 {
      StartCapped(s);
      assert steps[..0] == steps;
    } else {
      var last := |steps| - 1;
      var before := steps[..last];
      RefundsWithinPaidExactly(s, before);
      forall n: nat | n <= last ensures steps[..n] == before[..n] {
      }
      assert steps[..|steps|] == steps;
      RunCapped(s, before);
      if FitsRun(s, before) {
        StepKeepsCapExactly(Run(s, before), steps[last]);
      }
    }
  }

  /** Confirming a requested refund for no more than was requested always fits. */
  lemma {:induction false} WithinRequestFits(s: State, c: Confirmation)
    requires Capped(s) && Lookup(s.refunds, c).Some?
    requires c.amountCents.Some? ==> c.amountCents.value <= Max(0, s.refunds[Lookup(s.refunds, c).value].amountCents)
    ensures Fits(s, c)
  {
    hide Lookup, PaidBase, OpenSum;
  }
}
