/** A run of the whole marketplace in which a whole-charge event takes an order's refunds over what was paid for it. */
module RefundExhibit {
  import opened Common
  import opened Sums
  import opened OrderMachine
  import opened CartSplit
  import opened Refunds
  import opened RefundRuns
  import opened RefundCap
  import O = Orders
  import P = Payments
  import T = Tax
  import Inv = Inventory
  import Runs = InventoryRuns

  /** One shop, one product at 100 cents with one unit, no tax, no warehouse, no shipping. */
  const CATALOG := O.Catalog(_ => 0, _ => 100, _ => true)

  const TERMS := Terms(T.Rates(_ => T.NoOwnRate, None, None), _ => None, 0)

  const UNIT := Inv.State(map[0 := Inv.Product(1, 0)], [], [])

  const HELD := Inv.State(map[0 := Inv.Product(1, 1)], [],
      [Inv.Reservation(0, 0, None, 1, Inv.Active, O.RESERVATION_TTL)])

  const LINE := OrderLine(Some(0), None, 1, 100, 100, 0)

  const ORDER := Order(0, PendingPayment, [LINE], 100, 0, 10, 0, 100)

  const SHELF := O.Market(UNIT, [], [], map[0 := [O.CartRow(0, 1)]])

  const START := State(P.State(SHELF, [], map[], []), [])

  const INTENT := P.Intent(7, Some(0), Some(100), true)

  const CHARGE := Confirmation(Some(0), Some(9), Some(0), Some(100))

  // --------------------------------------------------------------- checkout

  lemma {:induction false} OrderBuilt()
    ensures O.OrdersFor([O.CartRow(0, 1)], CATALOG, TERMS) == [ORDER]
  {
    var rows := [O.CartRow(0, 1)];
    var item := CartItem(0, 0, 100, 1);
    assert O.Resolve(rows, CATALOG) == [item];
    OneItemGroup(item);
    OneItemOrder(item);
  }

  lemma {:induction false} OneItemGroup(item: CartItem)
    ensures ShopsOf([item]) == [item.shop] && GroupOf([item], item.shop) == [item]
  {
    assert [item][..0] == [];
  }

  lemma {:induction false} OneItemOrder(item: CartItem)
    requires item == CartItem(0, 0, 100, 1)
    ensures BuildOrder(0, [item], 0, TERMS) == ORDER
  {
    var results := T.LineResults(TaxInputs([item]), TERMS.rates);
    assert results == [T.TaxLineResult(0, 100, 0)];
    SumOne(item, Goods());
    SumOne(results[0], T.TaxOf());
    assert TaxByProduct(results, 0) == Some(results[0]);
    assert LinesOf([item], None, results) == [LINE];
  }

  lemma {:induction false} UnitReserved()
    ensures Inv.Inv(UNIT) && Inv.GetAvailable(UNIT, 0, 0).available == 1 && Inv.TotalAvailable(UNIT, 0) == 1
    ensures Inv.Reserve(UNIT, 0, 1, 0, None, 0, O.RESERVATION_TTL) == Success(HELD)
    ensures Runs.TameReserve(UNIT, 0, 1, None, 0)
  {
    assert Inv.ExpireStale(UNIT.reservations, 0, 0) == [];
    var t := Inv.Reserve(UNIT, 0, 1, 0, None, 0, O.RESERVATION_TTL).value;
    assert t.products == HELD.products;
    assert t.reservations == HELD.reservations;
  }

  /** The unit can be confirmed. */
  lemma {:induction false} UnitConfirmable()
    ensures Inv.Confirm(HELD, 0).Success?
  {
    UnitReserved();
    hide Inv.Inv, Inv.Reserve, Runs.TameReserve;
    Runs.ReserveExactly(UNIT, 0, 1, 0, None, 0, O.RESERVATION_TTL);
    Runs.ConfirmTakesExactly(HELD, 0);
  }

  function Ordered(): O.Market {
    O.Market(HELD, [ORDER], [O.HistoryRow(0, None, PendingPayment)], map[0 := []])
  }

  lemma {:induction false} CheckedOut()
    ensures O.Checkout(SHELF, 0, CATALOG, TERMS, 0) == Success(Ordered())
  {
    OrderBuilt();
    UnitReserved();
    OrderPlaced();
    hide O.PlaceOrder, O.OrdersFor;
    var rows := [O.CartRow(0, 1)];
    assert O.CartOf(SHELF, 0) == rows;
    assert rows[..0] == [];
    assert O.CartObjection(SHELF, rows, CATALOG) == None;
    assert [ORDER][..0] == [];
    assert O.PlaceOrders(SHELF, [ORDER], 0) == O.PlaceOrder(SHELF, ORDER, 0);
    assert SHELF.carts[0 := []] == Ordered().carts;
  }

  lemma {:induction false} OrderPlaced()
    ensures O.PlaceOrder(SHELF, ORDER, 0)
              == Success(SHELF.(inv := HELD, orders := [ORDER], history := Ordered().history))
  {
    UnitReserved();
    hide Inv.Reserve;
    var lines := [LINE];
    assert lines[..0] == [];
    assert O.ReserveLines(UNIT, 0, lines, 0) == Success(HELD);
    assert SHELF.orders + [ORDER] == [ORDER];
    assert SHELF.history + Ordered().history == Ordered().history;
  }

  // ---------------------------------------------------------------- payment

  function Row(status: P.PaymentStatus): P.PaymentRow {
    P.PaymentRow(0, P.Stripe, 7, status, 100, 1)
  }

  /** The state before the payment is delivered. */
  function Awaiting(): P.State {
    P.State(Ordered(), [Row(P.Pending)], map[], [])
  }

  lemma {:induction false} PaymentCreated()
    ensures P.Next(P.Next(START.pay, P.MarketStep(O.CheckoutStep(0, CATALOG, TERMS, 0))),
              P.CreateStep(0, P.Stripe, 7, 1)) == Awaiting()
  {
    CheckedOut();
    hide O.Checkout;
    var s := P.Next(START.pay, P.MarketStep(O.CheckoutStep(0, CATALOG, TERMS, 0)));
    assert s == START.pay.(market := Ordered());
    assert [] + [Row(P.Pending)] == [Row(P.Pending)];
  }

  lemma {:induction false} AwaitingFound()
    ensures P.FindPayment(Awaiting().payments, INTENT) == Some(0)
  {
    var payments := Awaiting().payments;
    assert P.ByIntent(payments[..0], 7) == None;
  }

  lemma {:induction false} Paid()
    requires P.PInv(Awaiting())
    ensures var t := P.Next(Awaiting(), P.DeliverStep(5, P.IntentSucceeded(INTENT), P.NoCrash));
            && t.payments == [Row(P.Succeeded)] && |t.market.orders| == 1
            && t.market.orders[0].status.Paid? && t.market.orders[0].totalCents == 100
  {
    AwaitingFound();
    UnitConfirmable();
    hide P.Next, P.PInv, P.FindPayment, P.Deliver, Inv.Confirm;
    var s := Awaiting();
    P.DeliveryPaysExactly(s, 5, INTENT);
    AsStep(s);
    P.StepMoves(s, P.DeliverStep(5, P.IntentSucceeded(INTENT), P.NoCrash));
    SettledRow(s);
  }

  lemma {:induction false} AsStep(s: P.State)
    ensures P.Next(s, P.DeliverStep(5, P.IntentSucceeded(INTENT), P.NoCrash))
              == P.Deliver(s, 5, P.IntentSucceeded(INTENT), P.NoCrash)
  {
    hide P.Deliver;
  }

  lemma {:induction false} SettledRow(s: P.State)
    requires s == Awaiting() && P.FindPayment(s.payments, INTENT) == Some(0)
    ensures var t := P.Next(s, P.DeliverStep(5, P.IntentSucceeded(INTENT), P.NoCrash));
            t.payments[0].status.Succeeded? ==> t.payments == [Row(P.Succeeded)]
  {
    hide O.MarkPaid, P.L.Post;
    assert s.payments[0 := Row(P.Succeeded)] == [Row(P.Succeeded)];
  }

  // ---------------------------------------------------------------- refunds

  function PaySteps(): seq<Step> {
    [PayStep(P.MarketStep(O.CheckoutStep(0, CATALOG, TERMS, 0))), PayStep(P.CreateStep(0, P.Stripe, 7, 1)),
     PayStep(P.DeliverStep(5, P.IntentSucceeded(INTENT), P.NoCrash))]
  }

  function RefundSteps(): seq<Step> {
    [RequestStep(true, 0, 40), RequestStep(true, 0, 60), ApproveStep(0),
        ProviderStep(0, ProviderSide(false, true, Some(9)))]
  }

  lemma {:induction false} RunSnoc(s: State, steps: seq<Step>, step: Step)
    ensures Run(s, steps + [step]) == Next(Run(s, steps), step)
  {
    assert (steps + [step])[..|steps|] == steps;
  }

  lemma {:induction false} RunThree(s: State, a: Step, b: Step, c: Step)
    ensures Run(s, [a, b, c]) == Next(Next(Next(s, a), b), c)
  {
    hide Next;
    assert [a] == [] + [a] && [a, b] == [a] + [b] && [a, b, c] == [a, b] + [c];
    RunSnoc(s, [], a);
    RunSnoc(s, [a], b);
    RunSnoc(s, [a, b], c);
  }

  lemma {:induction false} RunFour(s: State, steps: seq<Step>, a: Step, b: Step, c: Step, d: Step)
    ensures Run(s, steps + [a, b, c, d]) == Next(Next(Next(Next(Run(s, steps), a), b), c), d)
  {
    hide Next;
    assert steps + [a, b, c, d] == (((steps + [a]) + [b]) + [c]) + [d];
    RunSnoc(s, steps, a);
    RunSnoc(s, steps + [a], b);
    RunSnoc(s, steps + [a] + [b], c);
    RunSnoc(s, steps + [a] + [b] + [c], d);
  }

  predicate PaidInFull(s: P.State) {
    && s.payments == [Row(P.Succeeded)] && |s.market.orders| == 1
    && s.market.orders[0].status.Paid? && s.market.orders[0].totalCents == 100
  }

  lemma {:induction false} AfterPayment()
    ensures Start(START) && PaidInFull(Run(START, PaySteps()).pay) && Run(START, PaySteps()).refunds == []
  {
    PaymentCreated();
    RunThree(START, PaySteps()[0], PaySteps()[1], PaySteps()[2]);
    hide P.Next, P.PInv;
    assert Next(Next(START, PaySteps()[0]), PaySteps()[1]).pay == Awaiting();
    P.RunKeepsInv(START.pay, []);
    P.StepKeepsInv(START.pay, PaySteps()[0].step);
    P.StepKeepsInv(P.Next(START.pay, PaySteps()[0].step), PaySteps()[1].step);
    Paid();
  }

  lemma {:induction false} RefundsRequested(s: State)
    requires PaidInFull(s.pay) && s.refunds == []
    ensures var t := Next(Next(Next(Next(s, RefundSteps()[0]), RefundSteps()[1]), RefundSteps()[2]), RefundSteps()[3]);
            t == State(s.pay, [RefundRow(0, 40, ProviderRequested, Some(9)), RefundRow(0, 60, Requested, None)])
  {
    SumOne(s.pay.payments[0], PaidRow(0));
    assert PaidBase(s.pay, 0) == 100;
    var first := RefundRow(0, 40, Requested, None);
    var s1 := Next(s, RefundSteps()[0]);
    assert s1.refunds == [first];
    SumOne(first, OpenRow(0));
    var s2 := Next(s1, RefundSteps()[1]);
    assert s2.refunds == [first, RefundRow(0, 60, Requested, None)];
    var s3 := Next(s2, RefundSteps()[2]);
    assert s3.refunds == [first.(status := Approved), RefundRow(0, 60, Requested, None)];
    assert HasStripePayment(s.pay.payments, 0) by {
      assert s.pay.payments[0].provider.Stripe?;
    }
    var s4 := Next(s3, RefundSteps()[3]);
    assert s4.refunds == [RefundRow(0, 40, ProviderRequested, Some(9)), RefundRow(0, 60, Requested, None)];
  }

  lemma {:induction false} ChargeDoesNotFit(t: State)
    requires PaidInFull(t.pay) && t.refunds
               == [RefundRow(0, 40, ProviderRequested, Some(9)), RefundRow(0, 60, Requested, None)]
    ensures !Fits(t, CHARGE)
  {
    SumOne(t.pay.payments[0], PaidRow(0));
    SumTwo(t.refunds[0], t.refunds[1], OpenRow(0));
    assert PaidBase(t.pay, 0) == 100 && OpenSum(t.refunds, 0) == 100;
  }

  /**
   * Buy for 100 cents, pay, ask for 40 and 60 back, have the 40 approved and sent to the provider, and
   * receive the charge's refund event with its 100: every refund was within the cap, and now they are not.
   */
  lemma {:induction false} WholeChargeBreaksCap()
    ensures var steps := PaySteps() + RefundSteps();
            && Start(START)
            && Capped(Run(START, steps))
            && !Capped(Run(START, steps + [ConfirmStep(CHARGE)]))
  {
    hide Next, P.Next, Confirm, Capped, Fits, RInv;
    var steps := PaySteps() + RefundSteps();
    AfterPayment();
    var paid := Run(START, PaySteps());
    RunFour(START, PaySteps(), RefundSteps()[0], RefundSteps()[1], RefundSteps()[2], RefundSteps()[3]);
    assert RefundSteps() == [RefundSteps()[0], RefundSteps()[1], RefundSteps()[2], RefundSteps()[3]];
    RefundsRequested(paid);
    NoConfirmationsFit(START, steps);
    RunCapped(START, steps);
    RunSnoc(START, steps, ConfirmStep(CHARGE));
    ChargeDoesNotFit(Run(START, steps));
    StepKeepsCapExactly(Run(START, steps), ConfirmStep(CHARGE));
  }

  lemma {:induction false} NoConfirmationsFit(s: State, steps: seq<Step>)
    requires forall i :: 0 <= i < |steps| ==> !steps[i].ConfirmStep?
    ensures FitsRun(s, steps)
  {
    hide Next;
    if |steps| == 0 {
    } else {
      NoConfirmationsFit(s, steps[..|steps| - 1]);
    }
  }

  // --------------------------------------------------------------- two halves

  function Half(status: RefundStatus, stripeId: Option<Id>): RefundRow {
    RefundRow(0, 50, status, stripeId)
  }

  function HalfSteps(): seq<Step> {
    [RequestStep(true, 0, 50), ApproveStep(0), ProviderStep(0, ProviderSide(false, true, Some(9))),
     ConfirmStep(Confirmation(Some(0), Some(9), None, None))]
  }

  function OtherHalfSteps(): seq<Step> {
    [RequestStep(true, 0, 50), ApproveStep(1), ProviderStep(1, ProviderSide(false, true, Some(10))),
     ConfirmStep(Confirmation(Some(1), Some(10), None, None))]
  }

  /** Paid, perhaps partly refunded. */
  predicate Refundable100(s: P.State) {
    && s.payments == [Row(P.Succeeded)] && |s.market.orders| == 1
    && (s.market.orders[0].status.Paid? || s.market.orders[0].status.PartiallyRefunded?)
    && s.market.orders[0].totalCents == 100
  }

  /** Half of the order is asked for, approved, and on its way. */
  lemma {:induction false} HalfOnItsWay(s: State, done: seq<RefundRow>, stripeId: Id)
    requires Refundable100(s.pay) && s.refunds == done
    requires done == [] || (done == [Half(RefundStatus.Completed, Some(9))] && stripeId == 10)
    ensures var n := |done|;
            var t := Next(Next(Next(s, RequestStep(true, 0, 50)), ApproveStep(n)),
                          ProviderStep(n, ProviderSide(false, true, Some(stripeId))));
            t == State(s.pay, done + [Half(ProviderRequested, Some(stripeId))])
  {
    SumOne(s.pay.payments[0], PaidRow(0));
    assert PaidBase(s.pay, 0) == 100;
    if |done| == 1 {
      SumOne(done[0], OpenRow(0));
    }
    assert OpenSum(s.refunds, 0) <= 50;
    var n := |done|;
    var s1 := Next(s, RequestStep(true, 0, 50));
    assert s1.refunds == done + [Half(Requested, None)];
    var s2 := Next(s1, ApproveStep(n));
    assert s2.refunds == done + [Half(Approved, None)];
    assert HasStripePayment(s.pay.payments, 0) by {
      assert s.pay.payments[0].provider.Stripe?;
    }
    assert !IdTaken(s2.refunds, n, Some(stripeId));
    assert s2.refunds[n := Half(ProviderRequested, Some(stripeId))] == done + [Half(ProviderRequested, Some(stripeId))];
  }

  /** The provider confirms it. */
  lemma {:induction false} HalfConfirmed(s: State, done: seq<RefundRow>, stripeId: Id)
    requires Refundable100(s.pay) && s.refunds == done + [Half(ProviderRequested, Some(stripeId))]
    requires done == [] || (done == [Half(RefundStatus.Completed, Some(9))] && stripeId == 10)
    ensures var t := Next(s, ConfirmStep(Confirmation(Some(|done|), Some(stripeId), None, None)));
            && t.refunds == done + [Half(RefundStatus.Completed, Some(stripeId))]
            && Refundable100(t.pay) && t.pay.market.orders[0].status.PartiallyRefunded?
  {
    hide P.L.Post, RefundTxFor;
    var n := |done|;
    assert !IdTaken(s.refunds, n, Some(stripeId));
    assert s.refunds[n := Half(RefundStatus.Completed, Some(stripeId))]
        == done + [Half(RefundStatus.Completed, Some(stripeId))];
  }

  /**
   * Two refunds of 50 cents return the whole of a 100-cent order, and the order stays PARTIALLY_REFUNDED: no
   * single refund covers it.
   */
  lemma {:induction false} TwoHalvesStayPartial()
    ensures var t := Run(START, PaySteps() + HalfSteps() + OtherHalfSteps());
            && Start(START)
            && t.refunds == [Half(RefundStatus.Completed, Some(9)), Half(RefundStatus.Completed, Some(10))]
            && |OrdersOf(t)| == 1 && OrdersOf(t)[0].totalCents == 100
            && OrdersOf(t)[0].status.PartiallyRefunded?
  {
    hide Next, P.Next;
    AfterPayment();
    var paid := Run(START, PaySteps());
    var h, o := HalfSteps(), OtherHalfSteps();
    RunFour(START, PaySteps(), h[0], h[1], h[2], h[3]);
    assert h == [h[0], h[1], h[2], h[3]];
    var half := Run(START, PaySteps() + h);
    HalfOnItsWay(paid, [], 9);
    assert [] + [Half(ProviderRequested, Some(9))] == [Half(ProviderRequested, Some(9))];
    HalfConfirmed(State(paid.pay, [Half(ProviderRequested, Some(9))]), [], 9);
    RunFour(START, PaySteps() + h, o[0], o[1], o[2], o[3]);
    assert o == [o[0], o[1], o[2], o[3]];
    var done := [Half(RefundStatus.Completed, Some(9))];
    HalfOnItsWay(half, done, 10);
    HalfConfirmed(State(half.pay, done + [Half(ProviderRequested, Some(10))]), done, 10);
  }
}
