/** Requests for quotation: merchants offer, the buyer awards one offer, and the award becomes one order. */
module Rfq {
  import opened Common
  import opened Sums
  import opened OrderMachine
  import opened CartSplit

  datatype RfqStatus = Draft | Open | Matched | Quoted | Awarded | Closed | RfqCancelled

  datatype OfferStatus = OfferPending | Accepted | OfferRejected

  datatype Line = Line(item: Id, unitPriceCents: nat, quantity: nat)

  /** Offers, requests and orders are identified by their positions. */
  datatype Offer = Offer(rfq: Id, shop: Id, status: OfferStatus, totalCents: nat, lines: seq<Line>)

  datatype Request = Request(buyer: Id, status: RfqStatus, items: set<Id>, deadline: Option<Time>,
      awardedOffer: Option<Id>)

  datatype RfqOrder = RfqOrder(rfq: Id, offer: Id, order: Order)

  datatype State = State(requests: seq<Request>, offers: seq<Offer>, orders: seq<RfqOrder>)

  // ------------------------------------------------------------- operations

  predicate OpenForOffers(status: RfqStatus) {
    status.Open? || status.Matched? || status.Quoted?
  }

  predicate Closable(status: RfqStatus) {
    OpenForOffers(status) || status.Awarded?
  }

  predicate Shut(status: RfqStatus) {
    status.Closed? || status.RfqCancelled?
  }

  function Create(s: State, buyer: Id, items: set<Id>, deadline: Option<Time>, matched: bool): State {
    s.(requests := s.requests + [Request(buyer, if matched then Matched else Open, items, deadline, None)])
  }

  function LineCents(): Line -> int {
    (l: Line) => l.unitPriceCents * l.quantity
  }

  function TotalOf(lines: seq<Line>): nat {
    SumNat(lines, LineCents())
  }

  function OfferOf(offers: seq<Offer>, rfq: Id, shop: Id): (r: Option<nat>)
    ensures r.Some? ==> r.value < |offers| && offers[r.value].rfq == rfq && offers[r.value].shop == shop
    ensures r.None? ==> forall i :: 0 <= i < |offers| ==> !(offers[i].rfq == rfq && offers[i].shop == shop)
  {
    if |offers| == 0 then None
    else
      var n := |offers| - 1;
      if offers[n].rfq == rfq && offers[n].shop == shop then Some(n) else OfferOf(offers[..n], rfq, shop)
  }

  /** Each line is for another item of the request (the table allows one line per offer and item). */
  predicate LinesFit(lines: seq<Line>, items: set<Id>) {
    && (forall i :: 0 <= i < |lines| ==> lines[i].item in items)
    && (forall i, j :: 0 <= i < j < |lines| ==> lines[i].item != lines[j].item)
  }

  predicate TakesOffers(r: Request, now: Time) {
    OpenForOffers(r.status) && (r.deadline.Some? ==> r.deadline.value >= now)
  }

  function SetRequest(s: State, rfq: Id, r: Request): State
    requires rfq < |s.requests|
  {
    s.(requests := s.requests[rfq := r])
  }

  /** `createOffer`: one offer per request and shop; offering again replaces it and makes it pending. */
  function CreateOffer(s: State, shop: Option<Id>, rfq: Id, lines: seq<Line>, now: Time): State {
    if shop.None? || rfq >= |s.requests| || !TakesOffers(s.requests[rfq], now)
        || !LinesFit(lines, s.requests[rfq].items) then s
    else
      var offer := Offer(rfq, shop.value, OfferPending, TotalOf(lines), lines);
      var existing := OfferOf(s.offers, rfq, shop.value);
      SetRequest(s, rfq, s.requests[rfq].(status := Quoted))
        .(offers := if existing.Some? then s.offers[existing.value := offer] else s.offers + [offer])
  }

  function OrderLines(lines: seq<Line>, totalCents: nat): seq<OrderLine> {
    if |lines| > 0 then
      seq(|lines|, i requires 0 <= i < |lines| =>
        OrderLine(None, None, lines[i].quantity, lines[i].unitPriceCents,
            lines[i].unitPriceCents * lines[i].quantity, 0))
    else [OrderLine(None, None, 1, totalCents, totalCents, 0)]
  }

  function OrderFor(o: Offer): Order {
    Order(o.shop, PendingPayment, OrderLines(o.lines, o.totalCents),
          o.totalCents, 0, RoundDiv(o.totalCents * COMMISSION_BPS, 10000), 0, o.totalCents)
  }

  /** Pending offers of the request are rejected, all but the accepted one. */
  function Decide(offers: seq<Offer>, rfq: Id, accepted: Option<Id>): (r: seq<Offer>)
    ensures |r| == |offers|
    ensures forall i :: 0 <= i < |offers| ==>
              r[i] == if accepted == Some(i) then offers[i].(status := Accepted)
                      else if offers[i].rfq == rfq && offers[i].status.OfferPending?
                          then offers[i].(status := OfferRejected)
                      else offers[i]
  {
    seq(|offers|, i requires 0 <= i < |offers| =>
      if accepted == Some(i) then offers[i].(status := Accepted)
      else if offers[i].rfq == rfq && offers[i].status.OfferPending? then offers[i].(status := OfferRejected)
      else offers[i])
  }

  predicate Awardable(s: State, rfq: Id, offer: Id) {
    && rfq < |s.requests| && OpenForOffers(s.requests[rfq].status)
    && offer < |s.offers| && s.offers[offer].rfq == rfq && s.offers[offer].status.OfferPending?
  }

  function Award(s: State, mayAct: bool, rfq: Id, offer: Id): State {
    if !mayAct || !Awardable(s, rfq, offer) then s
    else State(s.requests[rfq := s.requests[rfq].(status := Awarded, awardedOffer := Some(offer))],
               Decide(s.offers, rfq, Some(offer)),
               s.orders + [RfqOrder(rfq, offer, OrderFor(s.offers[offer]))])
  }

  /** The buyer turns down a single offer. */
  function RejectOffer(s: State, mayAct: bool, rfq: Id, offer: Id): State {
    if !mayAct || offer >= |s.offers| || s.offers[offer].rfq != rfq || rfq >= |s.requests|
       || !s.offers[offer].status.OfferPending? || Shut(s.requests[rfq].status) then s
    else s.(offers := s.offers[offer := s.offers[offer].(status := OfferRejected)])
  }

  function Close(s: State, mayAct: bool, rfq: Id): State {
    if !mayAct || rfq >= |s.requests| || !Closable(s.requests[rfq].status) then s
    else SetRequest(s, rfq, s.requests[rfq].(status := Closed)).(offers := Decide(s.offers, rfq, None))
  }

  datatype Step =
    | CreateStep(buyer: Id, items: set<Id>, deadline: Option<Time>, matched: bool)
    | OfferStep(shop: Option<Id>, rfq: Id, lines: seq<Line>, now: Time)
    | AwardStep(mayAct: bool, rfq: Id, offer: Id)
    | RejectStep(mayAct: bool, rfq: Id, offer: Id)
    | CloseStep(mayAct: bool, rfq: Id)

  function Next(s: State, step: Step): State {
    match step
    case CreateStep(buyer, items, deadline, matched) => Create(s, buyer, items, deadline, matched)
    case OfferStep(shop, rfq, lines, now) => CreateOffer(s, shop, rfq, lines, now)
    case AwardStep(mayAct, rfq, offer) => Award(s, mayAct, rfq, offer)
    case RejectStep(mayAct, rfq, offer) => RejectOffer(s, mayAct, rfq, offer)
    case CloseStep(mayAct, rfq) => Close(s, mayAct, rfq)
  }

  function Run(s: State, steps: seq<Step>): State {
    if |steps| == 0 then s else Next(Run(s, steps[..|steps| - 1]), steps[|steps| - 1])
  }

  function Start(): State {
    State([], [], [])
  }

  // -------------------------------------------------------------- invariant

  /** An offer belongs to a request, adds up, and is accepted or pending only as its request says. */
  predicate OfferGood(requests: seq<Request>, o: Offer, i: Id) {
    && o.rfq < |requests| && o.totalCents == TotalOf(o.lines)
    && (o.status.Accepted? <==> requests[o.rfq].awardedOffer == Some(i))
    && (o.status.OfferPending? ==> OpenForOffers(requests[o.rfq].status))
  }

  predicate RequestGood(offers: seq<Offer>, r: Request, id: Id) {
    && (r.status.Awarded? ==> r.awardedOffer.Some?)
    && (r.awardedOffer.Some? ==> (r.status.Awarded? || r.status.Closed?)
                                 && r.awardedOffer.value < |offers| && offers[r.awardedOffer.value].rfq == id)
  }

  predicate OrderGood(s: State, o: RfqOrder) {
    && o.rfq < |s.requests| && o.offer < |s.offers| && s.requests[o.rfq].awardedOffer == Some(o.offer)
    && o.order == OrderFor(s.offers[o.offer])
  }

  function OfRequest(rfq: Id): RfqOrder -> int {
    (o: RfqOrder) => if o.rfq == rfq then 1 else 0
  }

  predicate Ordered(s: State, rfq: Id)
    requires rfq < |s.requests|
  {
    Sum(s.orders, OfRequest(rfq)) == if s.requests[rfq].awardedOffer.Some? then 1 else 0
  }

  predicate OnePerShop(offers: seq<Offer>) {
    forall i, j :: 0 <= i < j < |offers| ==> !(offers[i].rfq == offers[j].rfq && offers[i].shop == offers[j].shop)
  }

  predicate QInv(s: State) {
    && (forall i :: 0 <= i < |s.offers| ==> OfferGood(s.requests, s.offers[i], i))
    && OnePerShop(s.offers)
    && (forall r :: 0 <= r < |s.requests| ==> RequestGood(s.offers, s.requests[r], r))
    && (forall k :: 0 <= k < |s.orders| ==> OrderGood(s, s.orders[k]))
    && (forall r :: 0 <= r < |s.requests| ==> Ordered(s, r))
  }

  // ------------------------------------------------------------------ steps

  lemma {:induction false} CreateKeeps(s: State, buyer: Id, items: set<Id>, deadline: Option<Time>, matched: bool)
    requires QInv(s)
    ensures QInv(Create(s, buyer, items, deadline, matched))
  {
    hide TotalOf, OrderFor;
    var t := Create(s, buyer, items, deadline, matched);
    forall i | 0 <= i < |t.offers| ensures OfferGood(t.requests, t.offers[i], i) {
      assert OfferGood(s.requests, s.offers[i], i);
    }
    forall k | 0 <= k < |t.orders| ensures OrderGood(t, t.orders[k]) {
      assert OrderGood(s, s.orders[k]);
    }
    forall r | 0 <= r < |t.requests| ensures Ordered(t, r) && RequestGood(t.offers, t.requests[r], r) {
      if r < |s.requests| {
        assert Ordered(s, r) && RequestGood(s.offers, s.requests[r], r);
      } else {
        SumZero(s.orders, OfRequest(r));
      }
    }
  }

  lemma {:induction false} OfferKeeps(s: State, shop: Option<Id>, rfq: Id, lines: seq<Line>, now: Time)
    requires QInv(s)
    ensures QInv(CreateOffer(s, shop, rfq, lines, now))
  {
    hide TotalOf, OrderFor, LinesFit;
    var t := CreateOffer(s, shop, rfq, lines, now);
    if t != s {
      assert RequestGood(s.offers, s.requests[rfq], rfq);
      OfferFits(s, shop, rfq, lines, now);
      hide OnePerShop, OfferGood;
      forall r | 0 <= r < |t.requests| ensures Ordered(t, r) && RequestGood(t.offers, t.requests[r], r) {
        assert Ordered(s, r) && RequestGood(s.offers, s.requests[r], r);
      }
    }
  }

  lemma {:induction false} OfferFits(s: State, shop: Option<Id>, rfq: Id, lines: seq<Line>, now: Time)
    requires QInv(s) && CreateOffer(s, shop, rfq, lines, now) != s
    ensures var t := CreateOffer(s, shop, rfq, lines, now);
            && OnePerShop(t.offers)
            && (forall i :: 0 <= i < |t.offers| ==> OfferGood(t.requests, t.offers[i], i))
            && (forall k :: 0 <= k < |t.orders| ==> OrderGood(t, t.orders[k]))
  {
    hide TotalOf, OrderFor, LinesFit, Ordered;
    var t := CreateOffer(s, shop, rfq, lines, now);
    assert RequestGood(s.offers, s.requests[rfq], rfq);
    forall i | 0 <= i < |t.offers| ensures OfferGood(t.requests, t.offers[i], i) {
      if i < |s.offers| {
        assert OfferGood(s.requests, s.offers[i], i);
      }
    }
    forall k | 0 <= k < |t.orders| ensures OrderGood(t, t.orders[k]) {
      assert OrderGood(s, s.orders[k]);
    }
  }

  /** An award leaves the offers of other requests alone, and settles all of its own. */
  lemma {:induction false} AwardSettlesOffers(s: State, rfq: Id, offer: Id)
    requires QInv(s) && Awardable(s, rfq, offer)
    ensures var t := Award(s, true, rfq, offer);
            forall i :: 0 <= i < |t.offers| ==> OfferGood(t.requests, t.offers[i], i)
  {
    hide TotalOf, OrderFor, Ordered, OrderGood;
    var t := Award(s, true, rfq, offer);
    assert RequestGood(s.offers, s.requests[rfq], rfq);
    forall i | 0 <= i < |t.offers| ensures OfferGood(t.requests, t.offers[i], i) {
      assert OfferGood(s.requests, s.offers[i], i);
    }
  }

  lemma {:induction false} AwardKeepsOrders(s: State, rfq: Id, offer: Id)
    requires QInv(s) && Awardable(s, rfq, offer)
    ensures var t := Award(s, true, rfq, offer);
            forall k :: 0 <= k < |t.orders| ==> OrderGood(t, t.orders[k])
  {
    hide OrderLines, Ordered, OfferGood;
    var t := Award(s, true, rfq, offer);
    assert RequestGood(s.offers, s.requests[rfq], rfq);
    forall k | 0 <= k < |t.orders| ensures OrderGood(t, t.orders[k]) {
      if k < |s.orders| {
        assert OrderGood(s, s.orders[k]);
        assert RequestGood(s.offers, s.requests[s.orders[k].rfq], s.orders[k].rfq);
      }
    }
  }

  lemma {:induction false} AwardCounts(s: State, rfq: Id, offer: Id, r: Id)
    requires Awardable(s, rfq, offer) && r < |s.requests|
    requires Ordered(s, r) && RequestGood(s.offers, s.requests[r], r)
    ensures var t := Award(s, true, rfq, offer);
            Ordered(t, r) && RequestGood(t.offers, t.requests[r], r)
  {
    hide OrderFor;
    SumAppend(s.orders, RfqOrder(rfq, offer, OrderFor(s.offers[offer])), OfRequest(r));
  }

  lemma {:induction false} AwardKeeps(s: State, rfq: Id, offer: Id)
    requires QInv(s) && Awardable(s, rfq, offer)
    ensures QInv(Award(s, true, rfq, offer))
  {
    hide OrderFor, OfferGood, OrderGood, Ordered, RequestGood;
    var t := Award(s, true, rfq, offer);
    AwardSettlesOffers(s, rfq, offer);
    AwardKeepsOrders(s, rfq, offer);
    forall r | 0 <= r < |t.requests| ensures Ordered(t, r) && RequestGood(t.offers, t.requests[r], r) {
      AwardCounts(s, rfq, offer, r);
    }
  }

  /** Rejecting pending offers, and closing the request when all of them are, keeps everything. */
  lemma {:induction false} RejectingKeeps(s: State, requests: seq<Request>, offers: seq<Offer>)
    requires QInv(s) && |requests| == |s.requests| && |offers| == |s.offers|
    requires forall i :: 0 <= i < |offers| ==>
               offers[i] == s.offers[i] || (s.offers[i].status.OfferPending?
                   && offers[i] == s.offers[i].(status := OfferRejected))
    requires forall r :: 0 <= r < |requests| ==>
               requests[r] == s.requests[r] || requests[r] == s.requests[r].(status := Closed)
    requires forall i :: 0 <= i < |offers| && offers[i].status.OfferPending? && offers[i].rfq < |requests| ==>
               requests[offers[i].rfq] == s.requests[offers[i].rfq]
    ensures QInv(State(requests, offers, s.orders))
  {
    hide TotalOf, OrderLines;
    var t := State(requests, offers, s.orders);
    forall i | 0 <= i < |t.offers| ensures OfferGood(t.requests, t.offers[i], i) {
      assert OfferGood(s.requests, s.offers[i], i);
    }
    forall k | 0 <= k < |t.orders| ensures OrderGood(t, t.orders[k]) {
      assert OrderGood(s, s.orders[k]);
      assert OfferGood(s.requests, s.offers[s.orders[k].offer], s.orders[k].offer);
    }
    forall r | 0 <= r < |t.requests| ensures Ordered(t, r) && RequestGood(t.offers, t.requests[r], r) {
      assert Ordered(s, r) && RequestGood(s.offers, s.requests[r], r);
    }
  }

  lemma {:induction false} StepKeeps(s: State, step: Step)
    requires QInv(s)
    ensures QInv(Next(s, step))
  {
    hide QInv, OrderFor, LinesFit;
    match step
    case CreateStep(buyer, items, deadline, matched) => CreateKeeps(s, buyer, items, deadline, matched);
    case OfferStep(shop, rfq, lines, now) => OfferKeeps(s, shop, rfq, lines, now);
    case AwardStep(mayAct, rfq, offer) =>
      if Award(s, mayAct, rfq, offer) != s {
        AwardKeeps(s, rfq, offer);
      }
    case RejectStep(mayAct, rfq, offer) =>
      RejectingKeeps(s, s.requests, Next(s, step).offers);
      assert Next(s, step) == State(s.requests, Next(s, step).offers, s.orders);
    case CloseStep(mayAct, rfq) =>
      RejectingKeeps(s, Next(s, step).requests, Next(s, step).offers);
      assert Next(s, step) == State(Next(s, step).requests, Next(s, step).offers, s.orders);
  }

  lemma {:induction false} RunKeeps(steps: seq<Step>)
    ensures QInv(Run(Start(), steps))
  {
    hide Next;
    if |steps| == 0 {
    } else {
      RunKeeps(steps[..|steps| - 1]);
      StepKeeps(Run(Start(), steps[..|steps| - 1]), steps[|steps| - 1]);
    }
  }

  // ------------------------------------------------------------ main results

  /** An order made from an offer is worth the offer, line by line. */
  lemma {:induction false} OrderIsWorthOffer(o: Offer)
    requires o.totalCents == TotalOf(o.lines)
    ensures var r := OrderFor(o);
            && r.subtotalCents == r.totalCents == o.totalCents == Sum(o.lines, LineCents()) == Sum(r.lines, LineTotal())
            && r.commissionCents <= r.subtotalCents && r.shop == o.shop && |r.lines| > 0
  {
    var r := OrderFor(o);
    SumNonNegative(o.lines, LineCents());
    if |o.lines| > 0 {
      SumSame(o.lines, LineCents(), r.lines, LineTotal());
    } else {
      SumOne(r.lines[0], LineTotal());
    }
    RoundDivAtMost(o.totalCents * COMMISSION_BPS, 10000, o.totalCents);
  }

  /**
   * In every run a request has an awarded offer exactly when one of its offers is ACCEPTED, and then it is
   * that one and no other; it is AWARDED, or was closed after its award; none of its offers is pending;
   * and exactly one order exists for it, worth the offer's total and the sum of the order's own lines.
   */
  lemma {:induction false} AwardedExactly(steps: seq<Step>, rfq: Id)
    requires rfq < |Run(Start(), steps).requests|
    ensures var s := Run(Start(), steps);
            var r := s.requests[rfq];
            && (forall i :: 0 <= i < |s.offers| && s.offers[i].rfq == rfq ==>
                 (s.offers[i].status.Accepted? <==> r.awardedOffer == Some(i)))
            && (r.status.Awarded? ==> r.awardedOffer.Some?)
            && (r.status.Awarded? || r.status.Closed? ==>
                  forall i :: 0 <= i < |s.offers| && s.offers[i].rfq == rfq ==> !s.offers[i].status.OfferPending?)
            && Sum(s.orders, OfRequest(rfq)) == (if r.awardedOffer.Some? then 1 else 0)
            && (r.awardedOffer.Some? ==>
                  && (r.status.Awarded? || r.status.Closed?)
                  && r.awardedOffer.value < |s.offers| && s.offers[r.awardedOffer.value].rfq == rfq
                       && s.offers[r.awardedOffer.value].status.Accepted?)
            && (forall k :: 0 <= k < |s.orders| && s.orders[k].rfq == rfq ==>
                  && r.awardedOffer == Some(s.orders[k].offer) && s.orders[k].offer < |s.offers|
                  && s.orders[k].order.subtotalCents == s.offers[s.orders[k].offer].totalCents
                  && s.orders[k].order.subtotalCents == Sum(s.orders[k].order.lines, LineTotal())
                  && s.orders[k].order.shop == s.offers[s.orders[k].offer].shop)
  {
    hide TotalOf, OrderLines;
    RunKeeps(steps);
    var s := Run(Start(), steps);
    var r := s.requests[rfq];
    assert RequestGood(s.offers, r, rfq) && Ordered(s, rfq);
    forall i | 0 <= i < |s.offers| ensures OfferGood(s.requests, s.offers[i], i) {
    }
    forall k | 0 <= k < |s.orders| && s.orders[k].rfq == rfq
      ensures && r.awardedOffer == Some(s.orders[k].offer) && s.orders[k].offer < |s.offers|
              && s.orders[k].order.subtotalCents == s.offers[s.orders[k].offer].totalCents
              && s.orders[k].order.subtotalCents == Sum(s.orders[k].order.lines, LineTotal())
              && s.orders[k].order.shop == s.offers[s.orders[k].offer].shop
    {
      assert OrderGood(s, s.orders[k]);
      OrderIsWorthOffer(s.offers[s.orders[k].offer]);
    }
  }

  /** While no request is closed, AWARDED alone says it all. */
  lemma {:induction false} AwardedWithoutClosing(steps: seq<Step>, rfq: Id)
    requires forall i :: 0 <= i < |steps| ==> !steps[i].CloseStep?
    requires rfq < |Run(Start(), steps).requests|
    ensures var s := Run(Start(), steps);
            s.requests[rfq].status.Awarded? <==> exists i :: 0 <= i < |s.offers| && s.offers[i].rfq == rfq
                                                             && s.offers[i].status.Accepted?
  {
    hide Next;
    AwardedExactly(steps, rfq);
    NeverClosed(steps, rfq);
  }

  lemma {:induction false} NeverClosed(steps: seq<Step>, rfq: Id)
    requires forall i :: 0 <= i < |steps| ==> !steps[i].CloseStep?
    requires rfq < |Run(Start(), steps).requests|
    ensures !Run(Start(), steps).requests[rfq].status.Closed?
  {
    hide OrderFor, LinesFit;
    if |steps| == 0 {
    } else {
      var before := Run(Start(), steps[..|steps| - 1]);
      if rfq < |before.requests| {
        NeverClosed(steps[..|steps| - 1], rfq);
      }
    }
  }

  /** An award is final: whatever follows, the awarded offer, its lines and its order stay as they were. */
  lemma {:induction false} AwardIsFinal(before: seq<Step>, after: seq<Step>, k: nat)
    requires k < |Run(Start(), before).orders|
    ensures var s := Run(Start(), before);
            var t := Run(s, after);
            && k < |t.orders| && t.orders[k] == s.orders[k]
            && s.orders[k].offer < |s.offers| && s.orders[k].offer < |t.offers|
            && t.offers[s.orders[k].offer] == s.offers[s.orders[k].offer]
  {
    RunKeeps(before);
    AwardStays(Run(Start(), before), after, k);
  }

  lemma {:induction false} AwardStays(s: State, after: seq<Step>, k: nat)
    requires QInv(s) && k < |s.orders|
    ensures var t := Run(s, after);
            && QInv(t) && k < |t.orders| && t.orders[k] == s.orders[k]
            && s.orders[k].offer < |s.offers| && s.orders[k].offer < |t.offers|
            && t.offers[s.orders[k].offer] == s.offers[s.orders[k].offer]
  {
    hide Next, OrderFor;
    assert OrderGood(s, s.orders[k]);
    if |after| == 0 {
    } else {
      AwardStays(s, after[..|after| - 1], k);
      StepKeeps(Run(s, after[..|after| - 1]), after[|after| - 1]);
      StepKeepsAward(Run(s, after[..|after| - 1]), after[|after| - 1], k);
    }
  }

  lemma {:induction false} StepKeepsAward(s: State, step: Step, k: nat)
    requires QInv(s) && k < |s.orders|
    ensures var t := Next(s, step);
            && k < |t.orders| && t.orders[k] == s.orders[k]
            && s.orders[k].offer < |s.offers| && s.orders[k].offer < |t.offers|
            && t.offers[s.orders[k].offer] == s.offers[s.orders[k].offer]
  {
    hide OrderFor, LinesFit, TotalOf;
    assert OrderGood(s, s.orders[k]);
    var i := s.orders[k].offer;
    assert OfferGood(s.requests, s.offers[i], i);
    assert RequestGood(s.offers, s.requests[s.orders[k].rfq], s.orders[k].rfq);
  }

  // --------------------------------------------------- every operation, exactly

  /** Lines each for an item of the request, no item twice. */
  predicate EachItemOnce(lines: seq<Line>, items: set<Id>) {
    && (forall l :: l in lines ==> l.item in items)
    && |Items(lines)| == |lines|
  }

  function Items(lines: seq<Line>): set<Id> {
    set l | l in lines :: l.item
  }

  lemma {:induction false} ItemsGrow(lines: seq<Line>, last: Line)
    ensures Items(lines + [last]) == Items(lines) + {last.item}
  {
    assert forall l :: l in lines + [last] <==> l in lines || l == last;
  }

  lemma {:induction false} ItemAmong(lines: seq<Line>, item: Id)
    ensures item in Items(lines) <==> exists i :: 0 <= i < |lines| && lines[i].item == item
  {
    if item in Items(lines) {
      var l :| l in lines && l.item == item;
      var i :| 0 <= i < |lines| && lines[i] == l;
    }
  }

  lemma {:induction false} DistinctCount(lines: seq<Line>)
    ensures |Items(lines)| <= |lines|
    ensures |Items(lines)| == |lines| <==>
              forall i, j :: 0 <= i < j < |lines| ==> lines[i].item != lines[j].item
  {
    hide Items;
    if |lines| == 0 {
      NoItems();
    } else {
      var n := |lines| - 1;
      DistinctCount(lines[..n]);
      ItemsGrow(lines[..n], lines[n]);
      assert lines == lines[..n] + [lines[n]];
      ItemAmong(lines[..n], lines[n].item);
      if lines[n].item in Items(lines[..n]) {
        assert Items(lines) == Items(lines[..n]);
      }
    }
  }

  lemma {:induction false} NoItems()
    ensures Items([]) == {}
  {
  }

  lemma {:induction false} FitExactly(lines: seq<Line>, items: set<Id>)
    ensures EachItemOnce(lines, items) <==> LinesFit(lines, items)
  {
    DistinctCount(lines);
    if LinesFit(lines, items) {
      forall l | l in lines ensures l.item in items {
        var i :| 0 <= i < |lines| && lines[i] == l;
      }
    }
    if forall l :: l in lines ==> l.item in items {
      forall i | 0 <= i < |lines| ensures lines[i].item in items {
        assert lines[i] in lines;
      }
    }
  }

  /** A new request is open, or matched if shops were found for it; nothing else moves. */
  lemma {:induction false} CreatesExactly(s: State, buyer: Id, items: set<Id>, deadline: Option<Time>, matched: bool)
    ensures var t := Next(s, CreateStep(buyer, items, deadline, matched));
            && |t.requests| == |s.requests| + 1 && t.requests[..|s.requests|] == s.requests
            && t.requests[|s.requests|].status == (if matched then Matched else Open)
            && t.requests[|s.requests|] == Request(buyer, t.requests[|s.requests|].status, items, deadline, None)
            && t.offers == s.offers && t.orders == s.orders
  {
  }

  /**
   * A shop's offer is taken exactly while the request is open, matched or quoted and its deadline, if any, has not
   * passed, and only with lines for different items of it. The request is then QUOTED; the offer is pending, worth
   * its lines, and replaces the shop's earlier one for the request, or else is a new one; nothing else moves.
   */
  lemma {:induction false} OffersExactly(s: State, shop: Option<Id>, rfq: Id, lines: seq<Line>, now: Time)
    requires QInv(s)
    ensures var t := Next(s, OfferStep(shop, rfq, lines, now));
            if && shop.Some? && rfq < |s.requests| && s.requests[rfq].status in {Open, Matched, Quoted}
               && (s.requests[rfq].deadline.Some? ==> now <= s.requests[rfq].deadline.value)
               && EachItemOnce(lines, s.requests[rfq].items)
            then
              var offer := Offer(rfq, shop.value, OfferPending, SumNat(lines, LineCents()), lines);
              && t.requests == s.requests[rfq := s.requests[rfq].(status := Quoted)] && t.orders == s.orders
              && (forall i :: 0 <= i < |s.offers| ==>
                    var o := s.offers[i];
                    t.offers[i] == if o.rfq == rfq && o.shop == shop.value then offer else o)
              && (if exists i :: 0 <= i < |s.offers| && s.offers[i].rfq == rfq && s.offers[i].shop == shop.value
                  then |t.offers| == |s.offers| else t.offers == s.offers + [offer])
            else t == s
  {
    if rfq < |s.requests| {
      FitExactly(lines, s.requests[rfq].items);
    }
    hide EachItemOnce, LinesFit, OfferGood, RequestGood, OrderGood, Ordered;
  }

  /**
   * An award needs an open, matched or quoted request and a pending offer of it. It accepts that offer, turns down
   * every other pending one of the request, and adds one order of the offer's shop, a tenth of it as commission to
   * the nearest cent; no other request, offer or order moves.
   */
  lemma {:induction false} AwardsExactly(s: State, mayAct: bool, rfq: Id, offer: Id)
    ensures var t := Next(s, AwardStep(mayAct, rfq, offer));
            if && mayAct && rfq < |s.requests| && s.requests[rfq].status in {Open, Matched, Quoted}
               && offer < |s.offers| && s.offers[offer].rfq == rfq && s.offers[offer].status == OfferPending
            then
              && t.requests == s.requests[rfq := s.requests[rfq].(status := Awarded, awardedOffer := Some(offer))]
              && |t.offers| == |s.offers|
              && (forall i :: 0 <= i < |s.offers| ==>
                    var o := s.offers[i];
                    t.offers[i] == if i == offer then o.(status := Accepted)
                                   else if o.rfq == rfq && o.status == OfferPending then o.(status := OfferRejected)
                                   else o)
              && |t.orders| == |s.orders| + 1 && t.orders[..|s.orders|] == s.orders
              && var made := t.orders[|s.orders|];
                 && made.rfq == rfq && made.offer == offer && made.order.shop == s.offers[offer].shop
                 && made.order.status == PendingPayment && made.order.totalCents == s.offers[offer].totalCents
                 && -5 < 10 * made.order.commissionCents - s.offers[offer].totalCents <= 5
            else t == s
  {
    hide OrderLines;
    if offer < |s.offers| {
      RoundDivError(s.offers[offer].totalCents * COMMISSION_BPS, 10000);
    }
  }

  /** One offer is turned down exactly while it is pending and its request is neither closed nor cancelled. */
  lemma {:induction false} RejectsExactly(s: State, mayAct: bool, rfq: Id, offer: Id)
    ensures var t := Next(s, RejectStep(mayAct, rfq, offer));
            if && mayAct && rfq < |s.requests| && s.requests[rfq].status !in {Closed, RfqCancelled}
               && offer < |s.offers| && s.offers[offer].rfq == rfq && s.offers[offer].status == OfferPending
            then t == s.(offers := s.offers[offer := s.offers[offer].(status := OfferRejected)])
            else t == s
  {
  }

  /** A request that is neither draft, closed nor cancelled can be closed; its pending offers are turned down. */
  lemma {:induction false} ClosesExactly(s: State, mayAct: bool, rfq: Id)
    ensures var t := Next(s, CloseStep(mayAct, rfq));
            if mayAct && rfq < |s.requests| && s.requests[rfq].status in {Open, Matched, Quoted, Awarded} then
              && t.requests == s.requests[rfq := s.requests[rfq].(status := Closed)] && t.orders == s.orders
              && |t.offers| == |s.offers|
              && (forall i :: 0 <= i < |s.offers| ==>
                    var o := s.offers[i];
                    t.offers[i] == if o.rfq == rfq && o.status == OfferPending then o.(status := OfferRejected) else o)
            else t == s
  {
  }
}
