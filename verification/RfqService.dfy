/** The RFQ service over mutable tables; each method refines the operation of module Rfq. */
module RfqService {
  import opened Common
  import opened OrderMachine
  import opened CartSplit
  import opened Rfq

  datatype RfqError = NotFound | Forbidden | NotOpen | DeadlinePassed | UnknownItem(item: Id) | DuplicateItem
      | AlreadyAwarded | OfferNotFound | OfferNotPending

  class RfqService {
    var requests: seq<Request>
    var offers: seq<Offer>
    var orders: seq<RfqOrder>

    constructor ()
      ensures Current() == Start()
    {
      requests, offers, orders := [], [], [];
    }

    function Current(): State
      reads this
    {
      State(requests, offers, orders)
    }

    method CreateOffer(shop: Option<Id>, rfq: Id, lines: seq<Line>, now: Time) returns (r: Result<Id, RfqError>)
      modifies this
      ensures Current() == Rfq.CreateOffer(old(Current()), shop, rfq, lines, now)
      ensures r.Success? <==> shop.Some? && rfq < |old(requests)| && TakesOffers(old(requests)[rfq], now)
                              && LinesFit(lines, old(requests)[rfq].items)
      ensures r.Success? ==> r.value < |offers|
                             && offers[r.value] == Offer(rfq, shop.value, OfferPending, TotalOf(lines), lines)
      ensures r.Failure? ==> Current() == old(Current())
      ensures r.Failure? && r.error.UnknownItem? ==> rfq < |requests| && r.error.item !in requests[rfq].items
    {
      if shop.None? {
        return Failure(Forbidden);
      }
      if rfq >= |requests| {
        return Failure(NotFound);
      }
      var request := requests[rfq];
      if !OpenForOffers(request.status) {
        return Failure(NotOpen);
      }
      if request.deadline.Some? && request.deadline.value < now {
        return Failure(DeadlinePassed);
      }
      for i := 0 to |lines|
        invariant forall k :: 0 <= k < i ==> lines[k].item in request.items
      {
        if lines[i].item !in request.items {
          return Failure(UnknownItem(lines[i].item));
        }
      }
      if exists i, j :: 0 <= i < j < |lines| && lines[i].item == lines[j].item {
        return Failure(DuplicateItem);
      }
      var totalCents := SumNat(lines, LineCents());
      var existing := OfferOf(offers, rfq, shop.value);
      var offer := Offer(rfq, shop.value, OfferPending, totalCents, lines);
      if existing.Some? {
        offers := offers[existing.value := offer];
        r := Success(existing.value);
      } else {
        offers := offers + [offer];
        r := Success(|offers| - 1);
      }
      requests := requests[rfq := request.(status := Quoted)];
    }

    /** Accepts one offer, rejects the other pending ones, and creates the order, all under the request's lock. */
    method Award(mayAct: bool, rfq: Id, offerId: Id) returns (r: Result<Id, RfqError>)
      modifies this
      ensures Current() == Rfq.Award(old(Current()), mayAct, rfq, offerId)
      ensures r.Success? <==> mayAct && Awardable(old(Current()), rfq, offerId)
      ensures r.Success? ==> r.value == |old(orders)| && requests[rfq].status.Awarded?
                             && offers[offerId].status.Accepted?
      ensures r == Failure(AlreadyAwarded) ==> rfq < |requests| && requests[rfq].status.Awarded?
    {
      hide OrderLines, RoundDiv;
      if rfq >= |requests| {
        return Failure(NotFound);
      }
      if !mayAct {
        return Failure(Forbidden);
      }
      var request := requests[rfq];
      if request.status.Awarded? {
        return Failure(AlreadyAwarded);
      }
      if !OpenForOffers(request.status) {
        return Failure(NotOpen);
      }
      if offerId >= |offers| || offers[offerId].rfq != rfq {
        return Failure(OfferNotFound);
      }
      var offer := offers[offerId];
      if !offer.status.OfferPending? {
        return Failure(OfferNotPending);
      }
      offers := offers[offerId := offer.(status := Accepted)];
      offers := Decide(offers, rfq, None);
      assert offers == Decide(old(offers), rfq, Some(offerId));
      requests := requests[rfq := request.(status := Awarded, awardedOffer := Some(offerId))];
      var subtotalCents := offer.totalCents;
      var commissionCents := RoundDiv(subtotalCents * COMMISSION_BPS, 10000);
      var lineItems := OrderLines(offer.lines, subtotalCents);
      var order := Order(offer.shop, PendingPayment, lineItems, subtotalCents, 0, commissionCents, 0, subtotalCents);
      orders := orders + [RfqOrder(rfq, offerId, order)];
      return Success(|orders| - 1);
    }

    method RejectOffer(mayAct: bool, rfq: Id, offerId: Id) returns (ok: bool)
      modifies this
      ensures Current() == Rfq.RejectOffer(old(Current()), mayAct, rfq, offerId)
      ensures ok <==> mayAct && rfq < |old(requests)| && !Shut(old(requests)[rfq].status)
                      && offerId < |old(offers)| && old(offers)[offerId].rfq == rfq
                           && old(offers)[offerId].status.OfferPending?
      ensures ok ==> offerId < |offers| && offers[offerId].status.OfferRejected?
    {
      if offerId >= |offers| || offers[offerId].rfq != rfq || rfq >= |requests| || !mayAct {
        return false;
      }
      if !offers[offerId].status.OfferPending? || Shut(requests[rfq].status) {
        return false;
      }
      offers := offers[offerId := offers[offerId].(status := OfferRejected)];
      return true;
    }

    method Close(mayAct: bool, rfq: Id) returns (ok: bool)
      modifies this
      ensures Current() == Rfq.Close(old(Current()), mayAct, rfq)
      ensures ok <==> mayAct && rfq < |old(requests)| && Closable(old(requests)[rfq].status)
      ensures ok ==> rfq < |requests| && requests[rfq].status.Closed?
      ensures ok ==> forall i :: 0 <= i < |offers| && offers[i].rfq == rfq ==> !offers[i].status.OfferPending?
    {
      if rfq >= |requests| || !mayAct || !Closable(requests[rfq].status) {
        return false;
      }
      requests := requests[rfq := requests[rfq].(status := Closed)];
      offers := Decide(offers, rfq, None);
      return true;
    }
  }
}
