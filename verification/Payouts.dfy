/**
 * The payout protocol of the finance service: funds move
 * VENDOR_PAYABLE -> VENDOR_AVAILABLE -> PLATFORM_CLEARING, or back.
 */
module Payouts {
  import opened Common
  import opened Sums
  import opened Ledger

  datatype Status = Pending | Reserved | Processing | Approved | Rejected | Completed | Paid | Failed | Cancelled

  /** A row of the payout table; its identifier is its position. */
  datatype PayoutRow = PayoutRow(shop: Id, amountCents: int, status: Status)

  datatype State = State(book: Book, payouts: seq<PayoutRow>)

  datatype PayoutError = InvalidAmount | InsufficientBalance | NotFound | InvalidStatus | Unavailable

  datatype Decision = Approve | Reject | MarkPaid

  function ReserveKey(id: Id): Key { Key(Payout, PayoutRef, id) }

  function ReleaseKey(id: Id): Key { Key(Payout, PayoutReleaseRef, id) }

  function CompleteKey(id: Id): Key { Key(Payout, PayoutCompleteRef, id) }

  function WithStatus(s: State, id: Id, status: Status): State
    requires id < |s.payouts|
  {
    s.(payouts := s.payouts[id := s.payouts[id].(status := status)])
  }

  /** Statuses whose amount sits in VENDOR_AVAILABLE. */
  predicate Holds(row: PayoutRow) {
    row.status.Reserved? || row.status.Processing?
  }

  // ------------------------------------------------------------------ steps

  /** One successful attempt of `requestPayoutAtomic`: check the balance, create the row, post the reserve. */
  function Request(s: State, shop: Id, amount: int, legacy: int): State {
    if amount <= 0 || Available(s.book, shop, legacy) < amount then s
    else State(Post(s.book, ReserveTx(|s.payouts|, shop, amount)), s.payouts + [PayoutRow(shop, amount, Reserved)])
  }

  function MarkProcessing(s: State, id: Id): State {
    if id < |s.payouts| && (s.payouts[id].status.Reserved? || s.payouts[id].status.Approved?
        || s.payouts[id].status.Pending?)
    then WithStatus(s, id, Processing) else s
  }

  function Complete(s: State, id: Id, legacy: int): State {
    if id >= |s.payouts| then s else
    var row := s.payouts[id];
    match row.status
    case Reserved | Processing =>
      WithStatus(s.(book := Post(s.book, CompleteTx(id, row.shop, row.amountCents))), id, Completed)
    case Pending | Approved =>
      if Available(s.book, row.shop, legacy) < row.amountCents then s
      else
        var book := Post(Post(s.book, ReserveTx(id, row.shop, row.amountCents)),
            CompleteTx(id, row.shop, row.amountCents));
        WithStatus(s.(book := book), id, Completed)
    case _ => s
  }

  function Fail(s: State, id: Id): State {
    if id >= |s.payouts| then s else
    var row := s.payouts[id];
    match row.status
    case Completed | Paid | Failed | Cancelled => s
    case Reserved | Processing =>
      WithStatus(s.(book := Post(s.book, ReleaseTx(id, row.shop, row.amountCents))), id, Failed)
    case _ => WithStatus(s, id, Failed)
  }

  function Decide(s: State, id: Id, decision: Decision, legacy: int): State {
    if id >= |s.payouts| then s else
    var row := s.payouts[id];
    match decision
    case MarkPaid => Complete(s, id, legacy)
    case Reject =>
      if row.status.Reserved? || row.status.Processing? then Fail(s, id) else WithStatus(s, id, Rejected)
    case Approve =>
      if !row.status.Pending? then WithStatus(s, id, Approved)
      else if Available(s.book, row.shop, legacy) < row.amountCents then s
      else WithStatus(s.(book := Post(s.book, ReserveTx(id, row.shop, row.amountCents))), id, Reserved)
  }

  /** Payouts interleaved with payments and refunds; `legacy` is whatever the older table says at that moment. */
  datatype Step =
    | RequestStep(shop: Id, amount: int, legacy: int)
    | ProcessingStep(id: Id)
    | CompleteStep(id: Id, legacy: int)
    | FailStep(id: Id)
    | DecideStep(id: Id, decision: Decision, legacy: int)
    | PaymentStep(order: Id, amount: int, commission: int, shop: Id)
    | RefundStep(refund: Id, amount: int, commission: int, shop: Id)

  function Next(s: State, step: Step): State {
    match step
    case RequestStep(shop, amount, legacy) => Request(s, shop, amount, legacy)
    case ProcessingStep(id) => MarkProcessing(s, id)
    case CompleteStep(id, legacy) => Complete(s, id, legacy)
    case FailStep(id) => Fail(s, id)
    case DecideStep(id, decision, legacy) => Decide(s, id, decision, legacy)
    case PaymentStep(o, a, c, shop) => s.(book := Post(s.book, PaymentTx(o, a, c, shop)))
    case RefundStep(r, a, c, shop) => s.(book := Post(s.book, RefundTx(r, a, c, shop)))
  }

  function Run(s: State, steps: seq<Step>): State {
    if |steps| == 0 then s else Next(Run(s, steps[..|steps| - 1]), steps[|steps| - 1])
  }

  function CompletePosts(s: State, id: Id, legacy: int): seq<Op> {
    if id >= |s.payouts| then [] else
    var row := s.payouts[id];
    var complete := PostComplete(id, row.shop, row.amountCents);
    if Holds(row) then [complete]
    else if (row.status.Pending? || row.status.Approved?) && Available(s.book, row.shop, legacy) >= row.amountCents
    then [PostReserve(id, row.shop, row.amountCents), complete]
    else []
  }

  function FailPosts(s: State, id: Id): seq<Op> {
    if id < |s.payouts| && Holds(s.payouts[id])
        then [PostRelease(id, s.payouts[id].shop, s.payouts[id].amountCents)] else []
  }

  function ApprovePosts(s: State, id: Id, legacy: int): seq<Op> {
    if id < |s.payouts| && s.payouts[id].status.Pending?
        && Available(s.book, s.payouts[id].shop, legacy) >= s.payouts[id].amountCents
    then [PostReserve(id, s.payouts[id].shop, s.payouts[id].amountCents)] else []
  }

  /** The posts a step makes, in order. */
  function Posts(s: State, step: Step): seq<Op> {
    match step
    case RequestStep(shop, amount, legacy) =>
      if Request(s, shop, amount, legacy) == s then [] else [PostReserve(|s.payouts|, shop, amount)]
    case ProcessingStep(_) => []
    case CompleteStep(id, legacy) => CompletePosts(s, id, legacy)
    case FailStep(id) => FailPosts(s, id)
    case DecideStep(id, MarkPaid, legacy) => CompletePosts(s, id, legacy)
    case DecideStep(id, Reject, _) => FailPosts(s, id)
    case DecideStep(id, Approve, legacy) => ApprovePosts(s, id, legacy)
    case PaymentStep(o, a, c, shop) => [PostPayment(o, a, c, shop)]
    case RefundStep(r, a, c, shop) => [PostRefund(r, a, c, shop)]
  }

  lemma {:induction false} NextPosts(s: State, step: Step)
    ensures |Posts(s, step)| <= 2 && Next(s, step).book == Ledger.Run(s.book, Posts(s, step))
  {
    hide Post, Available;
    RunShort(s.book, Posts(s, step));
  }

  /** All posts of a run. */
  function Trace(s: State, steps: seq<Step>): seq<Op> {
    if |steps| == 0 then []
    else Trace(s, steps[..|steps| - 1]) + Posts(Run(s, steps[..|steps| - 1]), steps[|steps| - 1])
  }

  lemma {:induction false} RunPosts(s: State, steps: seq<Step>)
    ensures Run(s, steps).book == Ledger.Run(s.book, Trace(s, steps))
  {
    if |steps| == 0 {
    } else {
      var before := steps[..|steps| - 1];
      RunPosts(s, before);
      NextPosts(Run(s, before), steps[|steps| - 1]);
      RunConcat(s.book, Trace(s, before), Posts(Run(s, before), steps[|steps| - 1]));
    }
  }

  /** Conservation for the whole money flow: payments, refunds and payouts in any order, approvals included. */
  lemma {:induction false} MoneyIsConserved(steps: seq<Step>)
    ensures var book := Run(START, steps).book;
            && Debits(book) == Credits(book)
            && -Net(book, Of(PlatformClearing)) == Moved(book, OrderRef) - Moved(book, RefundRef)
                 - Moved(book, PayoutCompleteRef)
            && -Net(book, Of(PlatformClearing))
               == Net(book, Of(VendorPayable)) + Net(book, Of(VendorAvailable)) + Net(book, Of(PlatformCommission))
  {
    RunPosts(START, steps);
    Conservation(Trace(START, steps));
  }

  const START := State([], [])

  // -------------------------------------------------------------- invariant

  /** Amount a row keeps in VENDOR_AVAILABLE of `shop`. */
  function Holding(shop: Id): PayoutRow -> int {
    (row: PayoutRow) => if row.shop == shop && Holds(row) then row.amountCents else 0
  }

  /** Status and postings of one row agree. */
  predicate RowConsistent(book: Book, id: Id, row: PayoutRow) {
    && row.amountCents > 0
    && IsPosted(book, ReserveKey(id))
    && match row.status
       case Reserved | Processing => !IsPosted(book, ReleaseKey(id)) && !IsPosted(book, CompleteKey(id))
       case Completed => !IsPosted(book, ReleaseKey(id)) && IsPosted(book, CompleteKey(id))
       case Failed | Rejected | Approved => IsPosted(book, ReleaseKey(id)) != IsPosted(book, CompleteKey(id))
       case _ => false
  }

  predicate Untouched(book: Book, id: Id) {
    !IsPosted(book, ReserveKey(id)) && !IsPosted(book, ReleaseKey(id)) && !IsPosted(book, CompleteKey(id))
  }

  ghost predicate Inv(s: State) {
    && (forall id :: 0 <= id < |s.payouts| ==> RowConsistent(s.book, id, s.payouts[id]))
    && (forall id :: id >= |s.payouts| ==> Untouched(s.book, id))
    && (forall shop: Id :: Net(s.book, OfShop(VendorAvailable, shop)) == Sum(s.payouts, Holding(shop)))
  }

  /** `after` has exactly one more posted key than `before` (or the same ones, if it was there). */
  ghost predicate AddsKey(before: Book, after: Book, key: Key) {
    forall k :: IsPosted(after, k) <==> IsPosted(before, k) || k == key
  }

  /** One post made by a step, seen from the keys and from the VENDOR_AVAILABLE balances. */
  lemma {:induction false} PostEffect(book: Book, op: Op)
    requires op.amount > 0
    ensures AddsKey(book, Post(book, TxOf(op)), TxOf(op).key)
    ensures forall shop: Id ::
              Net(Post(book, TxOf(op)), OfShop(VendorAvailable, shop)) == Net(book, OfShop(VendorAvailable, shop)) +
              (if IsPosted(book, TxOf(op).key) then 0 else OpNet(op, OfShop(VendorAvailable, shop)))
  {
    forall shop: Id
      ensures Net(Post(book, TxOf(op)), OfShop(VendorAvailable, shop)) == Net(book, OfShop(VendorAvailable, shop)) +
              (if IsPosted(book, TxOf(op).key) then 0 else OpNet(op, OfShop(VendorAvailable, shop)))
    {
      PostedNet(op, OfShop(VendorAvailable, shop));
      NetAfterPost(book, TxOf(op), OfShop(VendorAvailable, shop));
    }
    PostedNet(op, Everything);
    forall key ensures IsPosted(Post(book, TxOf(op)), key) <==> IsPosted(book, key) || key == TxOf(op).key {
      PostedAfterPost(book, TxOf(op), key);
    }
  }

  /** A post for one payout leaves the consistency of every other payout as it was. */
  lemma {:induction false} OtherRowsUnmoved(before: Book, after: Book, key: Key, id: Id, row: PayoutRow)
    requires AddsKey(before, after, key)
    requires key.kind.Payout? ==> key.id != id
    ensures RowConsistent(after, id, row) == RowConsistent(before, id, row)
    ensures Untouched(after, id) == Untouched(before, id)
  {
  }

  lemma {:induction false} NewRowKeepsInv(s: State, book: Book, row: PayoutRow)
    requires Inv(s)
    requires row.amountCents > 0 && row.status.Reserved?
    requires AddsKey(s.book, book, ReserveKey(|s.payouts|))
    requires forall shop: Id :: Net(book, OfShop(VendorAvailable, shop)) == Net(s.book, OfShop(VendorAvailable, shop))
                                + Holding(shop)(row)
    ensures Inv(State(book, s.payouts + [row]))
  {
    var t := State(book, s.payouts + [row]);
    var id := |s.payouts|;
    assert Untouched(s.book, id);
    forall k: Id | k != id ensures k < id ==> RowConsistent(book, k, t.payouts[k]) ensures k > id ==>
        Untouched(book, k) {
      if k < id {
        assert RowConsistent(s.book, k, s.payouts[k]);
        OtherRowsUnmoved(s.book, book, ReserveKey(id), k, s.payouts[k]);
      } else {
        assert Untouched(s.book, k);
        OtherRowsUnmoved(s.book, book, ReserveKey(id), k, row);
      }
    }
    forall shop: Id ensures Net(book, OfShop(VendorAvailable, shop)) == Sum(t.payouts, Holding(shop)) {
      SumAppend(s.payouts, row, Holding(shop));
    }
  }

  /** A post for row `id` together with a new status for it. */
  lemma {:induction false} RowChangeKeepsInv(s: State, book: Book, key: Key, id: Id, row: PayoutRow)
    requires Inv(s) && id < |s.payouts|
    requires AddsKey(s.book, book, key) && key.kind.Payout? && key.id == id
    requires RowConsistent(book, id, row)
    requires forall shop: Id :: Net(book, OfShop(VendorAvailable, shop))
                                == Net(s.book, OfShop(VendorAvailable, shop)) - Holding(shop)(s.payouts[id])
                                    + Holding(shop)(row)
    ensures Inv(State(book, s.payouts[id := row]))
  {
    var t := State(book, s.payouts[id := row]);
    forall k: Id | k != id ensures k < |t.payouts| ==> RowConsistent(book, k, t.payouts[k]) ensures k >= |t.payouts| ==>
        Untouched(book, k) {
      if k < |s.payouts| {
        assert RowConsistent(s.book, k, s.payouts[k]);
        OtherRowsUnmoved(s.book, book, key, k, s.payouts[k]);
      } else {
        assert Untouched(s.book, k);
        OtherRowsUnmoved(s.book, book, key, k, row);
      }
    }
    forall shop: Id ensures Net(book, OfShop(VendorAvailable, shop)) == Sum(t.payouts, Holding(shop)) {
      SumUpdate(s.payouts, id, row, Holding(shop));
    }
  }

  lemma {:induction false} RequestKeepsInv(s: State, shop: Id, amount: int, legacy: int)
    requires Inv(s)
    ensures Inv(Request(s, shop, amount, legacy))
  {
    var t := Request(s, shop, amount, legacy);
    if t != s {
      var op := PostReserve(|s.payouts|, shop, amount);
      assert Untouched(s.book, |s.payouts|);
      PostEffect(s.book, op);
      NewRowKeepsInv(s, Post(s.book, TxOf(op)), PayoutRow(shop, amount, Reserved));
    }
  }

  /** Closing a held row by a release or a completion. */
  lemma {:induction false} CloseKeepsInv(s: State, id: Id, release: bool)
    requires Inv(s)
    requires id < |s.payouts| && Holds(s.payouts[id])
    ensures Inv(if release then Fail(s, id) else Complete(s, id, 0))
  {
    var row := s.payouts[id];
    var op := if release then PostRelease(id, row.shop, row.amountCents)
        else PostComplete(id, row.shop, row.amountCents);
    assert RowConsistent(s.book, id, row);
    PostEffect(s.book, op);
    RowChangeKeepsInv(s, Post(s.book, TxOf(op)), TxOf(op).key, id,
        row.(status := if release then Failed else Completed));
  }

  /** A status change among rows that hold alike leaves the holding equation alone. */
  lemma {:induction false} RelabelKeepsInv(s: State, id: Id, status: Status)
    requires Inv(s) && id < |s.payouts|
    requires Holds(s.payouts[id].(status := status)) == Holds(s.payouts[id])
    requires RowConsistent(s.book, id, s.payouts[id].(status := status))
    ensures Inv(WithStatus(s, id, status))
  {
    RowChangeKeepsInv(s, s.book, ReserveKey(id), id, s.payouts[id].(status := status));
  }

  /** Payments and refunds touch neither payout rows nor VENDOR_AVAILABLE. */
  lemma {:induction false} MoneyKeepsInv(s: State, op: Op)
    requires Inv(s)
    requires op.PostPayment? || op.PostRefund?
    ensures Inv(s.(book := Post(s.book, TxOf(op))))
  {
    hide Inv, RowConsistent, Holding;
    BuiltIsLawful(op);
    if op.amount > 0 {
      PostEffect(s.book, op);
      MoneyRowsUnmoved(s, Post(s.book, TxOf(op)), TxOf(op).key);
    }
  }

  lemma {:induction false} MoneyRowsUnmoved(s: State, book: Book, key: Key)
    requires Inv(s)
    requires AddsKey(s.book, book, key) && !key.kind.Payout?
    requires forall shop: Id :: Net(book, OfShop(VendorAvailable, shop)) == Net(s.book, OfShop(VendorAvailable, shop))
    ensures Inv(s.(book := book))
  {
    forall k: Id ensures k < |s.payouts| ==> RowConsistent(book, k, s.payouts[k]) ensures k >= |s.payouts| ==>
        Untouched(book, k) {
      if k < |s.payouts| {
        assert RowConsistent(s.book, k, s.payouts[k]);
        OtherRowsUnmoved(s.book, book, key, k, s.payouts[k]);
      } else {
        assert Untouched(s.book, k);
        OtherRowsUnmoved(s.book, book, key, k, PayoutRow(0, 0, Reserved));
      }
    }
  }

  // ------------------------------------------------------ what keeps the books

  predicate Released(s: State, id: Id) { IsPosted(s.book, ReleaseKey(id)) }

  predicate Finished(s: State, id: Id) { IsPosted(s.book, CompleteKey(id)) }

  /** What VENDOR_AVAILABLE of a shop has beyond the payouts it holds. */
  function Excess(s: State, shop: Id): int {
    Net(s.book, OfShop(VendorAvailable, shop)) - Sum(s.payouts, Holding(shop))
  }

  /** The holding equation for every shop, and no payout both released and completed. */
  ghost predicate Books(s: State) {
    && (forall shop: Id :: Excess(s, shop) == 0)
    && (forall id: Id :: !(Released(s, id) && Finished(s, id)))
  }

  predicate CompletionSound(s: State, id: Id, legacy: int) {
    id < |s.payouts| && s.payouts[id].status.Approved?
        && Available(s.book, s.payouts[id].shop, legacy) >= s.payouts[id].amountCents
    ==> !Released(s, id)
  }

  /**
   * Steps that keep the books: never approve a row that holds money, never send an approved row to
   * processing, and complete an approved row only if it was not released. All other steps always do.
   */
  predicate Sound(s: State, step: Step) {
    match step
    case ProcessingStep(id) => id < |s.payouts| ==> !s.payouts[id].status.Approved?
    case CompleteStep(id, legacy) => CompletionSound(s, id, legacy)
    case DecideStep(id, MarkPaid, legacy) => CompletionSound(s, id, legacy)
    case DecideStep(id, Approve, _) => id < |s.payouts| ==> !Holds(s.payouts[id])
    case _ => true
  }

  predicate SoundRun(s: State, steps: seq<Step>) {
    |steps| == 0 || (SoundRun(s, steps[..|steps| - 1]) && Sound(Run(s, steps[..|steps| - 1]), steps[|steps| - 1]))
  }

  lemma {:induction false} InvGivesBooks(s: State)
    requires Inv(s)
    ensures Books(s)
  {
    forall id: Id ensures !(Released(s, id) && Finished(s, id)) {
      if id < |s.payouts| {
        assert RowConsistent(s.book, id, s.payouts[id]);
      } else {
        assert Untouched(s.book, id);
      }
    }
  }

  lemma {:induction false} StatusMovesExcess(s: State, id: Id, status: Status)
    requires id < |s.payouts|
    ensures var row := s.payouts[id];
            Excess(WithStatus(s, id, status), row.shop)
            == Excess(s, row.shop) + Holding(row.shop)(row) - Holding(row.shop)(row.(status := status))
  {
    var row := s.payouts[id];
    SumUpdate(s.payouts, id, row.(status := status), Holding(row.shop));
  }

  /** Posting a completion or a release for a payout lowers its shop's excess, once. */
  lemma {:induction false} FinishMovesExcess(s: State, id: Id, release: bool)
    requires id < |s.payouts| && s.payouts[id].amountCents > 0
    ensures var row := s.payouts[id];
            var op := if release then PostRelease(id, row.shop, row.amountCents)
                else PostComplete(id, row.shop, row.amountCents);
            var t := s.(book := Post(s.book, TxOf(op)));
            && Excess(t, row.shop) == Excess(s, row.shop)
                 - (if IsPosted(s.book, TxOf(op).key) then 0 else row.amountCents)
            && AddsKey(s.book, t.book, TxOf(op).key)
  {
    var row := s.payouts[id];
    PostEffect(s.book, if release then PostRelease(id, row.shop, row.amountCents) else PostComplete(id, row.shop,
        row.amountCents));
  }

  lemma {:induction false} RePostIsInert(book: Book, t: Transaction)
    requires IsPosted(book, t.key)
    ensures Post(book, t) == book
  {
  }

  lemma {:induction false} CompletionExactly(s: State, id: Id, legacy: int)
    requires Inv(s)
    ensures CompletionSound(s, id, legacy) ==> Inv(Complete(s, id, legacy))
    ensures !CompletionSound(s, id, legacy) ==> Excess(Complete(s, id, legacy), s.payouts[id].shop) < 0
  {
    if id < |s.payouts| {
      var row := s.payouts[id];
      assert RowConsistent(s.book, id, row);
      if Holds(row) {
        CloseKeepsInv(s, id, false);
      } else if row.status.Approved? && Available(s.book, row.shop, legacy) >= row.amountCents {
        RePostIsInert(s.book, ReserveTx(id, row.shop, row.amountCents));
        var posted := s.(book := Post(s.book, CompleteTx(id, row.shop, row.amountCents)));
        assert Complete(s, id, legacy) == WithStatus(posted, id, Completed);
        if Released(s, id) {
          FinishMovesExcess(s, id, false);
          StatusMovesExcess(posted, id, Completed);
        } else {
          RePostIsInert(s.book, CompleteTx(id, row.shop, row.amountCents));
          RelabelKeepsInv(s, id, Completed);
        }
      }
    }
  }

  lemma {:induction false} FailureKeepsInv(s: State, id: Id)
    requires Inv(s)
    ensures Inv(Fail(s, id))
  {
    if id < |s.payouts| {
      assert RowConsistent(s.book, id, s.payouts[id]);
      if Holds(s.payouts[id]) {
        CloseKeepsInv(s, id, true);
      } else {
        RelabelKeepsInv(s, id, Failed);
      }
    }
  }

  /** A sound step keeps the invariant, and an unsound one unbalances a shop's VENDOR_AVAILABLE. */
  lemma {:induction false} StepKeepsExactly(s: State, step: Step)
    requires Inv(s)
    ensures Sound(s, step) ==> Inv(Next(s, step))
    ensures !Sound(s, step) ==> exists shop: Id :: Excess(Next(s, step), shop) != 0
  {
    hide Inv, Available, Excess;
    match step
    case RequestStep(shop, amount, legacy) => RequestKeepsInv(s, shop, amount, legacy);
    case PaymentStep(o, a, c, shop) => MoneyKeepsInv(s, PostPayment(o, a, c, shop));
    case RefundStep(r, a, c, shop) => MoneyKeepsInv(s, PostRefund(r, a, c, shop));
    case ProcessingStep(id) =>
      ProcessingExactly(s, id);
      assert Next(s, step) == MarkProcessing(s, id);
    case CompleteStep(id, legacy) =>
      CompletionExactly(s, id, legacy);
      assert Next(s, step) == Complete(s, id, legacy);
    case FailStep(id) => FailureKeepsInv(s, id);
    case DecideStep(id, decision, legacy) =>
      DecisionExactly(s, id, decision, legacy);
      assert Next(s, step) == Decide(s, id, decision, legacy);
  }

  lemma {:induction false} ProcessingExactly(s: State, id: Id)
    requires Inv(s)
    ensures id < |s.payouts| && s.payouts[id].status.Approved? ==>
              exists shop: Id :: Excess(MarkProcessing(s, id), shop) != 0
    ensures !(id < |s.payouts| && s.payouts[id].status.Approved?) ==> Inv(MarkProcessing(s, id))
  {
    if id < |s.payouts| {
      assert RowConsistent(s.book, id, s.payouts[id]);
      if s.payouts[id].status.Approved? {
        StatusMovesExcess(s, id, Processing);
        assert Excess(MarkProcessing(s, id), s.payouts[id].shop) != 0;
      } else if s.payouts[id].status.Reserved? {
        RelabelKeepsInv(s, id, Processing);
      }
    }
  }

  lemma {:induction false} DecisionExactly(s: State, id: Id, decision: Decision, legacy: int)
    requires Inv(s)
    ensures Sound(s, DecideStep(id, decision, legacy)) ==> Inv(Decide(s, id, decision, legacy))
    ensures !Sound(s, DecideStep(id, decision, legacy)) ==>
              exists shop: Id :: Excess(Decide(s, id, decision, legacy), shop) != 0
  {
    hide Available, Fail, Complete;
    CompletionExactly(s, id, legacy);
    FailureKeepsInv(s, id);
    if id < |s.payouts| {
      var row := s.payouts[id];
      assert RowConsistent(s.book, id, row);
      if decision.MarkPaid? {
        assert !CompletionSound(s, id, legacy) ==> Excess(Decide(s, id, decision, legacy), row.shop) != 0;
      } else if decision.Approve? && Holds(row) {
        StatusMovesExcess(s, id, Approved);
        assert Excess(Decide(s, id, decision, legacy), row.shop) != 0;
      } else if decision.Approve? {
        RelabelKeepsInv(s, id, Approved);
      } else if !Holds(row) {
        RelabelKeepsInv(s, id, Rejected);
      }
    }
  }

  lemma {:induction false} RunKeepsInv(s: State, steps: seq<Step>)
    requires Inv(s)
    requires SoundRun(s, steps)
    ensures Inv(Run(s, steps))
  {
    hide Next, Sound;
    if |steps| == 0 {
    } else {
      RunKeepsInv(s, steps[..|steps| - 1]);
      StepKeepsExactly(Run(s, steps[..|steps| - 1]), steps[|steps| - 1]);
    }
  }

  /**
   * The holding equation, over every run whose steps are sound where they are taken: each shop's
   * VENDOR_AVAILABLE balance is the sum of its RESERVED and PROCESSING payouts, and no payout ever
   * has both a release and a completion.
   */
  lemma {:induction false} HoldingEquation(steps: seq<Step>)
    requires SoundRun(START, steps)
    ensures forall shop: Id :: Net(Run(START, steps).book, OfShop(VendorAvailable, shop))
                               == Sum(Run(START, steps).payouts, Holding(shop))
    ensures forall id: Id :: !(IsPosted(Run(START, steps).book, ReleaseKey(id))
              && IsPosted(Run(START, steps).book, CompleteKey(id)))
  {
    StartHasInv();
    RunKeepsInv(START, steps);
    var s := Run(START, steps);
    InvGivesBooks(s);
    forall shop: Id ensures Net(s.book, OfShop(VendorAvailable, shop)) == Sum(s.payouts, Holding(shop)) {
      assert Excess(s, shop) == 0;
    }
    forall id: Id ensures !(IsPosted(s.book, ReleaseKey(id)) && IsPosted(s.book, CompleteKey(id))) {
      assert !(Released(s, id) && Finished(s, id));
    }
  }

  /** And no other run keeps it: the books are right all along a run exactly when every step is sound. */
  lemma {:induction false} HoldingEquationExactly(steps: seq<Step>)
    ensures SoundRun(START, steps) <==> forall n: nat :: n <= |steps| ==> Books(Run(START, steps[..n]))
  {
    hide Next, Sound, Books;
    if |steps| == 0 {
      StartHasInv();
      InvGivesBooks(START);
      assert steps[..0] == steps;
    } else {
      var last := |steps| - 1;
      var before := steps[..last];
      HoldingEquationExactly(before);
      forall n: nat | n <= last ensures steps[..n] == before[..n] {
      }
      assert steps[..|steps|] == steps;
      if SoundRun(START, before) {
        StartHasInv();
        RunKeepsInv(START, before);
        StepBooksExactly(Run(START, before), steps[last]);
      }
    }
  }

  lemma {:induction false} StepBooksExactly(s: State, step: Step)
    requires Inv(s)
    ensures Books(Next(s, step)) <==> Sound(s, step)
  {
    StepKeepsExactly(s, step);
    if Sound(s, step) {
      InvGivesBooks(Next(s, step));
    }
  }

  /**
   * Approving a row and carrying it through processing to completion posts both a release and a
   * completion exactly when the row had been released.
   */
  lemma {:induction false} ApprovalAfterRelease(s: State, id: Id, legacy: int)
    requires Inv(s)
    requires id < |s.payouts|
    ensures var t := Complete(MarkProcessing(Decide(s, id, Approve, legacy), id), id, legacy);
            t.payouts[id].status.Completed? && (Released(t, id) && Finished(t, id) <==> Released(s, id))
  {
    var row := s.payouts[id];
    assert RowConsistent(s.book, id, row);
    PostEffect(s.book, PostComplete(id, row.shop, row.amountCents));
  }

  /** Carried to failure instead, it posts both exactly when the row had been completed. */
  lemma {:induction false} ApprovalAfterCompletion(s: State, id: Id, legacy: int)
    requires Inv(s)
    requires id < |s.payouts|
    ensures var t := Fail(MarkProcessing(Decide(s, id, Approve, legacy), id), id);
            t.payouts[id].status.Failed? && (Released(t, id) && Finished(t, id) <==> Finished(s, id))
  {
    var row := s.payouts[id];
    assert RowConsistent(s.book, id, row);
    PostEffect(s.book, PostRelease(id, row.shop, row.amountCents));
  }

  /** The row of an approved payout once it is processing. */
  lemma {:induction false} ApprovedProcessing(s: State, id: Id, legacy: int)
    requires Inv(s) && id < |s.payouts|
    ensures var p := MarkProcessing(Decide(s, id, Approve, legacy), id);
            p.book == s.book && p.payouts == s.payouts[id := s.payouts[id].(status := Processing)]
            && Excess(p, s.payouts[id].shop) == (if Holds(s.payouts[id]) then 0 else -s.payouts[id].amountCents)
  {
    hide Available, Inv;
    RowOf(s, id);
    StatusMovesExcess(s, id, Processing);
  }

  lemma {:induction false} RowOf(s: State, id: Id)
    requires Inv(s) && id < |s.payouts|
    ensures RowConsistent(s.book, id, s.payouts[id]) && Excess(s, s.payouts[id].shop) == 0
  {
  }

  /**
   * What an approval costs, for any row, once it is processing: its shop is short by the amount unless
   * the row held money anyway. Completing it keeps the shop short exactly for released rows, failing
   * it exactly for completed ones.
   */
  lemma {:induction false} ApprovalShortfall(s: State, id: Id, legacy: int)
    requires Inv(s)
    requires id < |s.payouts|
    ensures var row := s.payouts[id];
            var p := MarkProcessing(Decide(s, id, Approve, legacy), id);
            && Excess(p, row.shop) == (if Holds(row) then 0 else -row.amountCents)
            && Excess(Complete(p, id, legacy), row.shop) == (if Released(s, id) then -row.amountCents else 0)
            && Excess(Fail(p, id), row.shop) == (if Finished(s, id) then -row.amountCents else 0)
  {
    hide Available, Inv, Excess;
    var row := s.payouts[id];
    RowOf(s, id);
    ApprovedProcessing(s, id, legacy);
    var p := MarkProcessing(Decide(s, id, Approve, legacy), id);
    FinishMovesExcess(p, id, false);
    StatusMovesExcess(p.(book := Post(p.book, CompleteTx(id, row.shop, row.amountCents))), id, Completed);
    FinishMovesExcess(p, id, true);
    StatusMovesExcess(p.(book := Post(p.book, ReleaseTx(id, row.shop, row.amountCents))), id, Failed);
  }

  /**
   * Approving a row that holds money strands the amount in VENDOR_AVAILABLE: failing the row then
   * releases nothing, and only a completion that still finds the balance clears it.
   */
  lemma {:induction false} ApprovalStrandsHeld(s: State, id: Id, legacy: int)
    requires Inv(s)
    requires id < |s.payouts| && Holds(s.payouts[id])
    ensures var row := s.payouts[id];
            var a := Decide(s, id, Approve, legacy);
            && Excess(a, row.shop) == row.amountCents
            && Excess(Fail(a, id), row.shop) == row.amountCents && !Released(Fail(a, id), id)
            && Excess(Complete(a, id, legacy), row.shop)
               == (if Available(s.book, row.shop, legacy) >= row.amountCents then 0 else row.amountCents)
  {
    hide Available, Inv, Excess;
    var row := s.payouts[id];
    RowOf(s, id);
    StatusMovesExcess(s, id, Approved);
    var a := Decide(s, id, Approve, legacy);
    StatusMovesExcess(a, id, Failed);
    RePostIsInert(s.book, ReserveTx(id, row.shop, row.amountCents));
    FinishMovesExcess(a, id, false);
    StatusMovesExcess(a.(book := Post(a.book, CompleteTx(id, row.shop, row.amountCents))), id, Completed);
  }

  /** A first payment makes exactly its vendor share available. */
  lemma {:induction false} FirstPaymentFunds(order: Id, amount: int, commission: int, shop: Id)
    requires amount > 0
    ensures Available(Next(START, PaymentStep(order, amount, commission, shop)).book, shop, 0)
              == amount - BookedCommission(amount, commission)
  {
    PostedNet(PostPayment(order, amount, commission, shop), OfShop(VendorPayable, shop));
    NetAfterPost([], PaymentTx(order, amount, commission, shop), OfShop(VendorPayable, shop));
    AvailableIsPayable(Next(START, PaymentStep(order, amount, commission, shop)).book, shop);
  }

  lemma {:induction false} FailureReleases(s: State, id: Id)
    requires Inv(s)
    requires id < |s.payouts| && Holds(s.payouts[id])
    ensures Inv(Fail(s, id)) && Fail(s, id).payouts == s.payouts[id := s.payouts[id].(status := Failed)]
    ensures IsPosted(Fail(s, id).book, ReleaseKey(id))
  {
    CloseKeepsInv(s, id, true);
    assert RowConsistent(s.book, id, s.payouts[id]);
    PostEffect(s.book, PostRelease(id, s.payouts[id].shop, s.payouts[id].amountCents));
  }

  /**
   * Such rows exist: after a payment and a payout of its vendor share the row holds money, and it can be failed
   * or completed.
   */
  lemma {:induction false} SettledRowsReachable(order: Id, amount: int, commission: int, shop: Id)
    requires 0 <= commission < amount
    ensures var s := Request(Next(START, PaymentStep(order, amount, commission, shop)), shop, amount - commission, 0);
            && Inv(s) && |s.payouts| == 1 && Holds(s.payouts[0])
            && Inv(Fail(s, 0)) && |Fail(s, 0).payouts| == 1 && Fail(s, 0).payouts[0].status.Failed?
                 && Released(Fail(s, 0), 0)
            && Inv(Complete(s, 0, 0)) && |Complete(s, 0, 0).payouts| == 1
                 && Complete(s, 0, 0).payouts[0].status.Completed?
            && Finished(Complete(s, 0, 0), 0)
  {
    hide Inv, Fail, Complete, Available;
    var s1 := Next(START, PaymentStep(order, amount, commission, shop));
    StartHasInv();
    MoneyKeepsInv(START, PostPayment(order, amount, commission, shop));
    FirstPaymentFunds(order, amount, commission, shop);
    RequestKeepsInv(s1, shop, amount - commission, 0);
    FailureReleases(Request(s1, shop, amount - commission, 0), 0);
    CompletionFinishes(Request(s1, shop, amount - commission, 0), 0);
  }

  lemma {:induction false} CompletionFinishes(s: State, id: Id)
    requires Inv(s)
    requires id < |s.payouts| && Holds(s.payouts[id])
    ensures Inv(Complete(s, id, 0))
              && Complete(s, id, 0).payouts == s.payouts[id := s.payouts[id].(status := Completed)]
    ensures Finished(Complete(s, id, 0), id)
  {
    CloseKeepsInv(s, id, false);
    assert RowConsistent(s.book, id, s.payouts[id]);
    PostEffect(s.book, PostComplete(id, s.payouts[id].shop, s.payouts[id].amountCents));
  }

  lemma {:induction false} StartHasInv()
    ensures Inv(START)
  {
  }

  // ---------------------------------------------------------------- service

  /** What the database does to one attempt of a transaction. */
  datatype Fault = NoFault | Retryable | Fatal

  const MAX_ATTEMPTS := 5

  /** Some attempt goes through, and those before it may be repeated. */
  predicate Commits(faults: seq<Fault>) {
    exists k :: 0 <= k < |faults| && faults[k].NoFault? && forall i :: 0 <= i < k ==> faults[i].Retryable?
  }

  /** Amounts of a shop's open requests, as the older balance subtracts them. */
  function OpenAmounts(payouts: seq<PayoutRow>, shop: Id): seq<int> {
    if |payouts| == 0 then []
    else
      var row := payouts[|payouts| - 1];
      var open := row.status.Pending? || row.status.Reserved? || row.status.Processing? || row.status.Approved?;
      OpenAmounts(payouts[..|payouts| - 1], shop) + (if row.shop == shop && open then [row.amountCents] else [])
  }

  function OpenCents(shop: Id): PayoutRow -> int {
    (r: PayoutRow) =>
      if r.shop == shop && r.status in {Pending, Reserved, Processing, Approved} then r.amountCents else 0
  }

  /** The open requests of a shop hold the cents of its rows that are neither closed nor rejected. */
  lemma {:induction false} OpenAmountsExactly(payouts: seq<PayoutRow>, shop: Id)
    ensures Sum(OpenAmounts(payouts, shop), HeldCents()) == Sum(payouts, OpenCents(shop))
  {
    if |payouts| == 0 {
    } else {
      var n := |payouts| - 1;
      OpenAmountsExactly(payouts[..n], shop);
      SumAppend(OpenAmounts(payouts[..n], shop), payouts[n].amountCents, HeldCents());
      assert OpenAmounts(payouts[..n], shop) + [] == OpenAmounts(payouts[..n], shop);
    }
  }

  /** What the older table and the open requests leave the shop of a payout. */
  function LegacyFor(s: State, rows: seq<LegacyRow>, id: Id): int {
    if id < |s.payouts| then LegacyBalance(rows, OpenAmounts(s.payouts, s.payouts[id].shop)) else 0
  }

  // -------------------------------------------------------- what becomes of a row

  /** The row a step is about. */
  predicate About(step: Step, id: Id) {
    match step
    case ProcessingStep(i) => i == id
    case CompleteStep(i, _) => i == id
    case FailStep(i) => i == id
    case DecideStep(i, _, _) => i == id
    case _ => false
  }

  /** `to` is where the statuses in `movable` go; the others stay. */
  predicate Goes(from: Status, to: Status, movable: set<Status>, target: Status) {
    to == if from in movable then target else from
  }

  /**
   * The life of a payout, for every step and every status before it. Held rows can always be processed,
   * completed or failed; APPROVED and PENDING ones are completed while the balance covers them; COMPLETED,
   * PAID, FAILED and CANCELLED rows move only by a decision. No step touches a shop, an amount, or another row.
   */
  lemma {:induction false} StatusAfter(s: State, step: Step, id: Id)
    requires id < |s.payouts|
    ensures var t := Next(s, step);
            var row := s.payouts[id];
            id < |t.payouts| && t.payouts[id] == row.(status := t.payouts[id].status) &&
            var from, to := row.status, t.payouts[id].status;
            var covered := (legacy: int) => Available(s.book, row.shop, legacy) >= row.amountCents;
            && (!About(step, id) ==> to == from)
            && (step == ProcessingStep(id) ==> Goes(from, to, {Pending, Reserved, Approved}, Processing))
            && (forall legacy: int :: step == CompleteStep(id, legacy) || step == DecideStep(id, MarkPaid, legacy) ==>
                  var payable := if covered(legacy) then {Pending, Approved} else {};
                  Goes(from, to, {Reserved, Processing} + payable, Completed))
            && (step == FailStep(id) ==> Goes(from, to, {Pending, Reserved, Processing, Approved, Rejected}, Failed))
            && (forall legacy: int :: step == DecideStep(id, Reject, legacy) ==>
                  to == if from in {Reserved, Processing} then Failed else Rejected)
            && (forall legacy: int :: step == DecideStep(id, Approve, legacy) ==>
                  to == if from != Pending then Approved else if covered(legacy) then Reserved else Pending)
  {
    hide Available, Post;
  }

  /** A request is granted exactly for a positive amount within the balance; it moves the amount and adds its row. */
  lemma {:induction false} RequestGrantedExactly(s: State, shop: Id, amount: int, legacy: int)
    requires Inv(s)
    ensures var t := Next(s, RequestStep(shop, amount, legacy));
            if amount > 0 && Available(s.book, shop, legacy) >= amount then
              && t.payouts == s.payouts + [PayoutRow(shop, amount, Reserved)]
              && Net(t.book, OfShop(VendorPayable, shop)) == Net(s.book, OfShop(VendorPayable, shop)) - amount
              && Net(t.book, OfShop(VendorAvailable, shop)) == Net(s.book, OfShop(VendorAvailable, shop)) + amount
            else t == s
  {
    if amount > 0 && Available(s.book, shop, legacy) >= amount {
      var op := PostReserve(|s.payouts|, shop, amount);
      assert Untouched(s.book, |s.payouts|);
      hide Inv, Available, Net, Post, NetEntries;
      PostedNet(op, OfShop(VendorPayable, shop));
      PostedNet(op, OfShop(VendorAvailable, shop));
      NetAfterPost(s.book, TxOf(op), OfShop(VendorPayable, shop));
      NetAfterPost(s.book, TxOf(op), OfShop(VendorAvailable, shop));
    }
  }

  /** Without decisions a payout that was completed, paid, failed or cancelled never moves again. */
  lemma {:induction false} SettledStays(s: State, steps: seq<Step>, id: Id)
    requires id < |s.payouts| && s.payouts[id].status in {Completed, Paid, Failed, Cancelled}
    requires forall i :: 0 <= i < |steps| ==> !steps[i].DecideStep?
    ensures id < |Run(s, steps).payouts| && Run(s, steps).payouts[id] == s.payouts[id]
  {
    hide Next;
    if |steps| == 0 {
    } else {
      var n := |steps| - 1;
      SettledStays(s, steps[..n], id);
      StatusAfter(Run(s, steps[..n]), steps[n], id);
    }
  }

  /** `rows` are always the older table's rows of the shop concerned. */
  class FinanceService {
    const ledger: LedgerService
    var payouts: seq<PayoutRow>

    constructor (ledger: LedgerService)
      ensures this.ledger == ledger && payouts == []
    {
      this.ledger := ledger;
      payouts := [];
    }

    function Current(): State
      reads this, ledger
    {
      State(ledger.transactions, payouts)
    }

    /** Whatever the database does to the attempts, the request takes effect at most once. */
    method RequestPayoutAtomic(shop: Id, amountCents: int, rows: seq<LegacyRow>, faults: seq<Fault>)
        returns (r: Result<Id, PayoutError>)
      requires |faults| == MAX_ATTEMPTS
      modifies this, ledger
      ensures var legacy := LegacyBalance(rows, OpenAmounts(old(payouts), shop));
              && (r.Success? ==> Current() == Request(old(Current()), shop, amountCents, legacy)
                                 && Current() != old(Current()))
              && (r == Failure(InsufficientBalance) ==> Available(old(ledger.transactions), shop, legacy) < amountCents)
              && (r.Success? <==> amountCents > 0 && Available(old(ledger.transactions), shop, legacy) >= amountCents
                                  && Commits(faults))
      ensures r.Success? ==> r.value == |old(payouts)| && payouts[r.value].status.Reserved?
      ensures r.Failure? ==> Current() == old(Current())
      ensures r == Failure(InvalidAmount) <==> amountCents <= 0
      ensures r == Failure(Unavailable) ==> exists i :: 0 <= i < MAX_ATTEMPTS && !faults[i].NoFault?
    {
      if amountCents <= 0 {
        return Failure(InvalidAmount);
      }
      for attempt := 0 to MAX_ATTEMPTS
        invariant Current() == old(Current())
        invariant forall i :: 0 <= i < attempt ==> faults[i].Retryable?
      {
        var available := ledger.GetAvailableBalance(shop, rows, OpenAmounts(payouts, shop));
        match faults[attempt]
        case Retryable =>
        case Fatal =>
          return Failure(Unavailable);
        case NoFault =>
          if available < amountCents {
            return Failure(InsufficientBalance);
          }
          var id := |payouts|;
          payouts := payouts + [PayoutRow(shop, amountCents, Reserved)];
          var _ := ledger.PostPayoutReserve(id, shop, amountCents);
          return Success(id);
      }
      assert faults[0].Retryable?;
      return Failure(Unavailable);
    }

    method MarkPayoutProcessing(id: Id) returns (r: Result<PayoutRow, PayoutError>)
      modifies this
      ensures Current() == MarkProcessing(old(Current()), id)
      ensures r.Success? ==> id < |payouts| && r.value == payouts[id] && r.value.status.Processing?
      ensures r.Success? <==> id < |old(payouts)| && old(payouts)[id].status in {Pending, Reserved, Approved}
      ensures r.Failure? ==> payouts == old(payouts)
    {
      if id >= |payouts| {
        return Failure(NotFound);
      }
      var row := payouts[id];
      if !row.status.Reserved? && !row.status.Approved? && !row.status.Pending? {
        return Failure(InvalidStatus);
      }
      payouts := payouts[id := row.(status := Processing)];
      return Success(payouts[id]);
    }

    method CompletePayout(id: Id, rows: seq<LegacyRow>) returns (r: Result<PayoutRow, PayoutError>)
      modifies this, ledger
      ensures Current() == Complete(old(Current()), id, LegacyFor(old(Current()), rows, id))
      ensures r.Success? ==> id < |payouts| && r.value == payouts[id]
                             && (r.value.status.Completed? || r.value.status.Paid?)
      ensures r.Success? <==> id < |old(payouts)| && var row := old(payouts)[id];
                              || row.status in {Reserved, Processing, Completed, Paid}
                              || (row.status in {Pending, Approved}
                                  && Available(old(ledger.transactions), row.shop, LegacyFor(old(Current()), rows, id))
                                     >= row.amountCents)
      ensures r.Failure? ==> Current() == old(Current())
    {
      if id >= |payouts| {
        return Failure(NotFound);
      }
      var row := payouts[id];
      if !row.status.Reserved? && !row.status.Processing? && !row.status.Approved? && !row.status.Pending? {
        if row.status.Completed? || row.status.Paid? {
          return Success(row);
        }
        return Failure(InvalidStatus);
      }
      if row.status.Pending? || row.status.Approved? {
        var available := ledger.GetAvailableBalance(row.shop, rows, OpenAmounts(payouts, row.shop));
        if available < row.amountCents {
          return Failure(InsufficientBalance);
        }
        var _ := ledger.PostPayoutReserve(id, row.shop, row.amountCents);
      }
      var _ := ledger.PostPayoutCompleted(id, row.shop, row.amountCents);
      payouts := payouts[id := row.(status := Completed)];
      return Success(payouts[id]);
    }

    method FailPayout(id: Id) returns (r: Result<PayoutRow, PayoutError>)
      modifies this, ledger
      ensures Current() == Fail(old(Current()), id)
      ensures r.Success? ==> id < |payouts| && r.value == payouts[id] && r.value.status.Failed?
      ensures r.Success? <==> id < |old(payouts)|
                              && old(payouts)[id].status in {Pending, Reserved, Processing, Approved, Rejected}
      ensures r.Failure? ==> Current() == old(Current())
    {
      if id >= |payouts| {
        return Failure(NotFound);
      }
      var row := payouts[id];
      if row.status.Completed? || row.status.Paid? || row.status.Failed? || row.status.Cancelled? {
        return Failure(InvalidStatus);
      }
      if row.status.Reserved? || row.status.Processing? {
        var _ := ledger.ReleasePayoutReserve(id, row.shop, row.amountCents);
      }
      payouts := payouts[id := row.(status := Failed)];
      return Success(payouts[id]);
    }

    method DecidePayout(id: Id, decision: Decision, rows: seq<LegacyRow>) returns (r: Result<PayoutRow, PayoutError>)
      modifies this, ledger
      ensures Current() == Decide(old(Current()), id, decision, LegacyFor(old(Current()), rows, id))
      ensures r.Success? ==> id < |payouts| && r.value == payouts[id]
      ensures r.Success? <==> id < |old(payouts)| && var row := old(payouts)[id];
                              var covered := Available(old(ledger.transactions), row.shop,
                                                       LegacyFor(old(Current()), rows, id)) >= row.amountCents;
                              match decision
                              case Reject => true
                              case Approve => row.status.Pending? ==> covered
                              case MarkPaid => row.status in {Reserved, Processing, Completed, Paid}
                                               || (row.status in {Pending, Approved} && covered)
      ensures r.Failure? ==> Current() == old(Current())
    {
      if id >= |payouts| {
        return Failure(NotFound);
      }
      var row := payouts[id];
      if decision.MarkPaid? {
        r := CompletePayout(id, rows);
        return;
      }
      if decision.Reject? {
        if row.status.Reserved? || row.status.Processing? {
          r := FailPayout(id);
          return;
        }
        payouts := payouts[id := row.(status := Rejected)];
        return Success(payouts[id]);
      }
      if row.status.Pending? {
        var available := ledger.GetAvailableBalance(row.shop, rows, OpenAmounts(payouts, row.shop));
        if available < row.amountCents {
          return Failure(InsufficientBalance);
        }
        var _ := ledger.PostPayoutReserve(id, row.shop, row.amountCents);
        payouts := payouts[id := row.(status := Reserved)];
        return Success(payouts[id]);
      }
      payouts := payouts[id := row.(status := Approved)];
      return Success(payouts[id]);
    }
  }
}
