/**
 * Concurrent payout requests under the Shop row lock, as an interleaving of
 * lock / read / check / commit / abort events with other committed steps,
 * and its refinement to the atomic payout protocol.
 */
module PayoutConcurrency {
  import opened Common
  import opened Sums
  import opened Ledger
  import P = Payouts

  /** Where one `requestPayoutAtomic` call is inside its current attempt. */
  datatype Phase =
    | Ready                      // about to take the row lock
    | Locked                     // holds the lock, balance not read yet
    | HasRead(available: int)    // holds the lock and a balance
    | Staged                     // row and ledger entries written, not committed
    | Committed
    | Refused                    // insufficient balance
    | GaveUp                     // non-retryable error, or attempts exhausted

  datatype Client = Client(shop: Id, amount: int, phase: Phase, attempt: nat)

  datatype State = State(core: P.State, locks: map<Id, Id>, clients: seq<Client>)

  predicate InTransaction(c: Client) {
    c.phase.Locked? || c.phase.HasRead? || c.phase.Staged?
  }

  datatype Event =
    | TakeLock(client: Id)
    | Read(client: Id)
    | Check(client: Id)
    | Commit(client: Id)
    | Abort(client: Id, retryable: bool)
    | Other(step: P.Step)        // another committed transaction

  /** Another transaction may commit if it keeps the payout books, and needs no shop lock or finds it free. */
  predicate OtherMayCommit(s: State, step: P.Step) {
    match step
    case PaymentStep(_, _, _, _) => true
    case ProcessingStep(_) => P.Sound(s.core, step)
    case CompleteStep(id, legacy) => legacy == 0 && (id < |s.core.payouts| ==> s.core.payouts[id].shop !in s.locks)
        && P.Sound(s.core, step)
    case FailStep(id) => id < |s.core.payouts| ==> s.core.payouts[id].shop !in s.locks
    case DecideStep(id, d, legacy) => legacy == 0 && (id < |s.core.payouts| ==> s.core.payouts[id].shop !in s.locks)
        && P.Sound(s.core, step)
    case RefundStep(_, _, _, _) => true
    case _ => false
  }

  function Enter(s: State, c: Id, phase: Phase): State
    requires c < |s.clients|
  {
    s.(clients := s.clients[c := s.clients[c].(phase := phase)])
  }

  function Unlock(s: State, c: Id): State
    requires c < |s.clients|
  {
    s.(locks := s.locks - {s.clients[c].shop})
  }

  predicate Enabled(s: State, e: Event) {
    match e
    case Other(step) => OtherMayCommit(s, step)
    case _ =>
      e.client < |s.clients| &&
      var me := s.clients[e.client];
      match e
      case TakeLock(_) => me.phase.Ready? && me.shop !in s.locks
      case Read(_) => me.phase.Locked?
      case Check(_) => me.phase.HasRead?
      case Commit(_) => me.phase.Staged?
      case Abort(_, _) => InTransaction(me)
      case Other(_) => false
  }

  /** One event; an event that is not enabled does nothing. */
  function Next(s: State, e: Event): State {
    if !Enabled(s, e) then s else
    match e
    case Other(step) => s.(core := P.Next(s.core, step))
    case TakeLock(c) => Enter(s.(locks := s.locks[s.clients[c].shop := c]), c, Locked)
    case Read(c) => Enter(s, c, HasRead(Available(s.core.book, s.clients[c].shop, 0)))
    case Check(c) =>
      if s.clients[c].phase.available < s.clients[c].amount then Enter(Unlock(s, c), c, Refused)
          else Enter(s, c, Staged)
    case Commit(c) =>
      var me := s.clients[c];
      var id := |s.core.payouts|;
      var core := P.State(Post(s.core.book, ReserveTx(id, me.shop, me.amount)),
          s.core.payouts + [P.PayoutRow(me.shop, me.amount, P.Reserved)]);
      Enter(Unlock(s, c).(core := core), c, Committed)
    case Abort(c, retryable) =>
      var me := s.clients[c];
      if retryable && me.attempt + 1 < P.MAX_ATTEMPTS
      then Unlock(s, c).(clients := s.clients[c := me.(phase := Ready, attempt := me.attempt + 1)])
      else Enter(Unlock(s, c), c, GaveUp)
  }

  function Run(s: State, events: seq<Event>): State {
    if |events| == 0 then s else Next(Run(s, events[..|events| - 1]), events[|events| - 1])
  }

  /** The atomic step, if any, that an event takes effect as. */
  function AtomicStep(s: State, e: Event): seq<P.Step> {
    if !Enabled(s, e) then []
    else if e.Commit? then [P.RequestStep(s.clients[e.client].shop, s.clients[e.client].amount, 0)]
    else if e.Other? then [e.step]
    else []
  }

  function AtomicTrace(s: State, events: seq<Event>): seq<P.Step> {
    if |events| == 0 then []
    else AtomicTrace(s, events[..|events| - 1]) + AtomicStep(Run(s, events[..|events| - 1]), events[|events| - 1])
  }

  /** Any number of calls, each past the amount check and not yet in a transaction; nothing committed. */
  predicate Start(s: State) {
    && s.core == P.START
    && s.locks == map[]
    && (forall c :: 0 <= c < |s.clients| ==> s.clients[c].amount > 0 && s.clients[c].phase.Ready?
                                             && s.clients[c].attempt == 0)
  }

  function Payable(s: State, shop: Id): int {
    Net(s.core.book, OfShop(VendorPayable, shop))
  }

  // ---------------------------------------------------- credits and payouts

  function NetBy(reference: Reference, slice: Slice): Transaction -> int {
    (t: Transaction) => if t.key.reference == reference then NetEntries(t.entries, slice) else 0
  }

  /** Credits to a shop's payable balance by payments. */
  function VendorCredits(book: Book, shop: Id): int {
    Sum(book, NetBy(OrderRef, OfShop(VendorPayable, shop)))
  }

  /** Reserved by payouts and not released again: held or paid out. */
  function HeldOrPaidOut(book: Book, shop: Id): int {
    -(Sum(book, NetBy(PayoutRef, OfShop(VendorPayable, shop)))
        + Sum(book, NetBy(PayoutReleaseRef, OfShop(VendorPayable, shop))))
  }

  /** The payable balance as it would be without refunds. */
  function Gross(book: Book, shop: Id): int {
    VendorCredits(book, shop) - HeldOrPaidOut(book, shop)
  }

  lemma {:induction false} GrossOfAppend(book: Book, t: Transaction, shop: Id)
    ensures var slice := OfShop(VendorPayable, shop);
            Gross(book + [t], shop) == Gross(book, shop) + NetBy(OrderRef, slice)(t) + NetBy(PayoutRef, slice)(t)
                + NetBy(PayoutReleaseRef, slice)(t)
  {
    var slice := OfShop(VendorPayable, shop);
    SumAppend(book, t, NetBy(OrderRef, slice));
    SumAppend(book, t, NetBy(PayoutRef, slice));
    SumAppend(book, t, NetBy(PayoutReleaseRef, slice));
  }

  /** Every post but a refund moves both balances alike; a refund lowers only the real one. */
  lemma {:induction false} PostMoves(book: Book, op: Op, shop: Id)
    ensures var after := Post(book, TxOf(op));
            var net := Net(after, OfShop(VendorPayable, shop)) - Net(book, OfShop(VendorPayable, shop));
            var gross := Gross(after, shop) - Gross(book, shop);
            if op.PostRefund? then net <= 0 == gross else net == gross
  {
    hide Gross, Net, NetBy, NetEntries, OpNet;
    var slice := OfShop(VendorPayable, shop);
    BuiltIsLawful(op);
    NetAfterPost(book, TxOf(op), slice);
    if op.amount > 0 {
      PostedNet(op, slice);
      GrossOfAppend(book, TxOf(op), shop);
      GrossShare(op, shop);
    }
  }

  /** All that a post moves between the payable account and the rest counts as gross, except a refund. */
  lemma {:induction false} GrossShare(op: Op, shop: Id)
    requires op.amount > 0
    ensures var slice, t := OfShop(VendorPayable, shop), TxOf(op);
            NetBy(OrderRef, slice)(t) + NetBy(PayoutRef, slice)(t) + NetBy(PayoutReleaseRef, slice)(t)
            == if op.PostRefund? then 0 else OpNet(op, slice)
    ensures op.PostRefund? ==> OpNet(op, OfShop(VendorPayable, shop)) <= 0
  {
    PostedNet(op, OfShop(VendorPayable, shop));
    hide NetEntries, Objection;
  }

  lemma {:induction false} OpsMove(book: Book, ops: seq<Op>, shop: Id)
    ensures var after := Ledger.Run(book, ops);
            var net := Net(after, OfShop(VendorPayable, shop)) - Net(book, OfShop(VendorPayable, shop));
            var gross := Gross(after, shop) - Gross(book, shop);
            net <= gross && ((forall i :: 0 <= i < |ops| ==> !ops[i].PostRefund?) ==> net == gross)
  {
    hide Net, Gross, Post, TxOf;
    if |ops| == 0 {
    } else {
      var n := |ops| - 1;
      OpsMove(book, ops[..n], shop);
      PostMoves(Ledger.Run(book, ops[..n]), ops[n], shop);
    }
  }

  // -------------------------------------------------------------- invariant

  /** The lock table and the clients agree: at most one client per shop is inside a transaction. */
  predicate LocksAgree(s: State) {
    && (forall c :: 0 <= c < |s.clients| && InTransaction(s.clients[c]) ==>
         s.clients[c].shop in s.locks && s.locks[s.clients[c].shop] == c)
    && (forall shop :: shop in s.locks ==> s.locks[shop] < |s.clients| && s.clients[s.locks[shop]].shop == shop
                                           && InTransaction(s.clients[s.locks[shop]]))
  }

  /** What a client inside a transaction may still count on, refunds aside. */
  predicate Covered(s: State, c: Client) {
    && c.amount > 0
    && c.attempt < P.MAX_ATTEMPTS
    && (c.phase.HasRead? ==> c.phase.available <= Max(0, Gross(s.core.book, c.shop)))
    && (c.phase.Staged? ==> c.amount <= Gross(s.core.book, c.shop))
  }

  ghost predicate Inv(s: State) {
    && P.Inv(s.core)
    && LocksAgree(s)
    && (forall c :: 0 <= c < |s.clients| ==> Covered(s, s.clients[c]))
    && (forall shop: Id :: Payable(s, shop) <= Gross(s.core.book, shop) && Gross(s.core.book, shop) >= 0)
  }

  /** No refund has been posted. */
  ghost predicate Unrefunded(s: State) {
    forall shop: Id :: Payable(s, shop) == Gross(s.core.book, shop)
  }

  /**
   * Under the payout invariant no other committed step but a refund lowers a payable balance, and a refund
   * leaves the gross one.
   */
  lemma {:induction false} OtherStepsOnlyCredit(core: P.State, step: P.Step, shop: Id)
    requires P.Inv(core) && P.Sound(core, step) && !step.RequestStep?
    ensures var after := P.Next(core, step).book;
            && Gross(after, shop) >= Gross(core.book, shop)
            && Net(after, OfShop(VendorPayable, shop)) - Net(core.book, OfShop(VendorPayable, shop))
                 <= Gross(after, shop) - Gross(core.book, shop)
            && (!step.RefundStep? ==>
                  Net(after, OfShop(VendorPayable, shop)) - Net(core.book, OfShop(VendorPayable, shop))
                      == Gross(after, shop) - Gross(core.book, shop))
  {
    hide Net, Gross, Post, TxOf, Available, P.Next;
    var ops := P.Posts(core, step);
    P.NextPosts(core, step);
    OpsMove(core.book, ops, shop);
    RunShort(core.book, ops);
    if !step.PaymentStep? && !step.RefundStep? && step.id < |core.payouts| {
      assert P.RowConsistent(core.book, step.id, core.payouts[step.id]);
    }
    if |ops| == 1 {
      PostOnlyCredits(core.book, ops[0], shop);
    }
    if |ops| == 2 {
      KeyOfReserve(ops[0]);
      P.RePostIsInert(core.book, TxOf(ops[0]));
      PostOnlyCredits(core.book, ops[1], shop);
    }
  }

  lemma {:induction false} KeyOfReserve(op: Op)
    requires op.PostReserve?
    ensures TxOf(op).key == P.ReserveKey(op.payout)
  {
  }

  lemma {:induction false} PostOnlyCredits(book: Book, op: Op, shop: Id)
    requires !op.PostReserve?
    ensures Gross(Post(book, TxOf(op)), shop) >= Gross(book, shop)
  {
    BuiltIsLawful(op);
    if op.amount > 0 {
      PostedNet(op, OfShop(VendorPayable, shop));
      GrossOfAppend(book, TxOf(op), shop);
    }
  }

  /** The commit debits exactly the client's amount from exactly its shop. */
  lemma {:induction false} CommitNet(core: P.State, shop: Id, amount: int, other: Id)
    requires P.Inv(core) && amount > 0
    ensures var after := Post(core.book, ReserveTx(|core.payouts|, shop, amount));
            && Net(after, OfShop(VendorPayable, other)) == Net(core.book, OfShop(VendorPayable, other))
                 - (if other == shop then amount else 0)
            && Gross(after, other) == Gross(core.book, other) - (if other == shop then amount else 0)
  {
    var op := PostReserve(|core.payouts|, shop, amount);
    assert P.Untouched(core.book, |core.payouts|);
    PostedNet(op, OfShop(VendorPayable, other));
    NetAfterPost(core.book, TxOf(op), OfShop(VendorPayable, other));
    PostMoves(core.book, op, other);
  }

  /**
   * The commit has the effect of the atomic request exactly when the real balance still covers it; without
   * refunds it always does.
   */
  lemma {:induction false} CommitIsAtomicExactly(s: State, c: Id)
    requires Inv(s)
    requires c < |s.clients| && s.clients[c].phase.Staged?
    ensures var me := s.clients[c];
            && (Next(s, Commit(c)).core == P.Next(s.core, P.RequestStep(me.shop, me.amount, 0)) <==>
                 me.amount <= Payable(s, me.shop))
            && |Next(s, Commit(c)).core.payouts| == |s.core.payouts| + 1
            && (Unrefunded(s) ==> me.amount <= Payable(s, me.shop))
  {
    assert Covered(s, s.clients[c]);
    AvailableIsPayable(s.core.book, s.clients[c].shop);
  }

  /**
   * Staged rows and entries, committed: in the payout core, the effect of a request whose balance check has
   * already passed.
   */
  lemma {:induction false} CommitKeepsCore(core: P.State, shop: Id, amount: int)
    requires P.Inv(core) && amount > 0
    ensures P.Inv(P.State(Post(core.book, ReserveTx(|core.payouts|, shop, amount)),
              core.payouts + [P.PayoutRow(shop, amount, P.Reserved)]))
  {
    var op := PostReserve(|core.payouts|, shop, amount);
    assert P.Untouched(core.book, |core.payouts|);
    P.PostEffect(core.book, op);
    P.NewRowKeepsInv(core, Post(core.book, TxOf(op)), P.PayoutRow(shop, amount, P.Reserved));
  }

  lemma {:induction false} CommitKeepsInv(s: State, c: Id)
    requires Inv(s)
    requires c < |s.clients| && s.clients[c].phase.Staged?
    ensures Inv(Next(s, Commit(c)))
    ensures Unrefunded(s) ==> Unrefunded(Next(s, Commit(c)))
  {
    hide Available, Net, Gross, P.Inv;
    var t := Next(s, Commit(c));
    var me := s.clients[c];
    assert Covered(s, me);
    CommitKeepsCore(s.core, me.shop, me.amount);
    forall shop: Id
      ensures Payable(t, shop) == Payable(s, shop) - (if shop == me.shop then me.amount else 0)
      ensures Gross(t.core.book, shop) == Gross(s.core.book, shop) - (if shop == me.shop then me.amount else 0)
    {
      CommitNet(s.core, me.shop, me.amount, shop);
    }
    forall k | 0 <= k < |t.clients| ensures Covered(t, t.clients[k]) {
      assert Covered(s, s.clients[k]);
    }
  }

  lemma {:induction false} OtherKeepsInv(s: State, step: P.Step)
    requires Inv(s)
    requires OtherMayCommit(s, step)
    ensures Inv(s.(core := P.Next(s.core, step)))
    ensures Unrefunded(s) && !step.RefundStep? ==> Unrefunded(s.(core := P.Next(s.core, step)))
  {
    hide Net, Gross, P.Inv, P.Next, P.Sound;
    var t := s.(core := P.Next(s.core, step));
    SoundOther(s, step);
    P.StepKeepsExactly(s.core, step);
    forall shop: Id
      ensures Gross(t.core.book, shop) >= Gross(s.core.book, shop)
      ensures Payable(t, shop) - Payable(s, shop) <= Gross(t.core.book, shop) - Gross(s.core.book, shop)
      ensures !step.RefundStep? ==> Payable(t, shop) - Payable(s, shop)
                                    == Gross(t.core.book, shop) - Gross(s.core.book, shop)
    {
      OtherStepsOnlyCredit(s.core, step, shop);
    }
    forall k | 0 <= k < |t.clients| ensures Covered(t, t.clients[k]) {
      assert Covered(s, s.clients[k]);
    }
  }

  lemma {:induction false} SoundOther(s: State, step: P.Step)
    requires OtherMayCommit(s, step)
    ensures P.Sound(s.core, step) && !step.RequestStep?
  {
  }

  lemma {:induction false} LocalKeepsInv(s: State, e: Event)
    requires Inv(s)
    requires !e.Other? && !e.Commit?
    ensures Inv(Next(s, e)) && Next(s, e).core == s.core
  {
    hide P.Inv, LocksAgree, Gross;
    if Enabled(s, e) {
      LocalKeepsLocks(s, e);
      var t := Next(s, e);
      AvailableIsPayable(s.core.book, s.clients[e.client].shop);
      hide Available, Net;
      forall shop: Id ensures Payable(t, shop) == Payable(s, shop) {
      }
      forall k | 0 <= k < |t.clients| ensures Covered(t, t.clients[k]) {
        assert Covered(s, s.clients[k]);
      }
    }
  }

  lemma {:induction false} LocalKeepsLocks(s: State, e: Event)
    requires LocksAgree(s) && Enabled(s, e) && !e.Other? && !e.Commit?
    ensures LocksAgree(Next(s, e))
  {
    hide Available;
  }

  lemma {:induction false} EventKeepsInv(s: State, e: Event)
    requires Inv(s)
    ensures Inv(Next(s, e))
    ensures Unrefunded(s) && !(e.Other? && e.step.RefundStep?) ==> Unrefunded(Next(s, e))
  {
    hide Gross, P.Inv, P.Next;
    if Enabled(s, e) {
      match e
      case Other(step) => OtherKeepsInv(s, step);
      case Commit(c) => CommitKeepsInv(s, c);
      case _ => LocalKeepsInv(s, e);
    }
  }

  lemma {:induction false} StartHolds(s: State)
    requires Start(s)
    ensures Inv(s) && Unrefunded(s)
  {
    P.StartHasInv();
  }

  predicate NoRefunds(events: seq<Event>) {
    forall i :: 0 <= i < |events| ==> !(events[i].Other? && events[i].step.RefundStep?)
  }

  lemma {:induction false} RunKeepsInv(s: State, events: seq<Event>)
    requires Start(s)
    ensures Inv(Run(s, events))
    ensures NoRefunds(events) ==> Unrefunded(Run(s, events))
  {
    hide Inv, Unrefunded, Next;
    if |events| == 0 {
      StartHolds(s);
    } else {
      RunKeepsInv(s, events[..|events| - 1]);
      EventKeepsInv(Run(s, events[..|events| - 1]), events[|events| - 1]);
    }
  }

  // ------------------------------------------------------------- refinement

  lemma {:induction false} EventIsAtomic(s: State, e: Event)
    requires Inv(s) && Unrefunded(s)
    ensures Next(s, e).core == P.Run(s.core, AtomicStep(s, e))
    ensures P.SoundRun(s.core, AtomicStep(s, e))
  {
    hide Gross, P.Inv, P.Next, LocksAgree;
    RunOne(s.core, AtomicStep(s, e));
    if Enabled(s, e) {
      match e
      case Other(step) =>
        SoundOther(s, step);
        SoundOne(s.core, step);
      case Commit(c) =>
        CommitIsAtomicExactly(s, c);
        SoundOne(s.core, P.RequestStep(s.clients[c].shop, s.clients[c].amount, 0));
      case _ =>
    }
  }

  lemma {:induction false} RunOne(core: P.State, steps: seq<P.Step>)
    requires |steps| <= 1
    ensures P.Run(core, steps) == if |steps| == 0 then core else P.Next(core, steps[0])
  {
    if |steps| == 1 {
      assert steps[..0] == [];
    }
  }

  lemma {:induction false} SoundOne(core: P.State, step: P.Step)
    requires P.Sound(core, step)
    ensures P.SoundRun(core, [step])
  {
    hide P.Sound;
    assert [step][..0] == [];
  }

  lemma {:induction false} RunAppend(core: P.State, steps: seq<P.Step>, more: seq<P.Step>)
    requires |more| <= 1
    ensures P.Run(core, steps + more) == P.Run(P.Run(core, steps), more)
    ensures P.SoundRun(core, steps) && P.SoundRun(P.Run(core, steps), more) ==> P.SoundRun(core, steps + more)
  {
    hide P.Next, P.Sound;
    RunOne(P.Run(core, steps), more);
    if |more| == 1 {
      assert (steps + more)[..|steps|] == steps;
      assert more[..0] == [];
    } else {
      assert steps + more == steps;
    }
  }

  lemma {:induction false} RunRefines(s: State, events: seq<Event>)
    requires Start(s) && NoRefunds(events)
    ensures Run(s, events).core == P.Run(P.START, AtomicTrace(s, events))
    ensures P.SoundRun(P.START, AtomicTrace(s, events))
  {
    hide Inv, Unrefunded, Next, AtomicStep;
    if |events| == 0 {
    } else {
      var before := events[..|events| - 1];
      RunRefines(s, before);
      RunKeepsInv(s, before);
      EventIsAtomic(Run(s, before), events[|events| - 1]);
      StepShort(Run(s, before), events[|events| - 1]);
      RunAppend(P.START, AtomicTrace(s, before), AtomicStep(Run(s, before), events[|events| - 1]));
    }
  }

  lemma {:induction false} StepShort(s: State, e: Event)
    ensures |AtomicStep(s, e)| <= 1
  {
  }

  /**
   * Every interleaving of concurrent payout requests with payments, payout settlements and sound
   * approvals has the effect of running its commits one after another; at most one call per shop is
   * ever inside its transaction, and no vendor's payable balance is ever negative.
   */
  lemma {:induction false} ConcurrentPayoutsAreSerial(s: State, events: seq<Event>)
    requires Start(s) && NoRefunds(events)
    ensures var t := Run(s, events);
            && t.core == P.Run(P.START, AtomicTrace(s, events))
            && (forall c, d :: 0 <= c < d < |t.clients| && InTransaction(t.clients[c]) && InTransaction(t.clients[d])
                               ==> t.clients[c].shop != t.clients[d].shop)
            && (forall shop: Id :: Payable(t, shop) >= 0)
            && (forall shop: Id :: Net(t.core.book, OfShop(VendorAvailable, shop))
                                   == Sum(t.core.payouts, P.Holding(shop)))
  {
    RunRefines(s, events);
    RunKeepsInv(s, events);
    forall shop: Id ensures Payable(Run(s, events), shop) >= 0 {
      assert Payable(Run(s, events), shop) == Gross(Run(s, events).core.book, shop);
    }
  }

  /**
   * In every interleaving, refunds included, at most one call per shop is inside its transaction, the
   * holding equation holds, and what a shop's payouts hold or have paid out never exceeds what
   * payments credited to it.
   */
  lemma {:induction false} PayoutsWithinCredits(s: State, events: seq<Event>, shop: Id)
    requires Start(s)
    ensures var t := Run(s, events);
            && HeldOrPaidOut(t.core.book, shop) <= VendorCredits(t.core.book, shop)
            && Net(t.core.book, OfShop(VendorAvailable, shop)) == Sum(t.core.payouts, P.Holding(shop))
            && (forall c, d :: 0 <= c < d < |t.clients| && InTransaction(t.clients[c]) && InTransaction(t.clients[d])
                               ==> t.clients[c].shop != t.clients[d].shop)
  {
    RunKeepsInv(s, events);
    assert Gross(Run(s, events).core.book, shop) >= 0;
  }

  /** The guarantee rests on the older table being empty: with a legacy balance, one request overdraws. */
  lemma {:induction false} LegacyBalanceOverdraws(shop: Id, legacy: int)
    ensures (forall amount: int ::
              Net(P.Request(P.START, shop, amount, legacy).book, OfShop(VendorPayable, shop)) >= 0) <==> legacy <= 0
  {
    forall amount: int
      ensures Net(P.Request(P.START, shop, amount, legacy).book, OfShop(VendorPayable, shop)) == if 0 < amount <= legacy
                then -amount else 0
    {
      if 0 < amount <= legacy {
        P.StartHasInv();
        CommitNet(P.START, shop, amount, shop);
      }
    }
    assert legacy > 0 ==> Net(P.Request(P.START, shop, legacy, legacy).book, OfShop(VendorPayable, shop)) < 0;
  }

  // -------------------------------------------------------------- one call alone

  /**
   * A call that nothing interrupts has exactly the effect of the atomic request, granted or not; it ends COMMITTED when
   * the balance covers the amount, to the cent, and REFUSED when it does not, and the shop's lock is free again.
   */
  lemma {:induction false} AloneIsAtomic(s: State, c: Id)
    requires c < |s.clients| && s.clients[c].phase.Ready? && s.clients[c].amount > 0
    requires s.clients[c].shop !in s.locks
    ensures var me := s.clients[c];
            var t := Next(Next(Next(Next(s, TakeLock(c)), Read(c)), Check(c)), Commit(c));
            && t.core == P.Next(s.core, P.RequestStep(me.shop, me.amount, 0))
            && t.locks == s.locks
            && t.clients == s.clients[c := me.(phase := if Available(s.core.book, me.shop, 0) >= me.amount
                                                        then Committed else Refused)]
  {
    hide Available, Post;
    var me := s.clients[c];
    assert s.locks[me.shop := c] - {me.shop} == s.locks;
  }

  /** A call that breaks off writes nothing and frees its lock; it may begin again, five times in all. */
  lemma {:induction false} AbortsExactly(s: State, c: Id, retryable: bool)
    requires c < |s.clients| && InTransaction(s.clients[c])
    ensures var me := s.clients[c];
            var t := Next(s, Abort(c, retryable));
            && t.core == s.core && t.locks == s.locks - {me.shop}
            && t.clients == s.clients[c :=
                 if retryable && me.attempt < 4 then me.(phase := Ready, attempt := me.attempt + 1)
                 else me.(phase := GaveUp)]
  {
  }
}
