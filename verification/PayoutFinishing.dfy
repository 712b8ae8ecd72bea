/**
 * Completing and failing payouts as the service really does it: the row is read first, the shop lock
 * is taken later, and the row is then written from what was read. Calls interleave freely.
 */
module PayoutFinishing {
  import opened Common
  import opened Ledger
  import opened Payouts

  datatype Kind = Completing(legacy: int) | Failing

  /** One call: the payout it is for, and the row as it read it. */
  datatype Call = Call(id: Id, kind: Kind, snapshot: Option<PayoutRow>)

  datatype Calls = Calls(core: State, calls: seq<Call>)

  datatype Event =
    | ReadRow(call: nat)
    | Finish(call: nat)
    | Other(step: Step)          // another transaction, from start to commit

  /** Statuses in which a call gives up before its transaction. */
  predicate Refuses(kind: Kind, row: PayoutRow) {
    if kind.Failing? then row.status.Completed? || row.status.Paid? || row.status.Failed? || row.status.Cancelled?
    else !(row.status.Reserved? || row.status.Processing? || row.status.Approved? || row.status.Pending?)
  }

  /** The transaction of a call that read `row`; the row in the table may have moved on. */
  function FinishWith(s: State, id: Id, kind: Kind, row: PayoutRow): State
    requires id < |s.payouts|
  {
    if Refuses(kind, row) then s
    else
      match kind
      case Failing =>
        var released := s.(book := Post(s.book, ReleaseTx(id, row.shop, row.amountCents)));
        WithStatus(if Holds(row) then released else s, id, Failed)
      case Completing(legacy) =>
        if Holds(row) then
          WithStatus(s.(book := Post(s.book, CompleteTx(id, row.shop, row.amountCents))), id, Completed)
        else if Available(s.book, row.shop, legacy) < row.amountCents then s
        else
          var book := Post(Post(s.book, ReserveTx(id, row.shop, row.amountCents)),
              CompleteTx(id, row.shop, row.amountCents));
          WithStatus(s.(book := book), id, Completed)
  }

  predicate Enabled(s: Calls, e: Event) {
    match e
    case ReadRow(c) => c < |s.calls| && s.calls[c].id < |s.core.payouts|
    case Finish(c) => c < |s.calls| && s.calls[c].id < |s.core.payouts| && s.calls[c].snapshot.Some?
    case Other(step) => true
  }

  /** A finished call forgets what it read, so that it commits once. */
  function Next(s: Calls, e: Event): Calls {
    if !Enabled(s, e) then s
    else
      match e
      case ReadRow(c) => s.(calls := s.calls[c := s.calls[c].(snapshot := Some(s.core.payouts[s.calls[c].id]))])
      case Finish(c) =>
        var call := s.calls[c];
        Calls(FinishWith(s.core, call.id, call.kind, call.snapshot.value), s.calls[c := call.(snapshot := None)])
      case Other(step) => s.(core := Payouts.Next(s.core, step))
  }

  function Run(s: Calls, events: seq<Event>): Calls {
    if |events| == 0 then s else Next(Run(s, events[..|events| - 1]), events[|events| - 1])
  }

  predicate Start(s: Calls) {
    s.core == START && forall c :: 0 <= c < |s.calls| ==> s.calls[c].snapshot.None?
  }

  // ------------------------------------------------------------- fresh reads

  /** With nothing in between, reading and finishing is the atomic operation. */
  lemma {:induction false} FreshFinishIsAtomic(s: State, id: Id, kind: Kind)
    requires id < |s.payouts|
    ensures FinishWith(s, id, kind, s.payouts[id]) == if kind.Failing? then Fail(s, id)
              else Complete(s, id, kind.legacy)
  {
    hide Available, Post;
  }

  // ------------------------------------------------------------- stale reads

  /**
   * When a commit keeps the books, whatever was read: a completion unless the payout has been released,
   * a failure unless it has been completed; and a failure that read a row holding nothing, unless the row
   * holds money by now.
   */
  predicate FinishSound(s: State, id: Id, kind: Kind, row: PayoutRow)
    requires id < |s.payouts|
  {
    if Refuses(kind, row) then true
    else
      match kind
      case Failing => if Holds(row) then !Finished(s, id) else !Holds(s.payouts[id])
      case Completing(legacy) => Holds(row) || Available(s.book, row.shop, legacy) >= row.amountCents ==>
          !Released(s, id)
  }

  /** A snapshot differs from the row at most in its status. */
  predicate SnapshotOf(row: PayoutRow, current: PayoutRow) {
    row.shop == current.shop && row.amountCents == current.amountCents
  }

  lemma {:induction false} StaleCompletion(s: State, id: Id, row: PayoutRow)
    requires Inv(s) && id < |s.payouts| && SnapshotOf(row, s.payouts[id])
    ensures var t := WithStatus(s.(book := Post(s.book, CompleteTx(id, row.shop, row.amountCents))), id, Completed);
            && (!Released(s, id) ==> Inv(t))
            && (Released(s, id) ==> Excess(t, row.shop) == -row.amountCents < 0 && Released(t, id) && Finished(t, id))
  {
    RowOf(s, id);
    var posted := s.(book := Post(s.book, CompleteTx(id, row.shop, row.amountCents)));
    if Released(s, id) {
      FinishMovesExcess(s, id, false);
      StatusMovesExcess(posted, id, Completed);
    } else if Finished(s, id) {
      RePostIsInert(s.book, CompleteTx(id, row.shop, row.amountCents));
      RelabelKeepsInv(s, id, Completed);
    } else {
      CloseKeepsInv(s, id, false);
    }
  }

  lemma {:induction false} StaleFailure(s: State, id: Id, row: PayoutRow)
    requires Inv(s) && id < |s.payouts| && SnapshotOf(row, s.payouts[id])
    ensures var t := WithStatus(s.(book := Post(s.book, ReleaseTx(id, row.shop, row.amountCents))), id, Failed);
            && (!Finished(s, id) ==> Inv(t))
            && (Finished(s, id) ==> Excess(t, row.shop) == -row.amountCents < 0 && Released(t, id) && Finished(t, id))
  {
    RowOf(s, id);
    var posted := s.(book := Post(s.book, ReleaseTx(id, row.shop, row.amountCents)));
    if Finished(s, id) {
      FinishMovesExcess(s, id, true);
      StatusMovesExcess(posted, id, Failed);
    } else if Released(s, id) {
      RePostIsInert(s.book, ReleaseTx(id, row.shop, row.amountCents));
      RelabelKeepsInv(s, id, Failed);
    } else {
      CloseKeepsInv(s, id, true);
    }
  }

  /** A failure that releases nothing, over a row that holds money by now, strands the amount. */
  lemma {:induction false} StaleRelabel(s: State, id: Id)
    requires Inv(s) && id < |s.payouts|
    ensures var t := WithStatus(s, id, Failed);
            if Holds(s.payouts[id]) then Excess(t, s.payouts[id].shop) == s.payouts[id].amountCents > 0 else Inv(t)
  {
    RowOf(s, id);
    StatusMovesExcess(s, id, Failed);
    if !Holds(s.payouts[id]) {
      RelabelKeepsInv(s, id, Failed);
    }
  }

  lemma {:induction false} FinishExactly(s: State, id: Id, kind: Kind, row: PayoutRow)
    requires Inv(s) && id < |s.payouts| && SnapshotOf(row, s.payouts[id])
    ensures FinishSound(s, id, kind, row) ==> Inv(FinishWith(s, id, kind, row))
    ensures !FinishSound(s, id, kind, row) ==> exists shop: Id :: Excess(FinishWith(s, id, kind, row), shop) != 0
  {
    hide Available, Inv, Excess;
    if !Refuses(kind, row) {
      StaleCompletion(s, id, row);
      StaleFailure(s, id, row);
      StaleRelabel(s, id);
      RowOf(s, id);
      RePostIsInert(s.book, ReserveTx(id, row.shop, row.amountCents));
      assert !FinishSound(s, id, kind, row) ==> Excess(FinishWith(s, id, kind, row), row.shop) != 0;
    }
  }

  // -------------------------------------------------------------------- runs

  predicate EventSound(s: Calls, e: Event) {
    Enabled(s, e) ==>
      match e
      case ReadRow(_) => true
      case Finish(c) => FinishSound(s.core, s.calls[c].id, s.calls[c].kind, s.calls[c].snapshot.value)
      case Other(step) => Sound(s.core, step)
  }

  predicate SoundEvents(s: Calls, events: seq<Event>) {
    |events| == 0 || (SoundEvents(s, events[..|events| - 1])
        && EventSound(Run(s, events[..|events| - 1]), events[|events| - 1]))
  }

  /** What was read of a payout still fits it: rows are never removed, and keep their shop and amount. */
  predicate SnapshotsFit(s: Calls) {
    forall c :: 0 <= c < |s.calls| && s.calls[c].snapshot.Some? ==>
      s.calls[c].id < |s.core.payouts| && SnapshotOf(s.calls[c].snapshot.value, s.core.payouts[s.calls[c].id])
  }

  predicate RowsStay(s: State, t: State) {
    |s.payouts| <= |t.payouts| && forall i :: 0 <= i < |s.payouts| ==> SnapshotOf(s.payouts[i], t.payouts[i])
  }

  lemma {:induction false} StepRowsStay(s: State, step: Step)
    ensures RowsStay(s, Payouts.Next(s, step))
  {
    hide Available, Post;
  }

  lemma {:induction false} EventExactly(s: Calls, e: Event)
    requires Inv(s.core) && SnapshotsFit(s)
    ensures SnapshotsFit(Next(s, e))
    ensures EventSound(s, e) ==> Inv(Next(s, e).core)
    ensures Books(Next(s, e).core) <==> EventSound(s, e)
  {
    hide Inv, Sound, FinishSound, Payouts.Next, Available, Post, Excess;
    InvGivesBooks(s.core);
    if Enabled(s, e) {
      match e
      case ReadRow(c) =>
      case Finish(c) =>
        FinishExactly(s.core, s.calls[c].id, s.calls[c].kind, s.calls[c].snapshot.value);
      case Other(step) =>
        StepKeepsExactly(s.core, step);
        StepRowsStay(s.core, step);
    }
    if EventSound(s, e) {
      InvGivesBooks(Next(s, e).core);
    }
  }

  lemma {:induction false} RunKeeps(s: Calls, events: seq<Event>)
    requires Start(s) && SoundEvents(s, events)
    ensures Inv(Run(s, events).core) && SnapshotsFit(Run(s, events))
  {
    hide Inv, Next, EventSound, SnapshotsFit;
    if |events| == 0 {
      StartHasInv();
      NoSnapshots(s);
    } else {
      RunKeeps(s, events[..|events| - 1]);
      EventExactly(Run(s, events[..|events| - 1]), events[|events| - 1]);
    }
  }

  lemma {:induction false} NoSnapshots(s: Calls)
    requires Start(s)
    ensures SnapshotsFit(s)
  {
  }

  /**
   * Over every interleaving of completions, failures, requests, payments and decisions, the holding
   * equation and the exclusion of release and completion hold all along exactly when every commit is
   * sound where it happens: none completes a payout released since it was read, or fails one completed since.
   */
  lemma {:induction false} InterleavedFinishingExactly(s: Calls, events: seq<Event>)
    requires Start(s)
    ensures SoundEvents(s, events) <==> forall n: nat :: n <= |events| ==> Books(Run(s, events[..n]).core)
  {
    hide Next, EventSound, Books, Inv;
    if |events| == 0 {
      StartHasInv();
      InvGivesBooks(START);
      assert events[..0] == events;
    } else {
      var last := |events| - 1;
      var before := events[..last];
      InterleavedFinishingExactly(s, before);
      forall n: nat | n <= last ensures events[..n] == before[..n] {
      }
      assert events[..|events|] == events;
      if SoundEvents(s, before) {
        RunKeeps(s, before);
        EventExactly(Run(s, before), events[last]);
      }
    }
  }

  /**
   * The race: a completion and a failure that both read the held row, then commit one after the other.
   * The payout ends with both a release and a completion, and its shop short by the whole amount.
   */
  lemma {:induction false} RaceReleasesAndCompletes(s: State, id: Id, legacy: int, failFirst: bool)
    requires Inv(s) && id < |s.payouts| && Holds(s.payouts[id])
    ensures var row := s.payouts[id];
            var first := FinishWith(s, id, if failFirst then Failing else Completing(legacy), row);
            var second := FinishWith(first, id, if failFirst then Completing(legacy) else Failing, row);
            && Inv(first)
            && Released(second, id) && Finished(second, id)
            && Excess(second, row.shop) == -row.amountCents < 0
  {
    hide Excess;
    var row := s.payouts[id];
    var first := FinishWith(s, id, if failFirst then Failing else Completing(legacy), row);
    RowOf(s, id);
    FreshFinishIsAtomic(s, id, if failFirst then Failing else Completing(legacy));
    if failFirst {
      FailureReleases(s, id);
      StaleCompletion(first, id, row);
    } else {
      CompletionFinishes(s, id);
      StaleFailure(first, id, row);
    }
  }

  /** Calls of one kind do not race: a second completion, or a second failure, of the same read changes nothing more. */
  lemma {:induction false} SameKindIsIdempotent(s: State, id: Id, kind: Kind)
    requires Inv(s) && id < |s.payouts| && Holds(s.payouts[id])
    ensures FinishWith(FinishWith(s, id, kind, s.payouts[id]), id, kind, s.payouts[id])
              == FinishWith(s, id, kind, s.payouts[id])
  {
    hide Inv;
    var row := s.payouts[id];
    var t := FinishWith(s, id, kind, row);
    RowOf(s, id);
    FinishMovesExcess(s, id, kind.Failing?);
    RePostIsInert(t.book, if kind.Failing? then ReleaseTx(id, row.shop, row.amountCents) else CompleteTx(id, row.shop,
        row.amountCents));
  }
}
