/**
 * The double-entry ledger: an append-only book of balanced transactions,
 * at most one per (type, referenceType, referenceId).
 */
module Ledger {
  import opened Common
  import opened Sums

  datatype Account = PlatformClearing | PlatformCommission | VendorPayable | VendorAvailable | CustomerBalance

  datatype Direction = Debit | Credit

  datatype TxType = Payment | Refund | Payout

  datatype Reference = OrderRef | RefundRef | PayoutRef | PayoutReleaseRef | PayoutCompleteRef

  datatype Key = Key(kind: TxType, reference: Reference, id: Id)

  datatype Entry = Entry(account: Account, shop: Option<Id>, direction: Direction, amountCents: int)

  datatype Transaction = Transaction(key: Key, entries: seq<Entry>)

  type Book = seq<Transaction>

  datatype LedgerError = EntriesRequired | AmountNotPositive | Unbalanced

  // ---------------------------------------------------------------- balances

  /** What a balance is taken over. */
  datatype Slice = Everything | Of(account: Account) | OfShop(account: Account, shop: Id)

  predicate InSlice(e: Entry, slice: Slice) {
    match slice
    case Everything => true
    case Of(a) => e.account == a
    case OfShop(a, s) => e.account == a && e.shop == Some(s)
  }

  /** Credit minus debit. */
  function Signed(e: Entry): int {
    if e.direction.Credit? then e.amountCents else -e.amountCents
  }

  function EntryNet(slice: Slice): Entry -> int {
    (e: Entry) => if InSlice(e, slice) then Signed(e) else 0
  }

  function NetEntries(entries: seq<Entry>, slice: Slice): int {
    Sum(entries, EntryNet(slice))
  }

  function TxNet(slice: Slice): Transaction -> int {
    (t: Transaction) => NetEntries(t.entries, slice)
  }

  /** Net (credit minus debit) balance of a slice of the book. */
  function Net(book: Book, slice: Slice): int {
    Sum(book, TxNet(slice))
  }

  function DebitAmount(): Entry -> int {
    (e: Entry) => if e.direction.Debit? then e.amountCents else 0
  }

  function CreditAmount(): Entry -> int {
    (e: Entry) => if e.direction.Credit? then e.amountCents else 0
  }

  /** `assertBalanced`: the first objection to a list of entries, if any. */
  function Objection(entries: seq<Entry>): Option<LedgerError> {
    if |entries| == 0 then Some(EntriesRequired)
    else if exists e :: e in entries && e.amountCents <= 0 then Some(AmountNotPositive)
    else if Sum(entries, DebitAmount()) != Sum(entries, CreditAmount()) then Some(Unbalanced)
    else None
  }

  predicate IsPosted(book: Book, key: Key) {
    exists i :: 0 <= i < |book| && book[i].key == key
  }

  function Find(book: Book, key: Key): (r: Option<nat>)
    ensures r.Some? <==> IsPosted(book, key)
    ensures r.Some? ==> r.value < |book| && book[r.value].key == key
  {
    if |book| == 0 then None
    else
      var earlier := Find(book[..|book| - 1], key);
      if earlier.Some? then earlier
      else if book[|book| - 1].key == key then Some(|book| - 1)
      else None
  }

  /** The book after one post: a rejected or repeated transaction leaves it as it was. */
  function Post(book: Book, t: Transaction): Book {
    if Objection(t.entries).Some? || IsPosted(book, t.key) then book else book + [t]
  }

  predicate KeysUnique(book: Book) {
    forall i, j :: 0 <= i < j < |book| ==> book[i].key != book[j].key
  }

  lemma {:induction false} PostKeepsKeysUnique(book: Book, t: Transaction)
    requires KeysUnique(book)
    ensures KeysUnique(Post(book, t))
  {
  }

  /** A repeat of a posted reference changes nothing, whatever entries it carries. */
  lemma {:induction false} PostTwice(book: Book, t: Transaction, again: Transaction)
    requires Objection(t.entries).None?
    requires again.key == t.key
    ensures IsPosted(Post(book, t), t.key)
    ensures Post(Post(book, t), again) == Post(book, t)
  {
    if !IsPosted(book, t.key) {
      assert (book + [t])[|book|].key == t.key;
    }
  }

  lemma {:induction false} PostedAfterPost(book: Book, t: Transaction, key: Key)
    ensures IsPosted(Post(book, t), key) <==>
            IsPosted(book, key) || (key == t.key && Objection(t.entries).None?)
  {
    var after := Post(book, t);
    if IsPosted(book, key) {
      var i :| 0 <= i < |book| && book[i].key == key;
      assert after[i].key == key;
    }
    if after != book {
      assert after[|book|] == t;
    }
  }

  lemma {:induction false} NetOfAppend(book: Book, t: Transaction, slice: Slice)
    ensures Net(book + [t], slice) == Net(book, slice) + NetEntries(t.entries, slice)
  {
    SumAppend(book, t, TxNet(slice));
  }

  /** Net change of one post. */
  lemma {:induction false} NetAfterPost(book: Book, t: Transaction, slice: Slice)
    ensures Net(Post(book, t), slice) == Net(book, slice) +
            (if Objection(t.entries).Some? || IsPosted(book, t.key) then 0 else NetEntries(t.entries, slice))
  {
    if Post(book, t) != book {
      NetOfAppend(book, t, slice);
    }
  }

  /** Entries pass `assertBalanced` exactly when they are non-empty, positive and net to zero. */
  lemma {:induction false} ObjectionExactly(entries: seq<Entry>)
    ensures Objection(entries).None? <==>
            |entries| > 0 && (forall e :: e in entries ==> e.amountCents > 0) && NetEntries(entries, Everything) == 0
  {
    SumSplitNet(entries);
  }

  lemma {:induction false} SumSplitNet(entries: seq<Entry>)
    ensures NetEntries(entries, Everything) == Sum(entries, CreditAmount()) - Sum(entries, DebitAmount())
  {
    if |entries| == 0 {
    } else {
      SumSplitNet(entries[..|entries| - 1]);
    }
  }

  // ---------------------------------------------------------------- builders

  /** Commission as booked: never negative, never above the amount. */
  function BookedCommission(amount: int, commission: int): int {
    Min(Max(0, commission), amount)
  }

  /** Money into clearing (`Debit`) or back out of it (`Credit`), split between the vendor and the platform. */
  function SplitEntries(clearing: Direction, other: Direction, amount: int, commission: int, shop: Id): seq<Entry> {
    var c := BookedCommission(amount, commission);
    [Entry(PlatformClearing, None, clearing, amount)]
    + (if amount - c > 0 then [Entry(VendorPayable, Some(shop), other, amount - c)] else [])
    + (if c > 0 then [Entry(PlatformCommission, None, other, c)] else [])
  }

  function PaymentTx(order: Id, amount: int, commission: int, shop: Id): Transaction {
    Transaction(Key(Payment, OrderRef, order), SplitEntries(Debit, Credit, amount, commission, shop))
  }

  function RefundTx(refund: Id, amount: int, commission: int, shop: Id): Transaction {
    Transaction(Key(Refund, RefundRef, refund), SplitEntries(Credit, Debit, amount, commission, shop))
  }

  function ReserveTx(payout: Id, shop: Id, amount: int): Transaction {
    Transaction(Key(Payout, PayoutRef, payout),
                [Entry(VendorPayable, Some(shop), Debit, amount), Entry(VendorAvailable, Some(shop), Credit, amount)])
  }

  function ReleaseTx(payout: Id, shop: Id, amount: int): Transaction {
    Transaction(Key(Payout, PayoutReleaseRef, payout),
                [Entry(VendorAvailable, Some(shop), Debit, amount), Entry(VendorPayable, Some(shop), Credit, amount)])
  }

  function CompleteTx(payout: Id, shop: Id, amount: int): Transaction {
    Transaction(Key(Payout, PayoutCompleteRef, payout),
                [Entry(VendorAvailable, Some(shop), Debit, amount), Entry(PlatformClearing, None, Credit, amount)])
  }

  /** What a payment or refund of `amount` does to each slice, for any commission asked for. */
  function SplitNet(sign: int, amount: int, commission: int, shop: Id, slice: Slice): int {
    var c := BookedCommission(amount, commission);
    match slice
    case Everything => 0
    case Of(PlatformClearing) => -sign * amount
    case Of(PlatformCommission) => sign * c
    case Of(VendorPayable) => sign * (amount - c)
    case OfShop(VendorPayable, s) => if s == shop then sign * (amount - c) else 0
    case _ => 0
  }

  lemma {:induction false} SplitEntriesNet(payment: bool, amount: int, commission: int, shop: Id, slice: Slice)
    requires amount > 0
    ensures var entries := SplitEntries(if payment then Debit else Credit, if payment then Credit else Debit, amount,
              commission, shop);
            Objection(entries).None? && NetEntries(entries, slice)
                == SplitNet(if payment then 1 else -1, amount, commission, shop, slice)
  {
    var clearing, other := if payment then Debit else Credit, if payment then Credit else Debit;
    var c := BookedCommission(amount, commission);
    var entries := SplitEntries(clearing, other, amount, commission, shop);
    var first := Entry(PlatformClearing, None, clearing, amount);
    var vendor := Entry(VendorPayable, Some(shop), other, amount - c);
    var platform := Entry(PlatformCommission, None, other, c);
    forall sl: Slice ensures NetEntries(entries, sl) == EntryNet(sl)(first) + EntryNet(sl)(vendor)
        + EntryNet(sl)(platform) {
      if c == 0 {
        assert entries == [first, vendor];
        SumTwo(first, vendor, EntryNet(sl));
      } else if c == amount {
        assert entries == [first, platform];
        SumTwo(first, platform, EntryNet(sl));
      } else {
        assert entries == [first, vendor, platform];
        SumThree(first, vendor, platform, EntryNet(sl));
      }
    }
    ObjectionExactly(entries);
  }

  /** A transfer between two accounts of one shop, or from a shop out to clearing. */
  lemma {:induction false} TransferNet(a: Entry, b: Entry, slice: Slice)
    requires a.direction.Debit? && b.direction.Credit? && a.amountCents == b.amountCents > 0
    ensures Objection([a, b]).None?
    ensures NetEntries([a, b], slice) == EntryNet(slice)(a) + EntryNet(slice)(b)
  {
    SumTwo(a, b, EntryNet(slice));
    SumTwo(a, b, EntryNet(Everything));
    ObjectionExactly([a, b]);
  }

  // ------------------------------------------------------- runs of the ledger

  /** Every way the service posts. */
  datatype Op =
    | PostPayment(order: Id, amount: int, commission: int, shop: Id)
    | PostRefund(refund: Id, amount: int, commission: int, shop: Id)
    | PostReserve(payout: Id, shop: Id, amount: int)
    | PostRelease(payout: Id, shop: Id, amount: int)
    | PostComplete(payout: Id, shop: Id, amount: int)

  function TxOf(op: Op): Transaction {
    match op
    case PostPayment(o, a, c, s) => PaymentTx(o, a, c, s)
    case PostRefund(r, a, c, s) => RefundTx(r, a, c, s)
    case PostReserve(p, s, a) => ReserveTx(p, s, a)
    case PostRelease(p, s, a) => ReleaseTx(p, s, a)
    case PostComplete(p, s, a) => CompleteTx(p, s, a)
  }

  function Run(book: Book, ops: seq<Op>): Book {
    if |ops| == 0 then book else Post(Run(book, ops[..|ops| - 1]), TxOf(ops[|ops| - 1]))
  }

  lemma {:induction false} RunConcat(book: Book, ops: seq<Op>, more: seq<Op>)
    ensures Run(book, ops + more) == Run(Run(book, ops), more)
  {
    hide Post, TxOf;
    if |more| == 0 {
      assert ops + more == ops;
    } else {
      var n := |more| - 1;
      assert (ops + more)[..|ops| + n] == ops + more[..n];
      RunConcat(book, ops, more[..n]);
    }
  }

  lemma {:induction false} RunShort(book: Book, ops: seq<Op>)
    requires |ops| <= 2
    ensures |ops| == 0 ==> Run(book, ops) == book
    ensures |ops| == 1 ==> Run(book, ops) == Post(book, TxOf(ops[0]))
    ensures |ops| == 2 ==> Run(book, ops) == Post(Post(book, TxOf(ops[0])), TxOf(ops[1]))
  {
    if |ops| == 2 {
      assert ops[..1][..0] == [];
      assert Run(book, ops[..1]) == Post(book, TxOf(ops[0]));
    }
  }

  /** Cents moved by a transaction of the given kind: the amount of its first entry. */
  function MovedBy(reference: Reference): Transaction -> int {
    (t: Transaction) => if t.key.reference == reference && |t.entries| > 0 then t.entries[0].amountCents else 0
  }

  /** Total posted under one kind of reference. */
  function Moved(book: Book, reference: Reference): int {
    Sum(book, MovedBy(reference))
  }

  /** What holds of each transaction the service can have posted. */
  predicate Lawful(t: Transaction) {
    && |t.entries| > 0
    && (forall e :: e in t.entries ==> e.amountCents > 0)
    && NetEntries(t.entries, Everything) == 0
    && NetEntries(t.entries, Of(PlatformClearing)) + NetEntries(t.entries, Of(PlatformCommission))
       + NetEntries(t.entries, Of(VendorPayable)) + NetEntries(t.entries, Of(VendorAvailable)) == 0
    && -NetEntries(t.entries, Of(PlatformClearing))
       == MovedBy(OrderRef)(t) - MovedBy(RefundRef)(t) - MovedBy(PayoutCompleteRef)(t)
  }

  predicate LawfulBook(book: Book) {
    && KeysUnique(book)
    && (forall i :: 0 <= i < |book| ==> Lawful(book[i]))
  }

  /** What each post does to each slice of the book. */
  function OpNet(op: Op, slice: Slice): int {
    match op
    case PostPayment(_, a, c, s) => SplitNet(1, a, c, s, slice)
    case PostRefund(_, a, c, s) => SplitNet(-1, a, c, s, slice)
    case _ => EntryNet(slice)(TxOf(op).entries[0]) + EntryNet(slice)(TxOf(op).entries[1])
  }

  lemma {:induction false} PostedNet(op: Op, slice: Slice)
    requires op.amount > 0
    ensures Objection(TxOf(op).entries).None?
    ensures NetEntries(TxOf(op).entries, slice) == OpNet(op, slice)
  {
    match op
    case PostPayment(_, a, c, s) => SplitEntriesNet(true, a, c, s, slice);
    case PostRefund(_, a, c, s) => SplitEntriesNet(false, a, c, s, slice);
    case _ => TransferNet(TxOf(op).entries[0], TxOf(op).entries[1], slice);
  }

  /** What a posted operation does to clearing is what it moved, and the four accounts cancel out. */
  lemma {:induction false} OpNetsCancel(op: Op)
    requires op.amount > 0
    ensures OpNet(op, Everything) == 0
    ensures OpNet(op, Of(PlatformClearing)) + OpNet(op, Of(PlatformCommission)) + OpNet(op, Of(VendorPayable))
              + OpNet(op, Of(VendorAvailable)) == 0
    ensures -OpNet(op, Of(PlatformClearing)) == MovedBy(OrderRef)(TxOf(op)) - MovedBy(RefundRef)(TxOf(op))
              - MovedBy(PayoutCompleteRef)(TxOf(op))
  {
  }

  lemma {:induction false} BuiltIsLawful(op: Op)
    ensures Objection(TxOf(op).entries).None? <==> op.amount > 0
    ensures op.amount > 0 ==> Lawful(TxOf(op))
  {
    var t := TxOf(op);
    if op.amount <= 0 {
      assert t.entries[0].amountCents <= 0 && t.entries[0] in t.entries;
    } else {
      hide TxOf, OpNet, NetEntries, MovedBy;
      forall slice: Slice ensures NetEntries(t.entries, slice) == OpNet(op, slice) {
        PostedNet(op, slice);
      }
      PostedNet(op, Everything);
      ObjectionExactly(t.entries);
      OpNetsCancel(op);
    }
  }

  lemma {:induction false} PostKeepsLawful(book: Book, op: Op)
    requires LawfulBook(book)
    ensures LawfulBook(Post(book, TxOf(op)))
  {
    BuiltIsLawful(op);
  }

  lemma {:induction false} RunIsLawful(book: Book, ops: seq<Op>)
    requires LawfulBook(book)
    ensures LawfulBook(Run(book, ops))
  {
    if |ops| == 0 {
    } else {
      RunIsLawful(book, ops[..|ops| - 1]);
      PostKeepsLawful(Run(book, ops[..|ops| - 1]), ops[|ops| - 1]);
    }
  }

  /** The balance equations of a lawful book. */
  lemma {:induction false} LawfulBalances(book: Book)
    requires LawfulBook(book)
    ensures Net(book, Everything) == 0
    ensures -Net(book, Of(PlatformClearing)) == Moved(book, OrderRef) - Moved(book, RefundRef)
              - Moved(book, PayoutCompleteRef)
    ensures -Net(book, Of(PlatformClearing))
            == Net(book, Of(VendorPayable)) + Net(book, Of(VendorAvailable)) + Net(book, Of(PlatformCommission))
  {
    if |book| == 0 {
    } else {
      LawfulBalances(book[..|book| - 1]);
      assert Lawful(book[|book| - 1]);
    }
  }

  /** Total debits and total credits of the book. */
  function Debits(book: Book): int {
    Sum(book, (t: Transaction) => Sum(t.entries, DebitAmount()))
  }

  function Credits(book: Book): int {
    Sum(book, (t: Transaction) => Sum(t.entries, CreditAmount()))
  }

  lemma {:induction false} DebitsEqualCredits(book: Book)
    requires LawfulBook(book)
    ensures Debits(book) == Credits(book)
  {
    if |book| == 0 {
    } else {
      DebitsEqualCredits(book[..|book| - 1]);
      SumSplitNet(book[|book| - 1].entries);
      assert Lawful(book[|book| - 1]);
    }
  }

  /**
   * Conservation over every run of posts, whatever their arguments and repeats.
   */
  lemma {:induction false} Conservation(ops: seq<Op>)
    ensures var book := Run([], ops);
            && KeysUnique(book)
            && (forall i, e :: 0 <= i < |book| && e in book[i].entries ==> e.amountCents > 0)
            && Debits(book) == Credits(book)
            && -Net(book, Of(PlatformClearing)) == Moved(book, OrderRef) - Moved(book, RefundRef)
                 - Moved(book, PayoutCompleteRef)
            && -Net(book, Of(PlatformClearing))
               == Net(book, Of(VendorPayable)) + Net(book, Of(VendorAvailable)) + Net(book, Of(PlatformCommission))
  {
    RunIsLawful([], ops);
    LawfulBalances(Run([], ops));
    DebitsEqualCredits(Run([], ops));
  }

  /** A refund of the whole amount with the same commission undoes the payment on every account. */
  lemma {:induction false} FullRefundUndoesPayment(book: Book, order: Id, refund: Id, amount: int, commission: int,
      shop: Id, slice: Slice)
    requires amount > 0
    requires !IsPosted(book, Key(Payment, OrderRef, order)) && !IsPosted(book, Key(Refund, RefundRef, refund))
    ensures Net(Post(Post(book, PaymentTx(order, amount, commission, shop)),
              RefundTx(refund, amount, commission, shop)), slice)
            == Net(book, slice)
  {
    var pay, back := PaymentTx(order, amount, commission, shop), RefundTx(refund, amount, commission, shop);
    SplitEntriesNet(true, amount, commission, shop, slice);
    SplitEntriesNet(false, amount, commission, shop, slice);
    PostedAfterPost(book, pay, back.key);
    NetAfterPost(book, pay, slice);
    NetAfterPost(Post(book, pay), back, slice);
  }

  // -------------------------------------------------- balance for payouts

  predicate HasPayableEntry(book: Book, shop: Id) {
    exists i, k :: 0 <= i < |book| && 0 <= k < |book[i].entries|
                   && InSlice(book[i].entries[k], OfShop(VendorPayable, shop))
  }

  /** The balance offered for payout; `legacy` is what the older single-entry table would say. */
  function Available(book: Book, shop: Id, legacy: int): int {
    if HasPayableEntry(book, shop) then Max(0, Net(book, OfShop(VendorPayable, shop))) else Max(0, legacy)
  }

  lemma {:induction false} NoEntriesNoBalance(book: Book, slice: Slice)
    requires forall i, k :: 0 <= i < |book| && 0 <= k < |book[i].entries| ==> !InSlice(book[i].entries[k], slice)
    ensures Net(book, slice) == 0
  {
    if |book| == 0 {
    } else {
      var n := |book| - 1;
      NoEntriesNoBalance(book[..n], slice);
      SumZero(book[n].entries, EntryNet(slice));
    }
  }

  /** With an empty legacy table the offer is exactly the non-negative part of the payable balance. */
  lemma {:induction false} AvailableIsPayable(book: Book, shop: Id)
    ensures Available(book, shop, 0) == Max(0, Net(book, OfShop(VendorPayable, shop)))
  {
    if !HasPayableEntry(book, shop) {
      NoEntriesNoBalance(book, OfShop(VendorPayable, shop));
    }
  }

  // ------------------------------------------- the older single-entry table

  datatype LegacyKind = VendorEarning | PayoutEntry | OtherEntry

  /** A row of the older table for the vendor account of one shop. */
  datatype LegacyRow = LegacyRow(kind: LegacyKind, amountCents: int)

  function EarnedCents(): LegacyRow -> int {
    (r: LegacyRow) => if r.kind.VendorEarning? then r.amountCents else 0
  }

  /** Payout rows count by their size, whatever their sign. */
  function PaidOutCents(): LegacyRow -> int {
    (r: LegacyRow) => if r.kind.PayoutEntry? then Max(r.amountCents, -r.amountCents) else 0
  }

  function HeldCents(): int -> int {
    (cents: int) => cents
  }

  /** Earnings less payouts less the amounts of open payout requests. */
  function LegacyBalance(rows: seq<LegacyRow>, open: seq<int>): int {
    Sum(rows, EarnedCents()) - Sum(rows, PaidOutCents()) - Sum(open, HeldCents())
  }

  /**
   * What the mirror rows of a payout do to it: a reserve counts twice, once as a row and once as an open
   * request, and the row of a release counts as another payout, so that a release gives nothing back.
   */
  lemma {:induction false} LegacyMirrorsTwice(rows: seq<LegacyRow>, open: seq<int>, amount: int)
    requires amount >= 0
    ensures var reserved := rows + [LegacyRow(PayoutEntry, -amount)];
            var released := reserved + [LegacyRow(PayoutEntry, amount)];
            && LegacyBalance(reserved, open + [amount]) == LegacyBalance(rows, open) - 2 * amount
            && LegacyBalance(released, open) == LegacyBalance(rows, open) - 2 * amount
  {
    var reserved := rows + [LegacyRow(PayoutEntry, -amount)];
    SumAppend(rows, LegacyRow(PayoutEntry, -amount), EarnedCents());
    SumAppend(rows, LegacyRow(PayoutEntry, -amount), PaidOutCents());
    SumAppend(reserved, LegacyRow(PayoutEntry, amount), EarnedCents());
    SumAppend(reserved, LegacyRow(PayoutEntry, amount), PaidOutCents());
    SumAppend(open, amount, HeldCents());
  }

  /** From its first reserve on, a shop is offered what the double-entry book says, never the older figure. */
  lemma {:induction false} ReserveLeavesLegacy(book: Book, payout: Id, shop: Id, amount: int, legacy: int, ops: seq<Op>)
    requires amount > 0 && !IsPosted(book, ReserveTx(payout, shop, amount).key)
    ensures var after := Run(Post(book, ReserveTx(payout, shop, amount)), ops);
            Available(after, shop, legacy) == Max(0, Net(after, OfShop(VendorPayable, shop)))
  {
    var t := ReserveTx(payout, shop, amount);
    var reserved := Post(book, t);
    PostedNet(PostReserve(payout, shop, amount), OfShop(VendorPayable, shop));
    assert reserved == book + [t];
    assert InSlice(t.entries[0], OfShop(VendorPayable, shop));
    RunAppends(reserved, ops);
    assert Run(reserved, ops)[|book|].entries[0] == t.entries[0];
  }

  /** The book is append-only. */
  lemma {:induction false} RunAppends(book: Book, ops: seq<Op>)
    ensures |book| <= |Run(book, ops)| && Run(book, ops)[..|book|] == book
  {
    if |ops| == 0 {
    } else {
      RunAppends(book, ops[..|ops| - 1]);
    }
  }

  /** The rows a balance query fetches. */
  function EntriesIn(entries: seq<Entry>, slice: Slice): seq<Entry> {
    if |entries| == 0 then []
    else
      var n := |entries| - 1;
      EntriesIn(entries[..n], slice) + (if InSlice(entries[n], slice) then [entries[n]] else [])
  }

  function BookEntriesIn(book: Book, slice: Slice): seq<Entry> {
    if |book| == 0 then []
    else BookEntriesIn(book[..|book| - 1], slice) + EntriesIn(book[|book| - 1].entries, slice)
  }

  function SignedAmount(): Entry -> int {
    (e: Entry) => Signed(e)
  }

  lemma {:induction false} EntriesInSum(entries: seq<Entry>, slice: Slice)
    ensures Sum(EntriesIn(entries, slice), SignedAmount()) == NetEntries(entries, slice)
  {
    if |entries| == 0 {
    } else {
      var n := |entries| - 1;
      EntriesInSum(entries[..n], slice);
      SumConcat(EntriesIn(entries[..n], slice), if InSlice(entries[n], slice) then [entries[n]] else [],
          SignedAmount());
      SumOne(entries[n], SignedAmount());
    }
  }

  lemma {:induction false} BookEntriesInSum(book: Book, slice: Slice)
    ensures Sum(BookEntriesIn(book, slice), SignedAmount()) == Net(book, slice)
  {
    if |book| == 0 {
    } else {
      var n := |book| - 1;
      BookEntriesInSum(book[..n], slice);
      EntriesInSum(book[n].entries, slice);
      SumConcat(BookEntriesIn(book[..n], slice), EntriesIn(book[n].entries, slice), SignedAmount());
    }
  }

  // ---------------------------------------------------------------- service

  class LedgerService {
    var transactions: Book

    constructor ()
      ensures transactions == []
    {
      transactions := [];
    }

    method PostTransaction(key: Key, entries: seq<Entry>) returns (r: Result<Transaction, LedgerError>)
      modifies this
      ensures transactions == Post(old(transactions), Transaction(key, entries))
      ensures r.Failure? <==> Objection(entries).Some?
      ensures r.Failure? ==> Some(r.error) == Objection(entries)
      ensures r.Success? ==> r.value.key == key && r.value in transactions
      ensures r.Success? && !IsPosted(old(transactions), key) ==> r.value.entries == entries
    {
      var objection := Objection(entries);
      if objection.Some? {
        return Failure(objection.value);
      }
      var existing := Find(transactions, key);
      if existing.Some? {
        return Success(transactions[existing.value]);
      }
      var t := Transaction(key, entries);
      transactions := transactions + [t];
      return Success(t);
    }

    method PostPayment(order: Id, amountCents: int, commissionCents: int, shop: Id)
        returns (r: Result<Transaction, LedgerError>)
      modifies this
      ensures transactions == Post(old(transactions), PaymentTx(order, amountCents, commissionCents, shop))
      ensures r.Success? <==> amountCents > 0
    {
      var commission := Max(0, commissionCents);
      if commission > amountCents {
        commission := amountCents;
      }
      var vendorAmount := amountCents - commission;
      var entries := [Entry(PlatformClearing, None, Debit, amountCents)];
      if vendorAmount > 0 {
        entries := entries + [Entry(VendorPayable, Some(shop), Credit, vendorAmount)];
      }
      if commission > 0 {
        entries := entries + [Entry(PlatformCommission, None, Credit, commission)];
      }
      assert entries == PaymentTx(order, amountCents, commissionCents, shop).entries;
      BuiltIsLawful(Op.PostPayment(order, amountCents, commissionCents, shop));
      r := PostTransaction(Key(Payment, OrderRef, order), entries);
    }

    method PostRefund(refund: Id, amountCents: int, commissionCents: int, shop: Id)
        returns (r: Result<Transaction, LedgerError>)
      modifies this
      ensures transactions == Post(old(transactions), RefundTx(refund, amountCents, commissionCents, shop))
      ensures r.Success? <==> amountCents > 0
    {
      var commission := Max(0, commissionCents);
      if commission > amountCents {
        commission := amountCents;
      }
      var vendorAmount := amountCents - commission;
      var entries := [Entry(PlatformClearing, None, Credit, amountCents)];
      if vendorAmount > 0 {
        entries := entries + [Entry(VendorPayable, Some(shop), Debit, vendorAmount)];
      }
      if commission > 0 {
        entries := entries + [Entry(PlatformCommission, None, Debit, commission)];
      }
      assert entries == RefundTx(refund, amountCents, commissionCents, shop).entries;
      BuiltIsLawful(Op.PostRefund(refund, amountCents, commissionCents, shop));
      r := PostTransaction(Key(Refund, RefundRef, refund), entries);
    }

    /** Reserve, release and completion of a payout share one shape: two entries of the same amount. */
    method PostPayoutReserve(payout: Id, shop: Id, amountCents: int) returns (r: Result<Transaction, LedgerError>)
      modifies this
      ensures transactions == Post(old(transactions), ReserveTx(payout, shop, amountCents))
      ensures r.Success? <==> amountCents > 0
    {
      BuiltIsLawful(PostReserve(payout, shop, amountCents));
      r := PostTransaction(Key(Payout, PayoutRef, payout),
                           [Entry(VendorPayable, Some(shop), Debit, amountCents),
                               Entry(VendorAvailable, Some(shop), Credit, amountCents)]);
    }

    method ReleasePayoutReserve(payout: Id, shop: Id, amountCents: int) returns (r: Result<Transaction, LedgerError>)
      modifies this
      ensures transactions == Post(old(transactions), ReleaseTx(payout, shop, amountCents))
      ensures r.Success? <==> amountCents > 0
    {
      BuiltIsLawful(PostRelease(payout, shop, amountCents));
      r := PostTransaction(Key(Payout, PayoutReleaseRef, payout),
                           [Entry(VendorAvailable, Some(shop), Debit, amountCents),
                               Entry(VendorPayable, Some(shop), Credit, amountCents)]);
    }

    method PostPayoutCompleted(payout: Id, shop: Id, amountCents: int) returns (r: Result<Transaction, LedgerError>)
      modifies this
      ensures transactions == Post(old(transactions), CompleteTx(payout, shop, amountCents))
      ensures r.Success? <==> amountCents > 0
    {
      BuiltIsLawful(PostComplete(payout, shop, amountCents));
      r := PostTransaction(Key(Payout, PayoutCompleteRef, payout),
                           [Entry(VendorAvailable, Some(shop), Debit, amountCents),
                               Entry(PlatformClearing, None, Credit, amountCents)]);
    }

    method VendorPayableBalanceCents(shop: Id) returns (bal: int)
      ensures bal == Net(transactions, OfShop(VendorPayable, shop))
    {
      var slice := OfShop(VendorPayable, shop);
      var entries := BookEntriesIn(transactions, slice);
      bal := 0;
      for i := 0 to |entries|
        invariant bal == Sum(entries[..i], SignedAmount())
      {
        var e := entries[i];
        SumAppend(entries[..i], e, SignedAmount());
        assert entries[..i + 1] == entries[..i] + [e];
        if e.direction.Credit? {
          bal := bal + e.amountCents;
        } else {
          bal := bal - e.amountCents;
        }
      }
      assert entries[..|entries|] == entries;
      BookEntriesInSum(transactions, slice);
    }

    /** `rows` are the shop's rows of the older table, `open` the amounts of its open payout requests. */
    method GetAvailableBalance(shop: Id, rows: seq<LegacyRow>, open: seq<int>) returns (available: int)
      ensures available == Available(transactions, shop, LegacyBalance(rows, open))
      ensures HasPayableEntry(transactions, shop) ==>
                available == Max(0, Net(transactions, OfShop(VendorPayable, shop)))
    {
      if HasPayableEntry(transactions, shop) {
        var payable := VendorPayableBalanceCents(shop);
        return Max(0, payable);
      }
      var earned := Sum(rows, EarnedCents());
      var paidOut := Sum(rows, PaidOutCents());
      var held := Sum(open, HeldCents());
      return Max(0, earned - paidOut - held);
    }
  }
}
