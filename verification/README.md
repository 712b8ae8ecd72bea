# Marketplace money-and-stock engine: a verified model

This project models the parts of the marketplace API that move money and stock, and proves what they keep:

- the **double-entry ledger**, an append-only book of balanced transactions, posted at most once per (type, reference, id);
- the **payout protocol** between VENDOR_PAYABLE, VENDOR_AVAILABLE and PLATFORM_CLEARING, as atomic steps, as an
  interleaving of lock / read / check / commit / abort events of concurrent requests, and as an interleaving of
  completions and failures that read first and commit later;
- **inventory reservations** over products, warehouse rows and a reservation table, with their loops and rollbacks;
- **orders**: cart split by shop, tax, checkout, payment, status changes, and their effect on physical stock;
- **payment webhooks** with repeated, reordered, retried and broken-off deliveries;
- **refunds**: the cap, the status lifecycle, their mirror in the ledger, and the prorated commission;
- **RFQ awards**, **refresh-token families**, **login lockout**, the **base32** codec and the **CSV import**.

Each component has a specification module (plain state, one function per operation, runs as sequences of steps, an
invariant and its lemmas) and, where the source updates state in place, a class whose methods follow the source's
branches and loops and are proved to have exactly the effect of the specification functions. `Common` and `Sums` hold
shared arithmetic. Table rows are identified by their position in their table. Cents are unbounded integers;
`Math.round(n / d)` of a non-negative quotient is `floor((2n + d) / 2d)`.

Where the code does not meet a property everywhere, the code is kept as it is. The steps that meet it are named by a
predicate over the state before the step and its arguments, each step is proved to keep the property *exactly when* it
satisfies the predicate, each run is proved to keep it all along exactly when every step does, and lemmas exhibit the
failing inputs:

- **payouts** (`Payouts.Sound`): approving a row that holds money, processing an approved row, or completing an approved
  row that was released unbalances VENDOR_AVAILABLE; so a released row can be completed, a completed one released, and
  held money stranded (`ApprovalAfterRelease`, `ApprovalAfterCompletion`, `ApprovalShortfall`, `ApprovalStrandsHeld`);
- **finishing payouts** (`PayoutFinishing.FinishSound`): the row is read before the lock, so a completion and a failure
  that both read it can both commit, and both post (`RaceReleasesAndCompletes`);
- **requesting payouts under refunds**: a refund takes no lock, so between the balance check and the commit the payable
  balance can fall below the amount (`CommitIsAtomicExactly`); what is held or paid out still never exceeds what payments
  credited (`PayoutsWithinCredits`);
- **reserving** (`InventoryRuns.TameReserve`): a reserve without a warehouse breaks the books of a product that has rows,
  or when the units expiring at its very instant no longer fit; a reserve at a warehouse breaks them when it seeds a row
  beside other rows or beside open plain units (`PlainReserveBesideRows`, `PlainOversale`, `SeedingDuplicatesStock`);
- **restocking** (`InventoryRuns.TameRestock`): units given back without a warehouse to a product that has rows are lost at
  the next synchronisation (`PlainRestockBesideRows`, `PlainRestockAfterSeeding`);
- **orders** (`OrderStock.Tame`): a checkout or a return is tame when its reserves or restocks are; a payment when all the
  order's reservations are still ACTIVE; a status written by a webhook when it leaves the order on the same side of the
  shelf (`DisputeThenCancel`);
- **refunds** (`RefundCap.Fits`): a confirmation keeps an order's refunds within what was paid exactly when what it adds
  fits the headroom it meets; a `charge.refunded` event carries the whole charge, and a run of the whole marketplace shows
  it going over (`RefundExhibit.WholeChargeBreaksCap`).

Other places where code and promise part:

- an order refunded in full by several refunds stays PARTIALLY_REFUNDED, for only a single refund of the whole total makes
  it REFUNDED; an administrator or a dispute may write a status that its refunds contradict (`StatusTellsRefundsExactly`,
  `TwoHalvesStayPartial`);
- the refund status table does not list APPROVED -> COMPLETED, which the confirmation does perform, and lists
  FAILED -> APPROVED, which no operation performs (`StepFollowsTable`, `SettledForever`);
- an event whose handling succeeded but whose row was not updated is handled again; found by its order only, it may then
  hit another waiting payment of that order (`RetryAfterHandlingExactly`);
- a payment that settles while the ledger is down is not booked by any redelivery of it, only by a later settlement of
  another payment of the same order (`LedgerHoldsExactly`, `LedgerOutageIsNotRetried`, `OtherIntentMakesGood`);
- the older single-entry balance counts a reserve twice and a release as one more payout (`LegacyMirrorsTwice`); a shop
  with a reserve in the ledger is never offered it (`ReserveLeavesLegacy`);
- base32 loses the tail of a secret whose length five does not divide (`RoundTripExactly`).

`dafny verify dfyconfig.toml` checks the whole project.

## Model

| member | source | states |
|---|---|---|
| Ledger.ObjectionExactly | apps/api/src/finance/ledger.service.ts:93-113 | `assertBalanced` accepts exactly the non-empty lists of positive entries that net to zero |
| Ledger.PostTwice | apps/api/src/finance/ledger.service.ts:47-61 | a repeated reference posts nothing, whatever entries it brings |
| Ledger.Conservation | apps/api/src/finance/ledger.service.ts:39-390 | over every sequence of posts: keys unique, entries positive, total debits equal total credits, and clearing equals payments minus refunds minus completed payouts, and equals payable plus available plus commission |
| Ledger.FullRefundUndoesPayment | apps/api/src/finance/ledger.service.ts:119-219 | a refund of the whole amount with the same commission restores every account balance, for any commission asked |
| Ledger.BookEntriesInSum | apps/api/src/finance/ledger.service.ts:226-246 | summing the signed entries fetched for a shop and account gives that net balance of the book |
| Ledger.AvailableIsPayable | apps/api/src/finance/ledger.service.ts:251-289 | with an empty legacy table the offered balance is exactly the non-negative part of VENDOR_PAYABLE |
| Ledger.LedgerService.PostTransaction | apps/api/src/finance/ledger.service.ts:39-90 | rejects exactly the objectionable entries, returns the existing transaction of a repeat, appends otherwise |
| Ledger.LedgerService.PostPayment | apps/api/src/finance/ledger.service.ts:119-171 | clamps the commission into 0..amount, omits empty entries, and posts the payment once; succeeds exactly for positive amounts |
| Ledger.LedgerService.PostRefund | apps/api/src/finance/ledger.service.ts:173-219 | the mirror image of the payment, once per refund |
| Ledger.LedgerService.PostPayoutReserve | apps/api/src/finance/ledger.service.ts:294-326 | moves the amount from payable to available, once per payout |
| Ledger.LedgerService.ReleasePayoutReserve | apps/api/src/finance/ledger.service.ts:328-360 | moves it back, once per payout |
| Ledger.LedgerService.PostPayoutCompleted | apps/api/src/finance/ledger.service.ts:362-390 | moves it from available out of clearing, once per payout |
| Ledger.LedgerService.VendorPayableBalanceCents | apps/api/src/finance/ledger.service.ts:226-246 | the loop over entries computes the net VENDOR_PAYABLE balance of the shop |
| Ledger.LedgerService.GetAvailableBalance | apps/api/src/finance/ledger.service.ts:251-289 | the non-negative payable balance when the shop has entries, else earnings less payouts less open requests of the older table, never below zero |
| Ledger.LegacyMirrorsTwice | apps/api/src/finance/finance.service.ts:152-165 | the mirror rows lower the older balance by twice the amount at a reserve, and a release gives nothing back |
| Ledger.ReserveLeavesLegacy | apps/api/src/finance/ledger.service.ts:251-263 | from its first reserve on, over any posts, a shop is offered exactly the non-negative part of its payable balance, whatever the older table says |
| Payouts.MoneyIsConserved | apps/api/src/finance/finance.service.ts:102-508 | ledger conservation over every run of payments, refunds and all payout operations, approvals included |
| Payouts.HoldingEquation | apps/api/src/finance/finance.service.ts:102-508 | over every run of sound steps, approvals of rows that hold nothing included, each shop's VENDOR_AVAILABLE is the sum of its RESERVED and PROCESSING payouts, and no payout has both a release and a completion posted |
| Payouts.StepKeepsExactly | apps/api/src/finance/finance.service.ts:102-508 | with the invariant, a sound step keeps it and an unsound one (approving a held row, processing an approved one, completing a released one) unbalances a shop at once |
| Payouts.HoldingEquationExactly | apps/api/src/finance/finance.service.ts:102-508 | the equation and the exclusion hold at every point of a run if and only if every step of it is sound |
| Payouts.ApprovalAfterRelease | apps/api/src/finance/finance.service.ts:459-508 | approving any row, processing and completing it posts both a release and a completion exactly when the row had been released |
| Payouts.ApprovalAfterCompletion | apps/api/src/finance/finance.service.ts:348-508 | approving any row, processing and failing it posts both exactly when the row had been completed |
| Payouts.ApprovalShortfall | apps/api/src/finance/finance.service.ts:348-508 | the exact gap of VENDOR_AVAILABLE after approving and processing any row, and after completing or failing it then |
| Payouts.ApprovalStrandsHeld | apps/api/src/finance/finance.service.ts:348-508 | approving a row that holds money leaves its amount over; failing it then strands the amount for good, and completing it posts it only while the balance covers it again |
| Payouts.SettledRowsReachable | apps/api/src/finance/finance.service.ts:251-415 | released and completed rows do occur: pay, request the vendor share, then fail or complete the payout |
| Payouts.StatusAfter | apps/api/src/finance/finance.service.ts:226-508 | the status after every payout step from every status before it: held rows can always be processed, completed or failed, APPROVED and PENDING ones completed while the balance covers them, settled ones move only by a decision; no other row, shop or amount moves |
| Payouts.RequestGrantedExactly | apps/api/src/finance/finance.service.ts:102-190 | a request adds its RESERVED row and moves its amount from payable to available exactly when it is positive and within the balance, and else changes nothing |
| Payouts.SettledStays | apps/api/src/finance/finance.service.ts:226-415 | without decisions a settled payout never moves again, in any run |
| Payouts.OpenAmountsExactly | apps/api/src/finance/ledger.service.ts:274-287 | what the older balance subtracts as held is the sum of the shop's PENDING, RESERVED, PROCESSING and APPROVED payouts |
| Payouts.FinanceService.RequestPayoutAtomic | apps/api/src/finance/finance.service.ts:102-221 | succeeds exactly for a positive, covered amount when some attempt goes through after none but repeatable failures; takes effect at most once, and says which error when it does not |
| Payouts.FinanceService.MarkPayoutProcessing | apps/api/src/finance/finance.service.ts:226-249 | succeeds exactly for RESERVED, APPROVED and PENDING rows, which become PROCESSING; else nothing changes |
| Payouts.FinanceService.CompletePayout | apps/api/src/finance/finance.service.ts:251-343 | succeeds exactly for held rows, for APPROVED and PENDING ones that the balance covers, and idly for settled ones; reserves first where needed |
| Payouts.FinanceService.FailPayout | apps/api/src/finance/finance.service.ts:348-415 | succeeds exactly for rows not settled yet, and releases exactly what they held |
| Payouts.FinanceService.DecidePayout | apps/api/src/finance/finance.service.ts:417-508 | the three decisions and exactly when each succeeds, failure leaving everything as it was |
| PayoutConcurrency.CommitIsAtomicExactly | apps/api/src/finance/finance.service.ts:115-190 | a staged commit has the effect of the atomic request exactly when the real balance still covers it, which it always does unless a refund was posted |
| PayoutConcurrency.AloneIsAtomic | apps/api/src/finance/finance.service.ts:115-190 | a call nothing interrupts has the effect of the atomic request, ends granted exactly when the balance covers the amount, and leaves the lock free |
| PayoutConcurrency.ConcurrentPayoutsAreSerial | apps/api/src/finance/finance.service.ts:115-190 | every interleaving of any number of requests with payments, completions, failures and sound decisions is a serial run; one transaction per shop at a time; no shop's payable balance is ever negative; the holding equation holds |
| PayoutConcurrency.PayoutsWithinCredits | apps/api/src/finance/finance.service.ts:115-190 | in every interleaving, refunds included, what a shop's payouts hold or paid out is at most what payments credited to it, the holding equation holds, and one transaction per shop runs at a time |
| PayoutConcurrency.LegacyBalanceOverdraws | apps/api/src/finance/ledger.service.ts:263-288 | from an empty ledger a request can overdraw the shop exactly when the legacy balance is positive |
| PayoutFinishing.FreshFinishIsAtomic | apps/api/src/finance/finance.service.ts:251-415 | reading and finishing with nothing in between is the atomic operation |
| PayoutFinishing.InterleavedFinishingExactly | apps/api/src/finance/finance.service.ts:251-415 | over every interleaving of calls that read first and commit later, the payout books are right all along exactly when no commit completes a payout released meanwhile, fails one completed meanwhile, or is otherwise unsound where it happens |
| PayoutFinishing.RaceReleasesAndCompletes | apps/api/src/finance/finance.service.ts:251-415 | a completion and a failure that read the same held row, committed in either order, post both and leave the shop short by the whole amount |
| PayoutFinishing.SameKindIsIdempotent | apps/api/src/finance/finance.service.ts:251-415 | two completions, or two failures, of the same read have the effect of one |
| Inventory.ConfirmOneCloses | apps/api/src/warehouse/inventory.service.ts:164-200 | confirming an ACTIVE reservation in a good state succeeds and takes exactly its units from its row and product; the reserved counter falls by the quantity, capped at 999999 |
| Inventory.LetGoOneCloses | apps/api/src/warehouse/inventory.service.ts:221-241 | releasing or expiring one frees exactly its units, moves no physical stock, and lowers the reserved counter by exactly the quantity |
| Inventory.CounterClampsExactly | apps/api/src/warehouse/inventory.service.ts:164-241 | in a good state GREATEST never bites on the reserved counter, and the other clamp bites exactly for a confirmed quantity over 999999 |
| InventoryRuns.ReserveExactly | apps/api/src/warehouse/inventory.service.ts:71-150 | a successful reserve, with a warehouse or without, keeps the stock invariant if and only if it is tame |
| InventoryRuns.PlaceBySeedingExactly | apps/api/src/warehouse/warehouse-stock.util.ts:67-83 | seeding a row keeps the books exactly when it is the product's first row and no plain reservation is open |
| InventoryRuns.SeedingDuplicatesStock | apps/api/src/warehouse/warehouse-stock.util.ts:67-83 | seeding beside existing rows doubles the product's units |
| InventoryRuns.PlainReserveExactly | apps/api/src/warehouse/inventory.service.ts:32-65 | for a product without rows, a plain reserve keeps the books exactly when the reservations expiring at this instant still fit |
| InventoryRuns.PlainOversale | apps/api/src/warehouse/inventory.service.ts:102-120 | one unit is reserved twice at the instant the first reservation expires |
| InventoryRuns.PlainReserveBesideRows | apps/api/src/warehouse/inventory.service.ts:71-150 | from an initial state: a row is seeded by one reserve, a plain reserve succeeds beside it and breaks the books |
| InventoryRuns.ConfirmTakesExactly | apps/api/src/warehouse/inventory.service.ts:155-207 | confirming an order never fails in a good state and takes exactly its ACTIVE units per product and per row, with the exact fall of the reserved counters |
| InventoryRuns.ReleaseFreesExactly | apps/api/src/warehouse/inventory.service.ts:212-247 | releasing an order frees exactly its ACTIVE units per product, per row and on the reserved counters |
| InventoryRuns.RestockExact | apps/api/src/warehouse/warehouse-stock.util.ts:151-203 | a restock that finds its row, or needs none, raises the row and the product's aggregate by exactly the quantity |
| InventoryRuns.RestockExactly | apps/api/src/warehouse/warehouse-stock.util.ts:151-203 | a restock keeps the stock invariant if and only if it puts no units on a product with rows outside its rows |
| InventoryRuns.PlainRestockBesideRows | apps/api/src/warehouse/warehouse-stock.util.ts:151-217 | a plain restock beside rows puts the stock ahead of the rows by the quantity, and the next synchronisation takes exactly these units away |
| InventoryRuns.PlainRestockAfterSeeding | apps/api/src/warehouse/warehouse-stock.util.ts:67-203 | from an initial state: a plain unit is sold, a row is seeded by another order, and the first order's return breaks the books |
| InventoryRuns.ClampsNeverBite | apps/api/src/warehouse/warehouse-stock.util.ts:219-230 | in a good state no row is over-reserved, so per-row and aggregate availability agree |
| InventoryRuns.StockInvariant | apps/api/src/warehouse/inventory.service.ts:71-295 | over every tame run: ACTIVE units <= reserved <= quantity at every row, `Product.stock` is the sum of its rows, and no confirmation can fail |
| InventoryRuns.StockInvariantExactly | apps/api/src/warehouse/inventory.service.ts:71-295 | the invariant holds at every point of a run if and only if every step is tame where it is taken |
| StockMoves.TakesExactly | apps/api/src/warehouse/warehouse-stock.util.ts:105-146 | in any state, exactly when units can be taken out of physical stock, and that they leave quantity, reserved count and aggregate alike |
| StockMoves.GivesBackExactly | apps/api/src/warehouse/warehouse-stock.util.ts:151-203 | in any state, a restock raises the row or the plain stock by the quantity, a release lowers only what the row has reserved, never below zero |
| StockMoves.SweepExpiresExactly | apps/api/src/warehouse/inventory.service.ts:252-295 | a sweep expires exactly the overdue ACTIVE reservations; rows and counters keep exactly what they hold beyond ACTIVE units, and no physical stock moves |
| Reserving.ReserveSucceedsExactly | apps/api/src/warehouse/inventory.service.ts:71-120 | in a good state a reserve succeeds exactly for a positive quantity of a known product that is free: at the warehouse's row, else at the product's rows together, else in the stock less live reservations; otherwise the error says why |
| Reserving.ReserveWritesExactly | apps/api/src/warehouse/inventory.service.ts:71-150 | a successful reserve raises the counter and the row's reserved count by the quantity, makes a missing row from the product's stock, expires the product's overdue reservations, adds one ACTIVE reservation, and changes nothing else |
| OrderDesk.AddsExactly | apps/api/src/orders/orders.service.ts:77-112 | adding to a cart succeeds exactly for a product on offer of which the cart then holds no more than its stock; it adds exactly these units, and nothing else moves |
| InventoryService.InventoryService.ReserveStock | apps/api/src/warehouse/warehouse-stock.util.ts:48-99 | succeeds exactly when the quantity is free at the row, or within the product's own stock when there is no row yet, which it then creates |
| InventoryService.InventoryService.CommitReservedStock | apps/api/src/warehouse/warehouse-stock.util.ts:105-146 | all or nothing: quantity and reserved fall together and the aggregate follows |
| InventoryService.InventoryService.ReleaseReservation | apps/api/src/warehouse/warehouse-stock.util.ts:151-203 | frees or restocks, clamped, and synchronises the aggregate |
| InventoryService.InventoryService.SyncProductStockAggregate | apps/api/src/warehouse/warehouse-stock.util.ts:205-217 | of a product with rows the aggregate becomes the sum of its rows; its reserved counter, every other product, all rows and all reservations stay |
| InventoryService.InventoryService.Reserve | apps/api/src/warehouse/inventory.service.ts:71-150 | sweeps stale rows, checks availability, places one reservation, or fails with the right error |
| InventoryService.InventoryService.Confirm | apps/api/src/warehouse/inventory.service.ts:155-207 | the loop confirms every ACTIVE reservation of the order or rolls all of it back |
| InventoryService.InventoryService.ReleaseOrder | apps/api/src/warehouse/inventory.service.ts:212-247 | the loop releases every ACTIVE reservation of the order |
| InventoryService.InventoryService.ReleaseExpired | apps/api/src/warehouse/inventory.service.ts:252-295 | the loop expires every ACTIVE reservation past its time, no other, and counts exactly these |
| OrderMachine.TransitionsMoveForward | apps/api/src/orders/order-status.machine.ts:4-70 | every transition of every role moves strictly forward; PAID is entered only by the system from PENDING_PAYMENT |
| OrderMachine.MovesExactly | apps/api/src/orders/order-status.machine.ts:4-70 | for every move, exactly the roles that may make it |
| OrderMachine.OrdinaryLife | apps/api/src/orders/order-status.machine.ts:4-70 | an order gets from PENDING_PAYMENT through PAID, PROCESSING and SHIPPED to COMPLETED exactly with the system and either an administrator or a merchant and a customer together |
| OrderDesk.MovesExactly | apps/api/src/orders/orders.service.ts:544-651 | exactly who may move an order, when a reason is needed, and that only a cancellation or a refund touches stock |
| Tax.Calculate | apps/api/src/tax/tax.service.ts:93-163 | one result per line at the product's own active rate, else the default of tenant or country, else zero; totals are the sums of the lines |
| Tax.LineTaxError | apps/api/src/tax/tax.service.ts:124-150 | each line's tax is, to the nearest cent, its subtotal at the product's own active rate; else at the tenant's default; else at the country's; else zero |
| Tax.DefaultsYield | apps/api/src/tax/tax.service.ts:99-140 | changing the defaults changes no line of a product with an active rate of its own, and changing the country's none while the tenant has one |
| CartSplit.GroupByShop | apps/api/src/orders/orders.service.ts:195-200 | the loop groups the cart by shop, in cart order |
| CartSplit.GroupsPartition | apps/api/src/orders/orders.service.ts:195-200 | whatever is summed over the cart's lines, the groups sum to the same |
| CartSplit.OrderFigures | apps/api/src/orders/orders.service.ts:242-327 | each line has its cart item's product, quantity, price and tax and the shop's warehouse; subtotal and tax are the sums over the lines; the commission is a tenth of the goods to the nearest cent |
| CartSplit.CheckoutConserves | apps/api/src/orders/orders.service.ts:195-403 | the orders' totals add up to the goods, all line taxes, and shipping once |
| Reserving.OrderOfShop | apps/api/src/orders/orders.service.ts:195-327 | the k-th order is for the k-th shop the cart mentions, with one line per cart row of that shop, in order |
| Reserving.LinesMatchCart | apps/api/src/orders/orders.service.ts:195-327 | every cart row becomes an order line with its product and quantity, at the catalogue's price, from its shop's warehouse, and every order line comes from a cart row |
| Reserving.CheckoutSucceedsExactly | apps/api/src/orders/orders.service.ts:166-433 | in a good market a checkout succeeds exactly when the cart is not empty and every row is on offer, positive and free in the tables before the checkout |
| Reserving.FirstFaultDecides | apps/api/src/orders/orders.service.ts:176-193 | a cart is refused for its first row at fault: not on offer, or else more than is shown |
| Reserving.RefusedExactly | apps/api/src/orders/orders.service.ts:242-300 | an order is refused for want of stock before anything is reserved exactly when a line asks for more than is unreserved |
| OrderStock.CheckoutReserves | apps/api/src/orders/orders.service.ts:195-403 | any successful checkout creates one order per shop and exactly one ACTIVE reservation per line, in order, empties the cart, and takes no physical stock |
| OrderStock.CheckoutExactly | apps/api/src/orders/orders.service.ts:195-403 | a successful checkout keeps the market invariant and shelf stock plus units out with orders if and only if each of its reserves is tame in the state it meets |
| OrderStock.PaymentTakesExactly | apps/api/src/orders/orders.service.ts:655-728 | paying a pending order never fails in a good market, and takes exactly its units if and only if all its reservations are still ACTIVE |
| OrderStock.StatusExactly | apps/api/src/orders/orders.service.ts:544-651 | a successful status change keeps both if and only if every unit it takes back is restocked where the books count it |
| OrderStock.OverwriteExactly | apps/api/src/payments/payments.service.ts:661-665 | a status written by a webhook keeps both if and only if it leaves the order on the same side of the shelf, or the order has no units |
| OrderStock.MarketKeptExactly | apps/api/src/orders/orders.service.ts:166-728 | over every run of carts, checkouts, payments, status changes, expiries and webhook statuses, both are kept all along if and only if every event is tame where it happens |
| OrderStock.PerOrderStockEffect | apps/api/src/orders/orders.service.ts:582-722 | over every such tame run a product's stock is what it was less exactly the units of the orders that are paid and not closed again |
| OrderStock.StepMovesForward | apps/api/src/orders/order-status.machine.ts:4-43 | in any step an order keeps its lines and its status stays or moves strictly forward |
| OrderStock.ReturnedOrdersAreClosed | apps/api/src/orders/orders.service.ts:582-636 | an order whose units came back, or never left, once closed never moves again: units return at most once |
| OrderStock.DisputeThenCancel | apps/api/src/payments/payments.service.ts:661-665 | a dispute overwrites any status and a cancellation then puts the units on the shelf; the market is kept exactly when the restock is tame and the units had been taken |
| OrdersService.OrdersService.AssembleOrder | apps/api/src/orders/orders.service.ts:242-327 | builds the order of one shop line by line |
| OrdersService.OrdersService.ReserveAll | apps/api/src/orders/orders.service.ts:377-388 | reserves line by line and stops at the first failure |
| OrdersService.OrdersService.PlaceShops | apps/api/src/orders/orders.service.ts:238-403 | the loop over shops, with the shipping flag, places the planned orders or reports the first failure |
| OrdersService.OrdersService.Checkout | apps/api/src/orders/orders.service.ts:166-433 | all orders and reservations and an empty cart, or the error of the first row or order at fault and no change |
| OrdersService.OrdersService.MarkPaidFromPayment | apps/api/src/orders/orders.service.ts:655-728 | confirms stock and marks PAID once; already PAID is success without effect |
| OrdersService.OrdersService.UpdateStatus | apps/api/src/orders/orders.service.ts:544-651 | permission, transition and reason checks, then release or restock, status and history |
| Payments.EffectsHappenOnce | apps/api/src/payments/payments.service.ts:345-1124 | over every run of deliveries: an order becomes PAID at most once, payments confirm stock at that very step and at no other, a SUCCEEDED payment is for such an order, and the ledger holds at most one PAYMENT per order, for exactly its total and commission |
| Payments.DeliveryPaysExactly | apps/api/src/payments/payments.service.ts:724-1124 | an undisturbed success settles its payment exactly when order, total and currency match and the order is payable; it then leaves the order PAID, stock confirmed and the payment in the ledger, and otherwise only fails the row |
| Payments.SuccessMeansExactly | apps/api/src/payments/payments.service.ts:724-760 | the payment a success means is the first Stripe row with its provider id, or if there is none the newest waiting Stripe row of the order it names |
| Payments.DeliveryFailsExactly | apps/api/src/payments/payments.service.ts:544-584 | an undisturbed failure fails exactly the payment it means, by provider id or else by order, if that still waits; every other row, the market and the book stay |
| Payments.DeliveryDisputesExactly | apps/api/src/payments/payments.service.ts:640-688 | an undisturbed dispute makes exactly the order of the payment it means DISPUTED, and nothing else moves |
| Payments.DeliveryRecordsExactly | apps/api/src/payments/payments.service.ts:345-444 | a delivery of a finished event changes nothing; any other is recorded as failed if it broke off, as ignored if of no known kind, and else as processed |
| Payments.DevConfirmExactly | apps/api/src/payments/payments.service.ts:830-918 | a development confirmation settles the row of its key, or a new one, and pays, takes and books the order exactly when the row is the order's own and not settled yet and the stock can be confirmed; otherwise it fails the row |
| Payments.SucceededStaysForever | apps/api/src/payments/payments.service.ts:765-767 | a SUCCEEDED row never changes again |
| Payments.RedeliveriesCanBeStruck | apps/api/src/payments/payments.service.ts:355-372 | once an event is processed or ignored, any later delivery of it can be struck from any run without changing where the run ends |
| Payments.SecondSuccessIsInert | apps/api/src/payments/payments.service.ts:724-767 | the same successful intent under another event id touches only the event table |
| Payments.RetryRepairs | apps/api/src/payments/payments.service.ts:430-443 | a delivery that broke off before the payment row was settled leaves, after the retry, exactly the state of an unbroken delivery |
| Payments.RetryAfterHandlingExactly | apps/api/src/payments/payments.service.ts:355-443 | a delivery that broke off after its work but before its event row was updated leaves, after the retry, the state of an unbroken delivery if and only if the retry cannot find another waiting payment of the order |
| Payments.LedgerOutageIsNotRetried | apps/api/src/payments/payments.service.ts:1037-1094 | a PAYMENT lost to a ledger outage is not posted by any redelivery of that intent |
| Payments.OtherIntentMakesGood | apps/api/src/payments/payments.service.ts:920-1094 | another payment of the same PAID order does post it when it succeeds |
| Payments.StepBooksExactly | apps/api/src/payments/payments.service.ts:345-1124 | after any step an order's PAYMENT is in the ledger exactly if it was before, or a payment of the order settled in the step with the ledger up and a positive total |
| Payments.LedgerHoldsExactly | apps/api/src/payments/payments.service.ts:345-1124 | over every run the ledger holds an order's PAYMENT exactly if some payment of the order settled while the ledger was up |
| Payments.WithoutOutagesAllBooked | apps/api/src/payments/payments.service.ts:345-1124 | in a run without outages exactly the orders with a succeeded payment and a positive total are booked |
| Payments.StepMoves | apps/api/src/payments/payments.service.ts:345-1124 | every step keeps all orders' figures and all payment rows, and posts at most one transaction |
| PaymentsService.PaymentsService.CreatePaymentIntent | apps/api/src/payments/payments.service.ts:147-200 | one PENDING row per idempotency key, for the total of an order awaiting payment |
| PaymentsService.PaymentsService.CompletePayment | apps/api/src/payments/payments.service.ts:920-1124 | the early returns, the paid order, the settled row and the ledger post |
| PaymentsService.PaymentsService.CompleteStripeSucceeded | apps/api/src/payments/payments.service.ts:724-823 | pays only when order, amount and currency all match, else fails the row |
| PaymentsService.PaymentsService.HandlePaymentIntentFailed | apps/api/src/payments/payments.service.ts:544-584 | only a PENDING row becomes FAILED |
| PaymentsService.PaymentsService.HandleStripeDispute | apps/api/src/payments/payments.service.ts:640-688 | writes DISPUTED over the order of the disputed payment |
| PaymentsService.PaymentsService.ProcessVerifiedStripeEvent | apps/api/src/payments/payments.service.ts:345-444 | one delivery, with its event row, including deliveries that break off |
| PaymentsService.PaymentsService.DevConfirm | apps/api/src/payments/payments.service.ts:830-918 | finds or creates the payment of the key and completes it |
| Proration.ShareWithin | apps/api/src/refunds/refunds.service.ts:509-520 | a refund's share of the commission lies between 0 and the refund, and is the whole commission for the whole total |
| Proration.ProrationBound | apps/api/src/refunds/refunds.service.ts:509-529 | k refunds that add up to the total reverse the commission up to k/2 cents |
| Proration.ProrationBoundAttained | apps/api/src/refunds/refunds.service.ts:509-529 | for every even number of refunds the bound is reached |
| Refunds.StepFollowsTable | apps/api/src/refunds/refund-status.machine.ts:7-40 | every step moves a refund by the table, save an early confirmation; COMPLETED comes only from a confirmation |
| Refunds.SettledForever | apps/api/src/refunds/refunds.service.ts:182-421 | COMPLETED, REJECTED and FAILED refunds never change again |
| Refunds.ConfirmTwice | apps/api/src/refunds/refunds.service.ts:358-544 | a repeated confirmation leaves the whole state as the first did, in every state and for all parameters |
| Refunds.LateReplayIsInert | apps/api/src/refunds/refunds.service.ts:412-414 | after anything at all, replaying the confirmation of a completed refund changes nothing |
| Refunds.LateReplayByProviderId | apps/api/src/refunds/refunds.service.ts:358-414 | a confirmation that names only the provider's id, for a completed refund of any run, changes nothing after any further steps |
| Refunds.IdsStayUnique | apps/api/prisma/schema.prisma:1187 | no step of any run gives two refunds one provider id |
| RefundMoves.PaidBaseExactly | apps/api/src/refunds/refunds.service.ts:111-124 | an order's refunds are measured against its total, once for each payment received, and at least once |
| RefundMoves.RequestGrantedExactly | apps/api/src/refunds/refunds.service.ts:74-138 | a refund is granted exactly to somebody who may ask, for a paid and unclosed order, within what was paid less all its refunds neither rejected nor failed |
| RefundMoves.DecisionsExactly | apps/api/src/refunds/refunds.service.ts:182-259 | approval moves exactly REQUESTED refunds, rejection exactly those REQUESTED or APPROVED, and no other refund moves |
| RefundMoves.ProviderExactly | apps/api/src/refunds/refunds.service.ts:265-352 | where an APPROVED refund goes for every set-up and every reply of the provider, a repeated id included |
| RefundMoves.ConfirmsExactly | apps/api/src/refunds/refunds.service.ts:358-438 | a confirmation completes the refund it is for, at the confirmed amount, exactly when that is on its way, the amount positive and the id no other refund's; else nothing moves |
| RefundMoves.OutOfBandExactly | apps/api/src/refunds/refunds.service.ts:389-404 | a confirmation for no known refund makes its own row exactly when it names a known order and a provider id |
| RefundRuns.RefundsMirroredOnce | apps/api/src/refunds/refunds.service.ts:423-530 | over every run, out-of-band refunds included, a REFUND transaction exists exactly for COMPLETED refunds, never two, with the completed amount and its share |
| RefundStatus.StatusTellsRefunds | apps/api/src/refunds/refunds.service.ts:441-461 | over every run in which no actor writes a refund status and no dispute overwrites one, an order is REFUNDED exactly when one COMPLETED refund covers its total, and PARTIALLY_REFUNDED exactly when it has COMPLETED refunds and none does |
| RefundStatus.StatusTellsRefundsExactly | apps/api/src/refunds/refunds.service.ts:441-461 | status and refunds agree at every point of a run if and only if no step writes a status against them |
| RefundExhibit.TwoHalvesStayPartial | apps/api/src/refunds/refunds.service.ts:441-461 | a run from the start: two refunds of 50 return the whole of a 100-cent order, and it stays PARTIALLY_REFUNDED |
| RefundCap.ConfirmKeepsCapExactly | apps/api/src/refunds/refunds.service.ts:358-438 | a confirmation, of a requested refund or of one the provider started, keeps the cap if and only if what it adds fits the headroom it meets |
| RefundCap.WholeChargeConfirmation | apps/api/src/payments/payments.service.ts:614-637 | confirming with the amount of one of the order's payments keeps the cap exactly when the order's other open refunds fit what was paid beside that payment |
| RefundExhibit.WholeChargeBreaksCap | apps/api/src/payments/payments.service.ts:614-637 | a run from the start: checkout, payment, two refund requests, approval, provider request, and the whole-charge event that goes over what was paid |
| RefundCap.PaidBaseGrows | apps/api/src/refunds/refunds.service.ts:111-132 | no payment, order or payout step lowers what was paid for an order |
| RefundCap.RefundsWithinPaid | apps/api/src/refunds/refunds.service.ts:111-138 | over every run in which each confirmation fits the headroom it meets, out-of-band ones included, an order's requested-to-completed refunds never exceed its paid base |
| RefundCap.RefundsWithinPaidExactly | apps/api/src/refunds/refunds.service.ts:111-438 | the cap holds at every point of a run if and only if every confirmation fits |
| RefundSettlement.RefundedOrderSettles | apps/api/src/refunds/refunds.service.ts:509-529 | in every run an order refunded in full leaves nothing in clearing, at most k/2 cents on commission, and the exact opposite with the vendor; one refund leaves nothing anywhere |
| RefundsService.RefundsService.RequestRefund | apps/api/src/refunds/refunds.service.ts:74-177 | eligibility and headroom, then one REQUESTED row |
| RefundsService.RefundsService.ApproveRefund | apps/api/src/refunds/refunds.service.ts:182-226 | only REQUESTED refunds are approved |
| RefundsService.RefundsService.RejectRefund | apps/api/src/refunds/refunds.service.ts:228-259 | only REQUESTED or APPROVED refunds are rejected |
| RefundsService.RefundsService.RequestProviderRefund | apps/api/src/refunds/refunds.service.ts:265-352 | APPROVED becomes PROVIDER_REQUESTED or FAILED, or nothing changes |
| RefundsService.RefundsService.CompleteRefund | apps/api/src/refunds/refunds.service.ts:412-530 | row, order status and ledger together, or none of them |
| RefundsService.RefundsService.ConfirmProviderRefund | apps/api/src/refunds/refunds.service.ts:358-544 | looks the refund up by id, then by provider id, creates an out-of-band row if it must, and completes it |
| RefreshTokens.FamiliesAreChains | apps/api/src/auth/auth.service.ts:139-278 | in every run a family's tokens form one chain along `replacedBy` with exactly one tail, and only the tail can be live |
| RefreshTokens.AtMostOneLive | apps/api/src/auth/auth.service.ts:229-249 | two live tokens of one family are the same token |
| RefreshTokens.ReuseClosesFamily | apps/api/src/auth/auth.service.ts:194-210 | presenting a revoked token leaves no live token in the family, then or after any later steps, and the family never grows again |
| RefreshTokens.ExchangedOnce | apps/api/src/auth/auth.service.ts:176-278 | a token that was exchanged once names its one successor forever; presenting it again, after any steps, grants nothing and closes the family |
| RefreshTokens.RefreshExactly | apps/api/src/auth/auth.service.ts:176-278 | what becomes of every token when one is presented: unknown, spent, overdue, of a suspended user, or exchanged |
| Lockout.CounterBelowLimit | apps/api/src/auth/auth.service.ts:453-465 | the stored counter stays below five in every run |
| Lockout.WindowBound | apps/api/src/auth/auth.service.ts:434-476 | no fifteen-minute window without login or reset sees more than five failed comparisons; an unlocked account uses the limit up exactly |
| Lockout.LockedUntilExactly | apps/api/src/auth/auth.service.ts:434-464 | after the fifth failure no attempt before the fifteen minutes are over compares a password or changes the account, and a wrong password is compared again exactly from that moment on |
| Lockout.FiveInARow | apps/api/src/auth/auth.service.ts:453-465 | wrong passwords in a row are counted up to four, and the fifth locks for 900000 milliseconds from its own time |
| Lockout.ClearsExactly | apps/api/src/auth/auth.service.ts:434-606 | exactly when a right password, a second factor or a reset clears the account |
| AuthService.AuthService.IssueTokens | apps/api/src/auth/auth.service.ts:115-152 | a login starts a fresh family of one token |
| AuthService.AuthService.FinalizeLogin | apps/api/src/auth/auth.service.ts:577-606 | resets the lockout fields and starts a session |
| AuthService.AuthService.Login | apps/api/src/auth/auth.service.ts:405-548 | logs in exactly when unlocked, active, password and second factor right; otherwise the account takes one lockout step and no session starts |
| AuthService.AuthService.Refresh | apps/api/src/auth/auth.service.ts:176-278 | reuse, expiry, suspension and rotation, in the code's order |
| AuthService.AuthService.RevokeToken | apps/api/src/auth/auth.service.ts:281-287 | revokes that token and no other |
| AuthService.AuthService.RevokeFamily | apps/api/src/auth/auth.service.ts:289-294 | every token of the family is revoked, every other token is as it was, and only `revoked` flags change |
| AuthService.AuthService.Logout | apps/api/src/auth/auth.service.ts:656-666 | ends one session by token, or all of a user's |
| AuthService.AuthService.ConfirmPasswordReset | apps/api/src/auth/auth.service.ts:725-751 | unlocks the account and ends all its sessions |
| Base32.GenerateTotpSecret | apps/api/src/auth/totp.util.ts:5-14 | the two loops compute the encoding of the drawn bytes |
| Base32.Base32ToBuffer | apps/api/src/auth/totp.util.ts:16-29 | the two loops compute the decoding |
| Base32.RoundTrip | apps/api/src/auth/totp.util.ts:5-29 | decoding the encoding of n bytes gives the prefix of length floor(5 floor(8n/5) / 8) |
| Base32.RoundTripExactly | apps/api/src/auth/totp.util.ts:5-29 | all bytes come back exactly when five divides their number |
| Base32.RoundTripOfLetters | apps/api/src/auth/totp.util.ts:5-29 | any multiple of eight letters comes back from its bytes |
| Base32.OnlyLettersMatter | apps/api/src/auth/totp.util.ts:17-22 | secrets with the same alphabet letters, case aside, decode alike |
| Base32.PaddedAndLowered | apps/api/src/auth/totp.util.ts:17-22 | padding and letter case do not change the decoded bytes |
| Csv.SplitCsvLine | apps/api/src/merchant/merchant-products.service.ts:885-907 | the index loop computes the fields |
| Csv.SplitJoined | apps/api/src/merchant/merchant-products.service.ts:885-907 | splitting is a left inverse of quoting (section 2 of RFC 4180) for any fields, quoted or plain, and any mix of the two separators |
| Csv.FieldCount | apps/api/src/merchant/merchant-products.service.ts:885-907 | for every line, one field more than separators preceded by an even number of quotes |
| ProductImport.ReadLine | apps/api/src/merchant/merchant-products.service.ts:774-880 | one turn of the loop: the row and its errors in order |
| ProductImport.ParseAndValidateCsv | apps/api/src/merchant/merchant-products.service.ts:707-883 | one row per data line and exactly the errors of each; unreadable files yield one error |
| ProductImport.ErrorsExactly | apps/api/src/merchant/merchant-products.service.ts:795-858 | an error is reported exactly for a faulty field of a data line |
| ProductImport.ValidExactly | apps/api/src/merchant/merchant-products.service.ts:792-880 | a row is valid exactly when no error carries its number |
| ProductImport.ColumnsExactly | apps/api/src/merchant/merchant-products.service.ts:725-745 | for each field the first of its names that the header has, where it first occurs |
| ProductImport.LineReadExactly | apps/api/src/merchant/merchant-products.service.ts:774-880 | how each field of a data line is read, and that the row is valid exactly with a name, a readable price, a readable stock and no SKU of the shop or of an earlier line |
| ProductImport.ImportAddsEachSku | apps/api/src/merchant/merchant-products.service.ts:774-880 | the SKUs of the valid rows are new to the shop and as many as there are valid rows with a SKU: none repeats |
| ProductImport.FaultyLinesClaimSkus | apps/api/src/merchant/merchant-products.service.ts:847-858 | a line that is refused still claims its SKU against later lines |
| Rfq.AwardedExactly | apps/api/src/rfq/rfq.service.ts:551-657 | in every run the awarded offer is the one ACCEPTED offer, none is pending afterwards, and exactly one order exists, worth the offer and the sum of its own lines |
| Rfq.AwardedWithoutClosing | apps/api/src/rfq/rfq.service.ts:551-590 | while nothing is closed an RFQ is AWARDED exactly when one of its offers is ACCEPTED |
| Rfq.AwardIsFinal | apps/api/src/rfq/rfq.service.ts:551-572 | after an award the order and its offer never change |
| Rfq.OrderIsWorthOffer | apps/api/src/rfq/rfq.service.ts:592-633 | subtotal, total, offer total, offer lines and order lines all agree, and commission <= subtotal |
| Rfq.OffersExactly | apps/api/src/rfq/rfq.service.ts:374-451 | an offer is taken exactly while the request is open, matched or quoted, before its deadline, with lines for different items of it; it replaces the shop's earlier one |
| Rfq.AwardsExactly | apps/api/src/rfq/rfq.service.ts:519-657 | exactly when an award is made, whose offers it accepts and turns down, and the order it adds, with a tenth as commission to the nearest cent |
| Rfq.ClosesExactly | apps/api/src/rfq/commands/close-rfq.handler.ts:21-57 | exactly which requests can be closed, and that only their pending offers are turned down |
| RfqService.RfqService.CreateOffer | apps/api/src/rfq/rfq.service.ts:374-451 | one offer per request and shop, replaced and pending again when repeated; each refusal with its reason |
| RfqService.RfqService.Award | apps/api/src/rfq/rfq.service.ts:519-657 | succeeds exactly for a pending offer of an open request, and then accepts, rejects the rest and creates the order |
| RfqService.RfqService.RejectOffer | apps/api/src/rfq/commands/reject-rfq-response.handler.ts:23-53 | turns down one offer, exactly when it is pending and its request neither closed nor cancelled |
| RfqService.RfqService.Close | apps/api/src/rfq/commands/close-rfq.handler.ts:21-57 | closes the request, exactly when it is open, matched, quoted or awarded, and leaves no offer pending |

## Left out

- Prisma, SQL, Stripe, bcrypt, JWT signing, HMAC, Redis, queues, search, storage, mail and PDF: foreign calls; tables are sequences and maps, the provider and the clock are parameters of the steps.
- Identifiers: database ids are positions in their table; uniqueness of random ids and hashes is taken for granted.
- The older single-entry ledger: its balance is computed from rows that are parameters; their writing is stated only as the mirror of reserves and releases, and in runs the figure is an arbitrary number. `processPayout` of the admin service, which sets payout statuses and writes there, is not modelled.
- Atomicity: each service method is one step, except payout requests and the completion and failure of payouts, which are interleaved. The ledger's lookup of an existing transaction and its insert, the two writes of a token rotation, and the status read before an RFQ offer are treated as part of their step.
- PENDING payout rows: no code shown creates them; the operations handle them, the runs start without them.
- PayoutConcurrency.ConcurrentPayoutsAreSerial: excludes refunds, after which a commit need not be the atomic request; `CommitIsAtomicExactly` says when it is, and `PayoutsWithinCredits` what holds with refunds.
- InventoryRuns.StockInvariant: over tame runs; `StockInvariantExactly` says that no other run keeps the invariant all along.
- OrderStock.PerOrderStockEffect: over tame runs; `MarketKeptExactly` says that no other run keeps the market all along.
- RefundCap.RefundsWithinPaid: over runs whose confirmations fit; `RefundsWithinPaidExactly` says that no other run keeps the cap all along.
- The lookup of a refund by a provider id inside an admin note, and refunds by the support service.
- Direct stock edits by merchants, changes and removals of cart items, and warehouse resolution beyond the chosen warehouse of a shop.
- Reserving.CheckoutSucceedsExactly: takes the shipping price as given; the lookup of a shipping rate, which refuses a checkout when the rate is unknown or inactive, is not modelled.
- Several currencies and floating point: one currency per ledger, exact integer or rational arithmetic.
- ProductImport.ReadLine: trimming, header normalisation and number parsing are parameters, because they are the runtime's.
- ProductImport.ParseAndValidateCsv: takes the non-blank lines as given, because splitting and trimming the text are the runtime's.
- The import's description, category, image and other copied columns, and the creation of products from valid rows.
- Letter case outside ASCII in base32 secrets, and the HMAC and time window of one-time passwords.
- RFQ requests that are drafts or cancelled: the operations treat these statuses as the code does, no operation shown sets them.
- RFQ orders in the order runs: an award creates its order in the RFQ tables only; matching, messages and comparison are not modelled.
- Controllers, guards, validation objects, tenants, KYC, media, notifications, metrics, catalogue listing, seeds, scripts and the web interface: no property of their own here.
