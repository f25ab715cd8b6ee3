# Verification of the MarketX services

A Dafny model of the stateful parts of the MarketX marketplace backend: the order and payment protocol, escrow and
dispute settlement, refresh-token rotation, the category graph algorithms, the two request limiters, the two-tier cache
and the feature-flag cache, the inventory ledger, bounded retry with dead letters, milestone accounting, batch archiving
and currency conversion.

Every service that updates rows, caches or maps in place is a class with those fields. Each of its methods is proved equal
to a step of a specification on values, failures included, and the theorems are about those steps: what each keeps, and what
holds over every run of them. A service method is one atomic step. Whatever comes from outside (clocks, random values, the
saves of escrows, disputes and notifications, a ledger submission, the inventory calls inside an order transaction) is a
parameter, so that each theorem holds for every way it can turn out.

| files | what they model |
|---|---|
| `OrderProtocol`, `PaymentServices`, `OrderOutcomes` | orders, payments, fraud holds, shipping and the payment monitor over two shared tables |
| `EscrowLedger`, `EscrowProtocol`, `EscrowSafety`, `EscrowReceipts`, `EscrowOutcomes`, `EscrowServices` | escrows and disputes over an external ledger that may refuse any payment |
| `TokenProtocol`, `TokenLife`, `TokenServices` | refresh tokens, each with a key and a place in its user's list, both expiring |
| `Ancestry`, `CategoryGuard`, `CategoryTree`, `CategoryForest` | parent maps, the cycle guard, the descendant search, the nested tree |
| `SlidingWindow`, `RateLimiter`, `Messages` | limits over a sliding window, on a pruned sorted set and on a log |
| `MemoryTier`, `CacheProtocol`, `CacheOutcomes`, `CacheAge`, `CacheServices`, `Sorting` | the two cache tiers with tags, expiry and eviction |
| `HashBucket`, `FeatureFlags`, `FeatureFlagServices` | flags, their rollout hash and the cache in front of their table |
| `InventoryLedger`, `InventoryVariants`, `InventoryRuns`, `InventoryOutcomes`, `InventoryServices` | stock levels, order lines, variants and the history |
| `RetryStrategy`, `Notifications` | retries with backoff, and what a notification ends as |
| `MilestoneAccounting`, `MilestoneServices` | releases of an order's amount by milestones |
| `Archiving`, `Currency` | batch moves between tables; conversion and its rounding |
| `Common` | Option, Result and sums over maps |

## What the code does not do

These properties fail of the code as it is. Each is stated with the exact condition under which it holds.

- An order's terminal status is not terminal: a payment still pending when its order is cancelled can be confirmed and makes
  the order PAID again; so do a fraud hold (MANUAL_REVIEW) and a delivery report. `TerminalOrderLeftExactlyWhen` lists every
  way out and `TableBypassedExactlyWhen` every change against the table; `CancelledOrderRevived` is a concrete run.
- A transaction whose amount is not a number passes the amount check (`AmountComparedExactlyWhenParsed`,
  `UnparsableAmountPays`), and a USD payment skips the asset and age checks (`StaleAcceptedExactlyForUsd`). An XLM payment
  whose address receives another asset is failed rather than left waiting (`StreamFailsPaymentExactlyWhen`).
- A split payout whose second submission is refused leaves a held escrow that no sequence of calls can ever settle
  (`HalfFailureStrands`, `SettleableExactlyWhenFull`).
- When the last save of a dispute's resolution fails, the escrow is paid out and the dispute unresolved, and resolving it again
  is refused for ever (`UnsavedResolutionRefusedForever`).
- An escrow whose creation pays the amount into its account and then fails to save stays PENDING, and no call ever moves the
  money again (`HalfCreationLocksForever`).
- A milestone whose order is gone is saved RELEASED before the call throws, and is not paid (`ReleasedButPaidExactlyWhen`).
- The table lets PARTIALLY_RELEASED go on to RELEASED or REFUNDED, but the account is empty by then, so no such call succeeds
  (`SettledForever`).
- A rejected request stays in the limiter's sorted set, although the comment beside the removal says otherwise: the removal
  names a fresh random member. Hence it counts against later requests, and the theorems count all requests.
- Reading a key's status prunes it by a fixed minute, whatever its window: five logins at once, a status read a minute later,
  and a sixth login is admitted although the limit is five in 15 minutes (`StatusReadLetsSixthLoginIn`). The limiter's bounds
  hold over runs whose status reads and resets forget nothing the window still counts (`StatusReadAgreesExactlyWhen`).
- The monitor's timer is always half an hour. A payment given 60 minutes is timed out after 30, and a transaction made at 45
  refused (`TimerCutsWindowExactlyWhen`). Whatever happens in between, a settling transaction confirms a payment exactly when
  it is still pending and its order not held (`PayingConfirmsExactlyWhenOpen`).
- A cache write that Redis refuses leaves the old value there (`RefusedSetStaysCoherentExactlyWhen`), and a value promoted from
  Redis to memory gets a fresh lifetime (`PromotedCopyOutlivesExactlyWhen`). It is never served for more than twice
  the longest lifetime given (`ServedAtMostTwiceItsLifetime`).
- Creating a flag over an existing key, or giving a flag a new key in an update, leaves a stale cached flag
  (`CreateStaysCoherentExactlyWhen`, `UpdateStaysCoherentExactlyWhen`).
- Adjusting a variant overwrites its listing with the sums over the variants and so forgets what orders have reserved on the
  listing. A listing of 10 with one variant of 10: reserve 3, add one to the variant, and the listing shows 11 with nothing
  reserved; confirming the order meets the clamp and leaves 8 (`VariantAdjustmentLosesReservation`). Reservations are kept
  exactly when the variants' reserved agrees with the orders (`StepKeepsReservationsExactlyWhen`).
- In the same way it discards what direct adjustments and orders did to the listing's quantity, while their history rows stay.
  A direct adjustment may also be filed under a change type that the replay does not count, and may drive available stock
  below zero (`StepReplaysExactlyWhen`, `StepStaysCoveredExactlyWhen`).
- A notification that was delivered is recorded FAILED when saving its row fails (`StatusTellsDeliveryExactlyWhen`).
- A second `createMilestones` for an order checks only its own drafts, not those that exist: an order of 100 takes
  two creations of 60 and ends with 120 released (`SecondCreateFitsExactlyWhen`, `SecondCreationOverspends`).
- A batch conversion takes every unsupported currency for the dollar where the single conversion refuses it
  (`UnsupportedCountsAsDollar`, `ConvertsSucceedExactlyWhen`).

## Model

| member | source | states |
|---|---|---|
| PaymentServices.PaymentsService.InitiatePayment | src/payments/payments.service.ts:67-184 | refuses a missing, held or non-PENDING order, a currency mismatch or a missing wallet, in that order; otherwise answers with a PENDING payment of the order, an existing one unchanged if there is one |
| PaymentServices.PaymentsService.VerifyAndConfirmPayment | src/payments/payments.service.ts:189-279 | only a PENDING payment of an order not under review changes: it becomes FAILED when the transaction does not match, else CONFIRMED with its order PAID |
| PaymentServices.PaymentsService.HandlePaymentTimeout | src/payments/payments.service.ts:284-309 | a PENDING payment becomes TIMEOUT; any other is left alone |
| PaymentServices.OrdersService.Create | src/orders/orders.service.ts:56-167 | the first item without a product or priced in another currency is refused; then an order with positive total covering its milestones is saved PENDING, or nothing is saved |
| PaymentServices.OrdersService.UpdateStatus | src/orders/orders.service.ts:228-299 | exactly the table's transitions are made, and none when the stock calls fail |
| PaymentServices.OrdersService.CancelOrder | src/orders/orders.service.ts:169-203 | the buyer cancels an order in any status but CANCELLED, the table notwithstanding |
| PaymentServices.MarkForReview | src/fraud/fraud.service.ts:197-208 | a high score puts the order in MANUAL_REVIEW whatever its status |
| PaymentServices.FirstRelevant | src/payments/payment-monitor.service.ts:234-266 | the first operation relevant to the payment, none before it being relevant |
| PaymentServices.PaymentMonitor.HandleIncomingTransaction | src/payments/payment-monitor.service.ts:144-229 | the first relevant operation of a transaction settles the payment and stops its monitoring, no other's; without one nothing changes |
| PaymentServices.PaymentMonitor.TimerFires | src/payments/payment-monitor.service.ts:271-299 | the timer, once its half hour is over, is one timeout step, and none for a settled payment; its entry goes |
| PaymentServices.PaymentMonitor.CheckAndHandleExpiredPayments | src/payments/payment-monitor.service.ts:338-355 | the sweep times out exactly the pending payments whose expiry has passed, and stops monitoring exactly those |
| PaymentServices.PaymentMonitor.ResumePendingPaymentMonitoring | src/payments/payment-monitor.service.ts:360-388 | the expired pending payments are timed out and exactly the others monitored whose stream opens, each not monitored before with a new timer and no other timer touched |
| PaymentServices.PaymentMonitor.MonitorPayment | src/payments/payment-monitor.service.ts:75-125 | a payment not yet monitored gets a stream and a timer of half an hour, or neither and an error when the stream does not open; one already monitored gets nothing new |
| PaymentServices.PaymentMonitor.StopMonitoring | src/payments/payment-monitor.service.ts:130-139 | the stream and the timer of that payment alone are removed |
| PaymentServices.IncomingKeepsInv | src/payments/payment-monitor.service.ts:144-229 | a transaction seen on a stream keeps the protocol's invariant and settles for good |
| PaymentServices.StreamFailsPaymentExactlyWhen | src/payments/payments.service.ts:357-414 | an operation the stream finds relevant makes the payment FAILED exactly when an XLM payment got another asset or a non-USD one came too late |
| OrderProtocol.StepKeepsInv | src/payments/payments.service.ts:87-112 | every call of every service keeps: no two live payments per order, no confirmed payment of a PENDING order, no payment without its order |
| OrderProtocol.RunKeepsInv | src/payments/payments.service.ts:202-259 | the same over every interleaving, and no row is lost, no settled payment rewritten, PENDING never re-entered |
| OrderProtocol.SafeAtEveryMoment | src/payments/payments.service.ts:87-112 | from empty tables: at most one live payment per order, and a confirmed payment's order is not PENDING |
| OrderProtocol.OneConfirmationEver | src/payments/payments.service.ts:202-259 | two confirmed payments of one order seen at any two moments of a run are the same payment |
| OrderProtocol.SettledForever | src/payments/payments.service.ts:293-298 | a settled payment row is never written again and an order never returns to PENDING |
| OrderProtocol.HoldStopsPayments | src/payments/payments.service.ts:202-216 | while an order is under review no payment of it is created or confirmed |
| OrderProtocol.ConfirmedOnlyByMatchingTransaction | src/payments/payments.service.ts:357-414 | a payment becomes CONFIRMED only by a transaction to its address, of its amount when that parses, and in its asset and time unless it is in USD |
| OrderProtocol.AmountComparedExactlyWhenParsed | src/payments/payments.service.ts:357-414 | with a number as amount the check is the tolerance; without one there is no check |
| OrderProtocol.PayingConfirmsExactlyWhenOpen | src/payments/payments.service.ts:124-259 | after any run since a payment was created, a transaction to the buyer's wallet of the due amount, asset and time confirms it exactly when it is still pending and its order not held; then nothing but it and its order changes |
| OrderProtocol.TimerCutsWindowExactlyWhen | src/payments/payment-monitor.service.ts:271-299 | a monitored payment left alone is confirmed exactly before the timer's half hour is over; the timer ends a payment before its own expiry exactly when it was given more than half an hour |
| OrderProtocol.TableBypassedExactlyWhen | src/orders/orders.service.ts:24-43 | the exact calls that change an order's status against the transition table |
| OrderProtocol.TerminalOrderLeftExactlyWhen | src/orders/orders.service.ts:24-43 | the exact calls that move an order out of CANCELLED or REFUNDED |
| OrderProtocol.CancelledOrderRevived | src/payments/payments.service.ts:236-259 | a concrete run: create, initiate, cancel, confirm leaves the order PAID |
| OrderProtocol.UnparsableAmountPays | src/payments/payments.service.ts:357-414 | a concrete run: an order of 100 is PAID by a transaction whose amount is not a number |
| OrderOutcomes.VerificationSettles | src/payments/payments.service.ts:202-259 | verifying an open payment confirms it and marks its order PAID exactly when the transaction goes to its address, is of its amount within 1000 units of 10^-7 if that is a number, and unless in dollars in its asset and within its minutes; otherwise it is FAILED and its order untouched |
| OrderOutcomes.VerificationRefuses | src/payments/payments.service.ts:189-213 | an unknown, settled or held payment is refused and nothing changes |
| OrderOutcomes.OneLumenDoesNotPayHundred | src/payments/payments.service.ts:372-376 | a payment of 100 XLM is FAILED by a transaction of 1 XLM |
| OrderOutcomes.InitiatedExactlyWhen | src/payments/payments.service.ts:67-147 | the exact condition for an initiation; a refused one changes nothing |
| OrderOutcomes.InitiatedPayment | src/payments/payments.service.ts:112-164 | the new payment asks for the total less the discount, at the buyer's wallet, for thirty minutes unless told otherwise |
| OrderOutcomes.TimeoutsEnd | src/payments/payments.service.ts:284-309 | a timeout ends exactly a pending payment, the sweep exactly the pending ones past their expiry |
| OrderOutcomes.RelevantExactlyWhen | src/payments/payment-monitor.service.ts:234-266 | which operations on the stream concern a payment |
| OrderOutcomes.StreamSettles | src/payments/payment-monitor.service.ts:144-229 | the first such operation confirms an open payment and its order, or fails it, by asset and time |
| OrderOutcomes.StatusComesFrom | src/orders/orders.service.ts:24-43 | the transition table, read by what may come before each status |
| OrderOutcomes.StatusUpdated | src/orders/orders.service.ts:228-299 | an update goes through exactly along the table and with stock, and changes the status and the paid mark alone |
| OrderOutcomes.OrderWalksThePath | src/orders/orders.service.ts:24-43 | an order walks from creation through confirmation, processing, payment, shipping and delivery to completion |
| OrderOutcomes.CreatedExactlyWhen | src/orders/orders.service.ts:102-137 | creation goes through exactly with a positive total covering the milestones and stock to reserve |
| OrderOutcomes.PricedExactlyWhen | src/orders/orders.service.ts:62-108 | the items are accepted exactly when all have a product in the order's currency, and the total is the sum of all subtotals |
| OrderOutcomes.CancelledExactlyWhen | src/orders/orders.service.ts:169-203 | cancellation goes through exactly for the buyer of an order not yet cancelled |
| OrderOutcomes.HeldExactlyWhen | src/fraud/fraud.service.ts:197-208 | a score of 75 or more holds an order in any status, a lower one never |
| OrderOutcomes.ShippedExactlyWhen | src/shipping/shipping.service.ts:102-164 | a shipment is created exactly for a PAID order; a delivery report always takes |
| EscrowLedger.PayEffect | src/escrowes/escrow.service.ts:367-388 | a payment moves its amount between two accounts, touches no other, and conserves the total |
| EscrowLedger.StellarLedger.Submit | src/escrowes/escrow.service.ts:367-388 | a submission is accepted exactly when the network allows it and the account covers a positive amount; otherwise nothing moves |
| EscrowServices.EscrowService.CreateEscrow | src/escrowes/escrow.service.ts:60-96 | what is left after each possible failure: no row, a PENDING row, a PENDING row with the money already locked, or a LOCKED one |
| EscrowServices.EscrowService.ReleaseFunds | src/escrowes/escrow.service.ts:103-129 | the whole amount goes to the seller from LOCKED or PARTIALLY_RELEASED, if the account holds it; a failed save leaves the money moved |
| EscrowServices.EscrowService.RefundBuyer | src/escrowes/escrow.service.ts:306-332 | the whole amount goes back to the buyer under the table, likewise |
| EscrowServices.EscrowService.PayShares | src/escrowes/escrow.service.ts:154-178 | seller first, then buyer, each only when positive; a refusal stops with what was paid by then |
| EscrowServices.EscrowService.ReleasePartial | src/escrowes/escrow.service.ts:136-209 | a split of the amount between the parties, its failures recorded on the row |
| EscrowServices.EscrowService.FreezeEscrow | src/escrowes/escrow.service.ts:216-229 | only a LOCKED escrow is frozen |
| EscrowServices.EscrowService.AdminReleaseFunds | src/escrowes/escrow.service.ts:236-299 | a FROZEN escrow is distributed when the shares add up to its amount and goes to RELEASED past the table |
| EscrowServices.DisputesService.CreateDispute | src/disputes/disputes.service.ts:35-70 | the dispute is saved, then its escrow frozen and flagged; it stays saved when freezing fails, and nothing happens when its own save does |
| EscrowServices.DisputesService.AdminUpdateDispute | src/disputes/disputes.service.ts:127-139 | exactly the dispute transitions of the state machine are made, when the save goes through |
| EscrowServices.DisputesService.AdminResolveDispute | src/disputes/disputes.service.ts:173-220 | the escrow is distributed first, the dispute saved RESOLVED only when that succeeded; the escrow stays distributed when that save fails |
| EscrowSafety.SplitEffect | src/escrowes/escrow.service.ts:154-178 | a split pays both shares or, when refused, the buyer nothing and the seller all of his share or nothing; no other escrow is touched and no money lost |
| EscrowSafety.StepSafe | src/escrowes/escrow.service.ts:103-129 | every call, failing half-way or not, conserves money and keeps each row in step with its account |
| EscrowSafety.RunSafe | src/escrowes/escrow.service.ts:24-43 | the same over every run |
| EscrowSafety.ConservedAndPaidExactly | src/escrowes/escrow.service.ts:136-209 | from a ledger without escrow accounts: money is conserved, and a settled escrow has an empty account and has paid its parties exactly its amount |
| EscrowSafety.StepElsewhere | src/escrowes/escrow.service.ts:236-299 | a call on one escrow changes no other escrow's row, account or payouts |
| EscrowSafety.SettledStep | src/escrowes/escrow.service.ts:24-43 | no call moves money of a settled escrow or changes its row |
| EscrowSafety.SettledForever | src/escrowes/escrow.service.ts:24-43 | nor does any run |
| EscrowSafety.ResolutionPaysTheDecision | src/disputes/disputes.service.ts:187-201 | a resolved dispute gave the buyer the decided refund over the escrow's whole life, and the seller the rest |
| EscrowSafety.UnsavedResolutionRefusedForever | src/disputes/disputes.service.ts:198-219 | a resolution whose own save fails leaves the escrow RELEASED and the dispute unresolved, and resolving it is refused after any run |
| EscrowReceipts.StepKeepsReceipts | src/escrowes/escrow.service.ts:103-332 | every call keeps the hashes on each row naming the payments they stand for |
| EscrowReceipts.HashesAccountForEverything | src/escrowes/escrow.service.ts:60-332 | over every run, the release and refund hashes of a settled escrow each name the one payment that is all its party received, a missing one nothing, together the amount |
| EscrowSafety.StrandedForever | src/escrowes/escrow.service.ts:186-208 | a held escrow whose account falls short stays so over every run |
| EscrowSafety.PendingForever | src/escrowes/escrow.service.ts:24-43 | no run changes a PENDING row once created, or moves what its account holds |
| EscrowSafety.HalfCreationLocksForever | src/escrowes/escrow.service.ts:76-95 | a creation whose lock payment goes through and whose second save fails leaves the whole amount in an account no run ever moves |
| EscrowSafety.SettleableExactlyWhenFull | src/escrowes/escrow.service.ts:60-332 | some run settles an unsettled escrow exactly when it is LOCKED or FROZEN and its account holds the whole amount |
| EscrowSafety.HalfFailureStrands | src/escrowes/escrow.service.ts:154-208 | a partial release refused at its second payment leaves a LOCKED escrow that no run settles |
| EscrowOutcomes.StatusComesFrom | src/escrowes/escrow.service.ts:24-43 | the escrow table, read by what may come before each status |
| EscrowOutcomes.DisputeComesFrom | src/disputes/state-machine/dispute.state-machine.ts:4-19 | the dispute table likewise |
| EscrowOutcomes.PaymentMoves | src/escrowes/escrow.service.ts:367-388 | a payment is accepted exactly when let through, positive and covered, and moves its amount |
| EscrowOutcomes.CreationLocks | src/escrowes/escrow.service.ts:60-96 | a creation goes through exactly for a positive amount the buyer has, between two parties, with both saves and the submission; it ends LOCKED with the amount in its account, from where some run settles it |
| EscrowOutcomes.CreationFails | src/escrowes/escrow.service.ts:60-96 | a failed creation leaves no row before the first save and a PENDING one after |
| EscrowOutcomes.ReleasePaysSeller | src/escrowes/escrow.service.ts:103-129 | a release goes through exactly for a LOCKED escrow holding its amount, and the seller then has it all |
| EscrowOutcomes.RefundPaysBuyer | src/escrowes/escrow.service.ts:306-332 | a refund likewise from LOCKED or FROZEN, to the buyer |
| EscrowOutcomes.PartialReleaseSplits | src/escrowes/escrow.service.ts:136-209 | the exact condition of a partial release; seller and buyer then have their shares, and the row is RELEASED exactly when nothing is refunded |
| EscrowOutcomes.DistributionExactlyWhen | src/escrowes/escrow.service.ts:236-299 | the exact condition of an admin's distribution, for FROZEN escrows only, and the shares it pays |
| EscrowOutcomes.RefusedSplitIsMarked | src/escrowes/escrow.service.ts:202-208 | a split the ledger refuses leaves the status and marks the failure |
| EscrowOutcomes.FreezeExactlyWhen | src/escrowes/escrow.service.ts:216-229 | exactly a LOCKED escrow is frozen, and is FROZEN then |
| EscrowOutcomes.DisputeFreezes | src/disputes/disputes.service.ts:35-70 | a dispute over a LOCKED escrow leaves it FROZEN and flagged; over any other the dispute stays on file and the call fails |
| EscrowOutcomes.DisputeUpdatedExactlyWhen | src/disputes/disputes.service.ts:127-139 | a dispute is updated exactly along its table |
| EscrowOutcomes.ResolvedExactlyWhen | src/disputes/disputes.service.ts:173-220 | the exact condition for resolving a dispute over an escrow |
| EscrowOutcomes.DisputedEscrowIsShared | src/disputes/disputes.service.ts:173-220 | created, disputed and resolved, an escrow gives the buyer the refund and the seller the rest |
| TokenServices.TokenRegistryService.Store | src/auth/token-registry.service.ts:10-16 | the key and the list entry are written with their own expiries |
| TokenServices.TokenRegistryService.TokenExists | src/auth/token-registry.service.ts:18-22 | a token is accepted exactly while its key is live |
| TokenServices.TokenRegistryService.InvalidateToken | src/auth/token-registry.service.ts:24-30 | one token's key and list entry go |
| TokenServices.TokenRegistryService.InvalidateAllForUser | src/auth/token-registry.service.ts:33-44 | the keys of the live list and the list itself go |
| TokenServices.TokenRegistryService.GetList | src/auth/token-registry.service.ts:46-64 | the user's tokens while the list is live, none after |
| TokenServices.AuthService.GetTokens | src/auth/auth.service.ts:35-49 | the refresh token handed out is registered and live |
| TokenServices.AuthService.RevokeAllUserTokens | src/auth/auth.service.ts:90-92 | every token of the live list is revoked |
| TokenServices.AuthService.Refresh | src/auth/auth.service.ts:68-92 | a live token is exchanged for a new one; a dead one revokes everything and is refused |
| TokenProtocol.InvalidateAllClears | src/auth/token-registry.service.ts:33-44 | revoking through the list leaves the user no live token, since every live token is listed |
| TokenProtocol.StepKeepsInv | src/auth/auth.service.ts:68-92 | every login, refresh and revocation keeps each live token in its user's live list, which expires no earlier |
| TokenProtocol.LiveAfterStepExactlyWhen | src/auth/auth.service.ts:68-92 | exactly which live tokens survive each call |
| TokenProtocol.RunKeepsInv | src/auth/token-registry.service.ts:10-64 | the listing invariant over every run, expiry included |
| TokenProtocol.AcceptedAtMostOnce | src/auth/auth.service.ts:68-85 | over every run no token is accepted twice, and a live token is in a list that outlives it |
| TokenProtocol.DeadForever | src/auth/auth.service.ts:68-92 | issued tokens that are dead are never accepted again |
| TokenProtocol.ReuseRevokesEverything | src/auth/auth.service.ts:68-85 | after a refused refresh no token issued to that user before is ever accepted |
| TokenLife.MintedLivesAWeek | src/auth/token-registry.service.ts:10-22 | the token of a login or an accepted refresh is live for 604800000 ms and no longer |
| TokenLife.AcceptedExactlyWhenAlive | src/auth/auth.service.ts:68-88 | over any later run it is accepted exactly when presented within that time, with no use of it and no revocation or reuse of its user in between |
| TokenLife.RefreshExchangesOrRevokes | src/auth/auth.service.ts:68-88 | a refresh with a live token exchanges it for a live new one; with any other it leaves the user none |
| Ancestry.DepthBound | src/categories/categories.service.ts:109-147 | a chain that ends at a root is shorter than the map |
| Ancestry.GroundedExactlyWhenNoCycle | src/categories/categories.service.ts:109-147 | a category's chain reaches a root exactly when it enters no cycle |
| Ancestry.MoveKeepsAcyclicExactlyWhen | src/categories/categories.service.ts:109-147 | a move keeps the map acyclic exactly when the category is not the new parent or one of its ancestors |
| CategoryGuard.AssertNoCycle | src/categories/categories.service.ts:109-147 | the guard terminates on every parent map, cyclic or not, with a definite verdict |
| CategoryGuard.GuardAcceptsExactlySafeMoves | src/categories/categories.service.ts:109-147 | on an acyclic map it accepts exactly the moves that keep it acyclic |
| CategoryGuard.GuardedMovesStayAcyclic | src/categories/categories.service.ts:109-147 | any sequence of guarded moves leaves the map acyclic |
| CategoryGuard.RefusedFor | src/categories/categories.service.ts:109-147 | why a move is refused, and that detaching never is |
| CategoryTree.ChildrenByParent | src/categories/categories.service.ts:196-203 | the index lists each category's children in input order |
| CategoryTree.KidsAreChildren | src/categories/categories.service.ts:196-203 | listed under a category are exactly those naming it as parent |
| CategoryTree.GetDescendantCategoryIds | src/categories/categories.service.ts:189-220 | terminates on any rows, duplicates and cycles included, and returns without repetition exactly the start and what child edges reach from it |
| CategoryForest.MakeNodes | src/categories/categories.service.ts:153-159 | one fresh node per row, found by its id |
| CategoryForest.Attach | src/categories/categories.service.ts:161-178 | appending a node to its parent keeps every node's children equal to the rows seen that name it, in order |
| CategoryForest.BuildTree | src/categories/categories.service.ts:152-181 | the linked nodes: each one's children are the categories naming it, in input order, the roots are the parentless and orphaned ones in input order, and together they show the forest |
| CategoryForest.RootIdsAreRoots | src/categories/categories.service.ts:161-178 | the roots are exactly the categories without a parent among the rows, each once |
| CategoryForest.KidsAreBelow | src/categories/categories.service.ts:161-178 | a node's children are exactly the categories naming it, one level down, each once |
| CategoryForest.TreeShows | src/categories/categories.service.ts:152-181 | flattening a root's tree yields exactly the categories below it, each once |
| CategoryForest.LinkedShows | src/categories/categories.service.ts:152-181 | following the child references of the nodes in memory shows that tree |
| CategoryForest.BelowARootExactlyWhenGrounded | src/categories/categories.service.ts:152-181 | a category is below some root exactly when its chain reaches one |
| CategoryForest.ForestShowsExactly | src/categories/categories.service.ts:152-181 | the forest shows each category at most once, and exactly those whose chain enters no cycle: all of them when acyclic |
| SlidingWindow.WindowNeverOverfull | src/rate-limiting/rate-limit.service.ts:154-207 | admitting only under the limit means no interval of the window's length admits more than the limit |
| SlidingWindow.CountSorted | src/rate-limiting/rate-limit.service.ts:165-190 | counting a sorted log against the limit is looking at one entry |
| SlidingWindow.AdmittedExactlyWhenWindowDrained | src/rate-limiting/rate-limit.service.ts:165-190 | a request is admitted exactly when the one a limit's worth before it has left the window |
| RateLimiter.RateLimitService.SlidingWindowRateLimit | src/rate-limiting/rate-limit.service.ts:154-207 | one key's sorted set is pruned, counted, added to and given an expiry; other keys are untouched; a rejected request stays |
| RateLimiter.RateLimitService.ResetRateLimit | src/rate-limiting/rate-limit.service.ts:393-398 | that key alone is forgotten |
| RateLimiter.RateLimitService.GetRateLimitStatus | src/rate-limiting/rate-limit.service.ts:403-424 | the requests of the last minute are counted, and the older ones of that key forgotten |
| RateLimiter.PrunedCountIsFullCount | src/rate-limiting/rate-limit.service.ts:165-190 | the pruned, expiring set counts what the full history counts in the window and in any shorter one |
| RateLimiter.RequestRefinesFullCount | src/rate-limiting/rate-limit.service.ts:154-207 | each request is decided and reported as by the full history, and keeps the set refining it |
| RateLimiter.StepRefinesExactlyWhen | src/rate-limiting/rate-limit.service.ts:154-424 | a request always, a status read or a reset exactly when it forgets no request still in the window, keeps the set standing for the full history |
| RateLimiter.StatusReadAgreesExactlyWhen | src/rate-limiting/rate-limit.service.ts:403-417 | a status read is harmless exactly when no request counted by the window is older than a minute, hence always for windows up to a minute |
| RateLimiter.AfterStatusReadAdmittedExactlyWhen | src/rate-limiting/rate-limit.service.ts:403-417 | a request right after a status read is decided by a window of at most a minute |
| RateLimiter.StatusReadLetsSixthLoginIn | src/rate-limiting/rate-limit.service.ts:34-79 | a concrete run: five logins, a status read a minute later and a sixth login, all six admitted within 15 minutes, the sixth refused without the read |
| RateLimiter.RemainingPointsAreGood | src/rate-limiting/rate-limit.service.ts:181-186 | the remaining points reported are how many more requests at the same moment are admitted: another one is exactly when they are positive, and lowers them by one |
| RateLimiter.AtMostLimitPerWindow | src/rate-limiting/rate-limit.service.ts:154-207 | over every run of requests and harmless status reads and resets, any interval of the window's length admits at most maxRequests + burstAllowance |
| RateLimiter.WaitingIsEnough | src/rate-limiting/rate-limit.service.ts:181-206 | a rejected caller who alone waits the msBeforeNext it was told is then admitted exactly when the limit is positive |
| RateLimiter.AdmittedExactlyWhenDrained | src/rate-limiting/rate-limit.service.ts:154-207 | over every such run, a request is admitted exactly when the one a limit's worth before it, rejected ones counted, is out of the window |
| RateLimiter.LoginsAreCappedForEveryTier | src/rate-limiting/rate-limit.service.ts:212-230 | the endpoint's own limit prevails over the tier's: five logins in fifteen minutes for everyone, over runs whose status reads and resets are harmless |
| RateLimiter.WaitTold | src/rate-limiting/rate-limit.service.ts:181-206 | the wait told to admitted and rejected callers, and the hits counted |
| RateLimiter.LimitsTable | src/rate-limiting/rate-limit.service.ts:34-79 | the limits and windows of every tier and endpoint |
| RateLimiter.CustomPrevails | src/rate-limiting/rate-limit.service.ts:212-230 | a custom setting prevails, setting by setting |
| Messages.MessagesService.CheckRateLimit | src/messages/messages.service.ts:99-113 | a sender is let through exactly with fewer than five messages in the last 30 seconds |
| Messages.MessagesService.SendMessage | src/messages/messages.service.ts:19-49 | the log gains that message under the next id, or nothing |
| Messages.MessagesService.GetMessagesByOrderId | src/messages/messages.service.ts:51-65 | the order's messages, by time |
| Messages.MessagesService.MarkAsRead | src/messages/messages.service.ts:67-87 | only the receiver marks an existing message, and only that flag changes |
| Messages.LogOrderIsTimeOrder | src/messages/messages.service.ts:51-65 | the sort by time changes nothing, the log being in time order |
| Messages.AtMostFivePerWindow | src/messages/messages.service.ts:99-113 | no interval of 30 seconds holds more than five messages of one sender |
| Messages.SentExactlyWhenFewerThanFive | src/messages/messages.service.ts:99-113 | a message may be sent exactly when fewer than five of the sender's places in the log lie in the last 30 seconds |
| Messages.OfOrderExactly | src/messages/messages.service.ts:51-65 | the messages of an order are exactly those of the log with its id, each as often |
| Sorting.StableSortSorts | src/cache/cache.service.ts:242-254 | the sort orders its input and permutes it |
| Sorting.SortingSortedIsIdentity | src/messages/messages.service.ts:51-65 | sorting what is sorted changes nothing |
| Sorting.LargestLastStaysLast | src/cache/cache.service.ts:242-254 | an appended entry not below any other stays last |
| MemoryTier.PutEntries | src/cache/cache.service.ts:185-201 | writing a key replaces its entry and leaves the others |
| MemoryTier.EvictionDropsLeastRecentlyAccessed | src/cache/cache.service.ts:242-254 | eviction meets the limit exactly and drops only entries accessed no later than every one kept |
| MemoryTier.JustWrittenSurvives | src/cache/cache.service.ts:185-201 | the key just written is never the one evicted, given room for one |
| CacheProtocol.GetKeepsInv | src/cache/cache.service.ts:46-71 | a read, with its expiry, promotion and eviction, keeps both tiers agreeing with the latest sets |
| CacheProtocol.RunKeepsInv | src/cache/cache.service.ts:46-114 | so does every run of reads, accepted sets, deletes, tag deletes, flushes and Redis expiries |
| CacheProtocol.GetReturnsLatestOrNothing | src/cache/cache.service.ts:46-71 | over every run a get returns nothing or the value of the latest set not yet deleted, and the memory tier stays within maxItems |
| CacheProtocol.DeleteByTagsClearsTagged | src/cache/cache.service.ts:96-105 | a key last set with one of the tags is in neither tier afterwards |
| CacheProtocol.SetKeyIsInMemory | src/cache/cache.service.ts:73-86 | a set leaves its entry in memory with its own lifetime and tags |
| CacheProtocol.RefusedSetStaysCoherentExactlyWhen | src/cache/cache.service.ts:203-221 | a set with no positive lifetime, which Redis refuses, stays coherent exactly when Redis held nothing or the same value |
| CacheProtocol.PromotedCopyOutlivesExactlyWhen | src/cache/cache.service.ts:46-71 | the copy promoted to memory is live past the Redis key's expiry exactly when its fresh lifetime ends no sooner |
| CacheAge.ServedAtMostTwiceItsLifetime | src/cache/cache.service.ts:46-86 | over every run in which no lifetime exceeds a number of seconds, a read returns a value only if it was last set at most twice as long ago |
| CacheOutcomes.ReadAnswers | src/cache/cache.service.ts:46-71 | a read answers the live entry in memory, else the live one in Redis, and nothing exactly when neither has one |
| CacheOutcomes.ReadTouches | src/cache/cache.service.ts:158-170 | a read from memory counts and dates the access of that entry alone |
| CacheOutcomes.PromotionCopies | src/cache/cache.service.ts:57-66 | a read from Redis copies the value to memory for the lifetime asked for, or an hour |
| CacheOutcomes.SetReachesRedis | src/cache/cache.service.ts:203-221 | a set writes Redis for its lifetime and files the key under its tags |
| CacheOutcomes.DeletionRemovesExactly | src/cache/cache.service.ts:88-105 | a deletion removes exactly the keys named, or filed under the tags, from both tiers |
| CacheOutcomes.SetThenRead | src/cache/cache.service.ts:46-86 | whatever came before, a set value is read back up to its lifetime |
| CacheOutcomes.ServedUntilExpiry | src/cache/cache.service.ts:46-114 | it stays readable for its lifetime over any run that does not set, delete, flush or drop its key |
| CacheServices.CacheService.Get | src/cache/cache.service.ts:46-71 | memory first, then Redis with promotion; one request and at most one hit are counted |
| CacheServices.CacheService.Set | src/cache/cache.service.ts:73-86 | both tiers are written, and the tag sets |
| CacheServices.CacheService.Delete | src/cache/cache.service.ts:88-94 | the key leaves both tiers |
| CacheServices.CacheService.DeleteByTags | src/cache/cache.service.ts:96-105 | exactly the keys in the tags' sets leave both tiers |
| CacheServices.CacheService.Flush | src/cache/cache.service.ts:107-114 | both tiers and the tag sets are empty |
| CacheServices.CacheService.GetFromMemory | src/cache/cache.service.ts:158-170 | an expired entry is dropped and not returned; a live one is touched |
| CacheServices.CacheService.SetInMemory | src/cache/cache.service.ts:185-201 | the entry is written and the excess evicted |
| CacheServices.CacheService.CleanupMemoryCache | src/cache/cache.service.ts:242-254 | the loop deletes exactly the entries sorted first, down to maxItems |
| CacheServices.CacheService.GetKeysByTags | src/cache/cache.service.ts:227-236 | the union of the tags' sets |
| HashBucket.SignedStepIsUnsignedStep | src/feature-flags/feature-flag.service.ts:120-127 | one turn of the signed 32-bit loop is one multiply-by-33-xor modulo 2^32, without leaving the exact integers of a double |
| HashBucket.ComputeBucket | src/feature-flags/feature-flag.service.ts:120-127 | the signed loop computes the unsigned fold's bucket |
| HashBucket.Bucket | src/feature-flags/feature-flag.service.ts:120-127 | the bucket lies in 0..99 |
| HashBucket.FoldExactly | src/feature-flags/feature-flag.service.ts:120-127 | the hash starts from 5381 and each unit multiplies by 33 and exclusive-ors, modulo 2^32 |
| HashBucket.BucketExactly | src/feature-flags/feature-flag.service.ts:120-127 | the bucket is the hash of user, colon and key modulo 100 |
| FeatureFlags.RunKeepsCoherent | src/feature-flags/feature-flag.service.ts:34-112 | over every run with creations on fresh keys and updates keeping the key, a cached flag is the table's row |
| FeatureFlags.EvaluationReadsTheTable | src/feature-flags/feature-flag.service.ts:58-89 | after any such run an evaluation answers as the table row does, so a cached absence never hides a flag |
| FeatureFlags.CreateStaysCoherentExactlyWhen | src/feature-flags/feature-flag.service.ts:20-22 | creation without invalidation is safe exactly when the cache holds no different flag under the key; always on a fresh key |
| FeatureFlags.UpdateStaysCoherentExactlyWhen | src/feature-flags/feature-flag.service.ts:34-40 | an update is safe exactly when it keeps the key or the new key is not cached with another flag |
| FeatureFlags.EarlierSourceDecides | src/feature-flags/feature-flag.service.ts:50-89 | the documented precedence: override, then rollout, then environment, then the global switch; what an earlier source settles no later one changes |
| FeatureFlags.RolloutIsMonotone | src/feature-flags/feature-flag.service.ts:67-79 | for a user without override a higher percentage turns nobody off, 0 enables nobody and 100 everybody |
| FeatureFlags.MissingFlagIsOff | src/feature-flags/feature-flag.service.ts:65 | a flag not found is off |
| FeatureFlags.SwitchDecides | src/feature-flags/feature-flag.service.ts:81-88 | without any other source the switch decides |
| FeatureFlags.RolloutByBucket | src/feature-flags/feature-flag.service.ts:72-79 | exactly the users whose bucket lies below the percentage are on |
| FeatureFlags.OverrideAnswersNext | src/feature-flags/feature-flag.service.ts:93-112 | after an override is set the next evaluation answers it, whatever was cached, and other users' answers stay |
| FeatureFlags.UpdateAnswersNext | src/feature-flags/feature-flag.service.ts:34-40 | after an update the next evaluation reads the row with exactly the given fields replaced |
| FeatureFlags.CreationAndRemovalAnswerNext | src/feature-flags/feature-flag.service.ts:20-46 | after a removal the next evaluation finds nothing, after a creation on a fresh key the new flag |
| FeatureFlagServices.RedisCacheService.Get | src/redis-caching/redis-cache.service.ts:12-20 | a missing or null entry is a miss and is counted so |
| FeatureFlagServices.RedisCacheService.Del | src/redis-caching/redis-cache.service.ts:26-28 | that entry alone is dropped |
| FeatureFlagServices.RedisCacheService.GetOrSet | src/redis-caching/redis-cache.service.ts:39-49 | a hit is returned, otherwise what was computed is stored and returned |
| FeatureFlagServices.FeatureFlagsService.CreateFlag | src/feature-flags/feature-flag.service.ts:20-22 | the row is saved and the cache left alone |
| FeatureFlagServices.FeatureFlagsService.UpdateFlag | src/feature-flags/feature-flag.service.ts:34-40 | the merged row is saved and the old key's entry dropped |
| FeatureFlagServices.FeatureFlagsService.RemoveFlag | src/feature-flags/feature-flag.service.ts:42-46 | row and cache entry go |
| FeatureFlagServices.FeatureFlagsService.SetUserOverride | src/feature-flags/feature-flag.service.ts:93-103 | that user's override alone changes |
| FeatureFlagServices.FeatureFlagsService.RemoveUserOverride | src/feature-flags/feature-flag.service.ts:105-112 | that user's override alone goes |
| FeatureFlagServices.FeatureFlagsService.IsEnabled | src/feature-flags/feature-flag.service.ts:58-89 | over a coherent cache the answer is the table row's |
| InventoryLedger.LinesEffect | src/inventory/inventory.service.ts:177-314 | a transaction's effect on a listing is that of its lines' total quantity at once, however often it is repeated, and on no other |
| InventoryLedger.ReservationSucceedsExactlyWhenTotalsFit | src/inventory/inventory.service.ts:177-208 | a reservation succeeds exactly when every listing named exists and covers its total over all lines |
| InventoryRuns.StartReserves | src/inventory/inventory.service.ts:177-208 | a stock in which nothing is reserved agrees with having no orders |
| InventoryRuns.StepKeepsReservationsExactlyWhen | src/inventory/inventory.service.ts:39-456 | every call but the variant adjustment keeps reserved equal to what the outstanding orders hold; that one does exactly when its listing's variants' reserved adds up to it |
| InventoryRuns.VariantAdjustableExactlyWhenUnheld | src/inventory/inventory.service.ts:57-102 | where a listing's variants were created with nothing reserved, that is, at any moment of any run, exactly when no outstanding order holds the listing |
| InventoryRuns.ReservedIsWhatOrdersHold | src/inventory/inventory.service.ts:39-456 | over every run of all calls whose variant adjustments meet the condition, each listing's reserved is what the outstanding orders hold and available is the rest |
| InventoryRuns.VariantAdjustmentLosesReservation | src/inventory/inventory.service.ts:39-102 | a concrete run: reserve, adjust a variant, confirm; the reservation is forgotten and the clamp fires |
| InventoryRuns.StepStaysCoveredExactlyWhen | src/inventory/inventory.service.ts:57-314 | order and product calls never make available negative; an adjustment does exactly when it takes more than is available |
| InventoryRuns.AvailableStaysNonnegative | src/inventory/inventory.service.ts:39-456 | over every run from an unreserved stock meeting both conditions, 0 <= available = quantity - reserved and reserved is what the orders hold |
| InventoryRuns.SettlingNeverClamps | src/inventory/inventory.service.ts:213-278 | while reserved is what the orders hold, confirming or cancelling an outstanding order never meets the clamp at zero |
| InventoryRuns.SettlingClampsExactlyWhen | src/inventory/inventory.service.ts:213-278 | in general the clamp loses nothing exactly when the lines' total is reserved |
| InventoryRuns.StepReplaysExactlyWhen | src/inventory/inventory.service.ts:39-456 | the exact calls that move a listing's quantity and the counted sum of its history alike |
| InventoryRuns.HistoryReplays | src/inventory/inventory.service.ts:39-456 | over every run of such calls quantity less the counted changes of the history is the initial quantity |
| InventoryRuns.ProductHoldEndsReleasedOrSold | src/inventory/inventory.service.ts:335-456 | a product hold is granted exactly when covered; released it leaves the product as it was, sold it takes exactly its amount and nobody else's |
| InventoryRuns.SkippedRowsLeaveNoTrace | src/inventory/inventory.service.ts:142-172 | a bulk update is the one of its existing rows, one history row each |
| InventoryVariants.VariantAdjustmentRewritesListing | src/inventory/inventory.service.ts:39-102 | an adjusted variant's listing shows the sums over its variants, whatever it showed; its quantity moves by just the change exactly when it was their sum, and its reserved is kept exactly when it was theirs |
| InventoryVariants.VariantAdjustmentElsewhere | src/inventory/inventory.service.ts:57-102 | every other listing, and the sums over its variants, is unchanged |
| InventoryRuns.TotalsMatchOverRuns | src/inventory/inventory.service.ts:39-102 | a listing changed only through its variants shows their sums over every run, from the start if it did and in any case once one has been adjusted |
| InventoryRuns.VariantsOnlyRunReplays | src/inventory/inventory.service.ts:57-102 | over such a run its history replays |
| InventoryOutcomes.SettlesExactlyWhenNamed | src/inventory/inventory.service.ts:213-314 | confirming, cancelling and refunding go through exactly when every listing named exists, whatever is available |
| InventoryOutcomes.LineMoves | src/inventory/inventory.service.ts:177-314 | what one line of each operation does to its listing and files |
| InventoryOutcomes.LinesFileRows | src/inventory/inventory.service.ts:177-314 | each line files one history row, in order, with its sign and type |
| InventoryOutcomes.AdjustedExactlyWhenKnown | src/inventory/inventory.service.ts:104-140 | an adjustment of an existing listing always goes through, and moves quantity and available by the change |
| InventoryOutcomes.SyncedExactly | src/inventory/inventory.service.ts:39-55 | a listing without variants has its available worked out again, one with variants takes their sums, and no other changes |
| InventoryOutcomes.VariantAdjustedExactlyWhen | src/inventory/inventory.service.ts:57-102 | a variant adjustment goes through exactly when it leaves the variant no less than its reserved |
| InventoryOutcomes.OutstandingOrdersSettle | src/inventory/inventory.service.ts:213-278 | at any moment of any run every outstanding order can be confirmed and can be cancelled, and is not outstanding afterwards |
| InventoryOutcomes.OutstandingOrdersSettleInFull | src/inventory/inventory.service.ts:213-278 | where reservations are kept, settling moves each listing by exactly what the order held |
| InventoryOutcomes.ProductCallsExactlyWhen | src/inventory/inventory.service.ts:335-456 | when product calls go through, and the levels and rows they leave |
| InventoryServices.InventoryService.ReserveForOrder | src/inventory/inventory.service.ts:177-208 | all lines are reserved or nothing changes |
| InventoryServices.InventoryService.ConfirmOrder | src/inventory/inventory.service.ts:213-246 | all lines leave the stock, each with its history row, or nothing changes |
| InventoryServices.InventoryService.CancelOrder | src/inventory/inventory.service.ts:251-278 | all lines are given back or nothing changes |
| InventoryServices.InventoryService.RestoreInventoryFromRefund | src/inventory/inventory.service.ts:283-314 | all lines return to the stock, each with its history row, or nothing changes |
| InventoryServices.InventoryService.AdjustInventory | src/inventory/inventory.service.ts:104-140 | one listing and one history row change, or nothing for an unknown listing |
| InventoryServices.InventoryService.BulkUpdateInventory | src/inventory/inventory.service.ts:142-172 | existing rows are adjusted in order and counted, unknown ones skipped |
| InventoryServices.InventoryService.SumVariants | src/inventory/inventory.service.ts:39-55 | the sums of quantity, reserved and available over a listing's variants, in whatever order they are visited |
| InventoryServices.InventoryService.SyncListingAggregate | src/inventory/inventory.service.ts:39-55 | a listing with variants takes their sums; one without keeps its own |
| InventoryServices.InventoryService.AdjustVariantInventory | src/inventory/inventory.service.ts:57-102 | the variant, its listing's totals and the history change together, or nothing |
| InventoryServices.InventoryService.ReserveInventory | src/inventory/inventory.service.ts:335-384 | a product is reserved within what is available, or nothing changes |
| InventoryServices.InventoryService.ReleaseInventory | src/inventory/inventory.service.ts:386-420 | a product's reservation is given back, or nothing changes |
| InventoryServices.InventoryService.CommitProductSale | src/inventory/inventory.service.ts:422-456 | a product's reserved stock is sold, or nothing changes |
| RetryStrategy.ExecuteWithRetry | src/notifications/retry-strategy.service.ts:60-191 | success exactly when one of the allowed tries succeeds, after exactly the tries up to the first success or all maxRetries + 1; the record numbers them from 0 with their errors and delays |
| RetryStrategy.Jitter | src/notifications/retry-strategy.service.ts:196-213 | the jittered delay stays between nothing and the whole |
| RetryStrategy.DelayWithinBounds | src/notifications/retry-strategy.service.ts:196-213 | each delay is at most maxDelayMs and at most the exponential backoff |
| RetryStrategy.DelayExactly | src/notifications/retry-strategy.service.ts:196-213 | a retry waits its capped exponential delay exactly, or with jitter the floor of the sample's share of it |
| RetryStrategy.DefaultDelays | src/notifications/retry-strategy.service.ts:43-49 | the default strategy waits 1, 2, 4, 8 and 16 seconds and then half a minute |
| RetryStrategy.ChannelStrategies | src/notifications/retry-strategy.service.ts:225-249 | tries, initial delay and cap of every channel |
| RetryStrategy.AllowedExactly | src/notifications/retry-strategy.service.ts:60-191 | one try more than the retries, and one in any case |
| RetryStrategy.GeometricClosed | src/notifications/retry-strategy.service.ts:196-213 | the unjittered backoffs add up to the closed geometric form |
| RetryStrategy.TotalDelayBounded | src/notifications/retry-strategy.service.ts:60-213 | the total delay is at most maxRetries times the cap and at most the geometric sum |
| Notifications.NotificationsService.RouteToDLQ | src/notifications/dead-letter-queue.service.ts:121-196 | one letter is appended with the attempt count, the first failure's time and every attempt, or nothing when its save fails |
| Notifications.NotificationsService.ProcessNotification | src/notifications/notifications.service.ts:241-344 | how often it is tried, which letter the queue gains and how the row ends, for every combination of saves that fail |
| Notifications.StatusTellsDeliveryExactlyWhen | src/notifications/notifications.service.ts:241-344 | SENT means delivered exactly when the row's save succeeds or nothing was delivered |
| Notifications.EndsAs | src/notifications/notifications.service.ts:241-344 | the status a pending notification ends with, for every combination of delivery and saves |
| Notifications.LetterCarriesWholeHistory | src/notifications/dead-letter-queue.service.ts:138-165 | the letter of a failed notification holds every try, numbered, timed and with its error, and the row is FAILED |
| MilestoneAccounting.ReleaseKeepsInv | src/milestones/milestones.service.ts:143-182 | a release moves the milestone's amount from remaining to released, once |
| MilestoneAccounting.ReleasedButPaidExactlyWhen | src/milestones/milestones.service.ts:143-182 | an open milestone ends RELEASED in any case, and is paid out exactly when its order exists |
| MilestoneAccounting.NextKeepsInv | src/milestones/milestones.service.ts:76-303 | creation, approval, rejection, release and automatic release keep the order's figures equal to the sums over its milestones |
| MilestoneAccounting.StartHolds | src/orders/orders.service.ts:122-137 | orders as they are created, without milestones, satisfy the accounts |
| MilestoneAccounting.RunKeepsInv | src/milestones/milestones.service.ts:76-303 | the same over every run, with any number of creations that fit beside what is planned |
| MilestoneAccounting.ReleasedNeverExceedsTotal | src/milestones/milestones.service.ts:373-384 | over every run the released amount is the sum of RELEASED milestones, is total less remaining, never exceeds the total, and no milestone is paid twice |
| MilestoneAccounting.SecondCreateFitsExactlyWhen | src/milestones/milestones.service.ts:90-110 | a further creation is accepted on its own sum, and stays within the total exactly when the planned amounts leave room |
| MilestoneAccounting.SecondCreationOverspends | src/milestones/milestones.service.ts:90-182 | a concrete run: an order of 100 takes two creations of 60 and ends with 120 released and -20 remaining |
| MilestoneAccounting.CreatedExactlyWhen | src/milestones/milestones.service.ts:76-111 | drafts are saved exactly when the order exists and their sum is within its total |
| MilestoneAccounting.DraftBecomesMilestone | src/milestones/milestones.service.ts:100-110 | a draft becomes a pending milestone with its amount and trigger |
| MilestoneAccounting.ApprovedOrRejectedExactlyWhen | src/milestones/milestones.service.ts:187-233 | exactly pending milestones are approved, and exactly pending or approved ones rejected |
| MilestoneAccounting.ReleasedExactlyWhen | src/milestones/milestones.service.ts:143-182 | exactly pending or approved milestones are released, moving the order's figures by the amount |
| MilestoneAccounting.DueExactlyWhen | src/milestones/milestones.service.ts:274-280 | due are exactly the pending milestones that release by themselves and whose date has passed |
| MilestoneServices.MilestonesService.CreateAll | src/milestones/milestones.service.ts:76-111 | all drafts are saved when their sum fits the order's total, else none |
| MilestoneServices.MilestonesService.ReleaseOne | src/milestones/milestones.service.ts:143-182 | a pending or approved milestone, and no other, is saved RELEASED, then paid out and the order's figures moved by its amount without checking what remains; when its order is gone the call throws after the save |
| MilestoneServices.MilestonesService.ApproveOne | src/milestones/milestones.service.ts:187-206 | only a pending milestone is approved |
| MilestoneServices.MilestonesService.RejectOne | src/milestones/milestones.service.ts:211-233 | only a pending or approved milestone is rejected |
| MilestoneServices.MilestonesService.ProcessAutomaticReleases | src/milestones/milestones.service.ts:271-303 | exactly the due milestones are released, each once, in some order; those whose order exists are paid out in that order; none is due afterwards |
| MilestoneServices.MilestonesService.TotalReleased | src/milestones/milestones.service.ts:333-335 | the reported total is the sum over RELEASED milestones |
| Archiving.ArchivingService.FindIds | src/archiving/archiving.service.ts:46-54 | eligible ids only, a full batch of them or all there are |
| Archiving.ArchivingService.MoveBatch | src/archiving/archiving.service.ts:45-78 | at most BATCH_SIZE eligible rows move unchanged, or none when the transaction fails; no row is lost or doubled |
| Archiving.ArchivingService.ArchiveAll | src/archiving/archiving.service.ts:36-89 | terminates after one batch of 1000 more than the eligible rows fill; the archive gains exactly the completed rows last updated before the threshold and the primary table keeps the rest; when a transaction fails, exactly the batches before it have moved |
| Archiving.MovedMore | src/archiving/archiving.service.ts:45-78 | a batch on top of those before amounts to moving all their rows at once, and lowers what is left by its size |
| Currency.ToCents | src/currency/currency.service.ts:33 | rounding to two decimals moves a value by at most half a cent |
| Currency.RoundedIsWhole | src/currency/currency.service.ts:33-34 | rounded amounts are whole cents and rounded rates whole millionths |
| Currency.TiesGoAway | src/currency/currency.service.ts:33 | half a cent is rounded away from zero, on both sides of it |
| Currency.ConvertedAtRates | src/currency/currency.service.ts:20-35 | at rates a and b the amount is amount / a * b to half a cent, the rate b / a to half a millionth |
| Currency.DollarsConvert | src/currency/currency.service.ts:20-35 | dollars convert by multiplying with the rate, and back by dividing |
| Currency.CurrencyService.Convert | src/currency/currency.service.ts:8-36 | equal codes return the amount as it is; otherwise the first unsupported code is refused, or the rounded conversion and rate returned |
| Currency.CurrencyService.ConvertBatch | src/currency/currency.service.ts:38-52 | the loop's running total is the sum of the items in dollars, converted and rounded once |
| Currency.BatchNearSumOfConverts | src/currency/currency.service.ts:38-52 | a batch differs from the sum of single conversions by at most half a cent, and half a cent more per item in another currency |
| Currency.ConvertsSucceedExactlyWhen | src/currency/currency.service.ts:20-26 | converting one by one succeeds exactly when no foreign item meets an unsupported code |
| Currency.UnsupportedCountsAsDollar | src/currency/currency.service.ts:45-51 | the batch with unsupported codes is the batch with those codes at one to the dollar |
| Currency.DetourNearDirect | src/currency/currency.service.ts:8-36 | converting through a third currency differs from converting straight by half a cent of it at the second leg's rate, and a cent |
| Currency.RoundTripNearOriginal | src/currency/currency.service.ts:8-36 | there and back differs from the original by at most 0.005 * (fromRate / toRate) + 0.005 |
| Currency.QuotedRateExplainsAmount | src/currency/currency.service.ts:28-35 | the amount times the quoted rate is the converted amount up to the two roundings |

## Left out

- Interleavings inside one service method: each method is one step.
- A database save that fails outside escrows, disputes, notifications and transactions: the other saves go through.
- Database, Redis, Stellar and queue internals, events, logging, metrics beyond the cache's counters, input validation and HTTP.
- Deleting order rows by archiving, as a step of the order and payment protocol.
- The order state subscriber (src/orders/subscribers/order-state.subscriber.ts): the data source registers no subscribers.
- The stock calls of an order transaction, inside the order protocol: they are one parameter saying whether they throw. Orders
  reserve Product rows on creation while status updates confirm Listing rows; the two tables are separate in the inventory model.
- Cancelling an order after its stock was confirmed, and `updateMilestoneStatus`: they write state without the guards the
  accounting rests on, and runs do not include them.
- Ledger fees and reserves, and generated escrow keys that collide with a party's: custody accounts are distinct by type.
- The escrow auto-release job, and dispute escalation and auto-resolution, other than as the release and status-update steps they take.
- The average response time of the cache, and values that the source reads as absent because they are falsy, beyond treating
  them as absent; changing maxItems at run time.
- Changing a tier's or endpoint's limits within a run of the rate limiter, and its answer when Redis fails, which is to admit.
- The price and currency that the listing aggregate also carries, and low-stock events.
- Sign-in, access tokens and hashing: a minted refresh token is a fresh name.
- The order-participant check of messages, which passes for everyone, and the update time of a message.
- Flag and state keys that collide with members of the JavaScript object prototype.
- Binary floating point: amounts are integers in minor units, and delays, percentages and conversions exact reals.
- Decimal columns arriving as strings: no column has a transformer, so the database driver normally hands strings over.
  src/escrowes/escrow.service.ts:252 would then compare a number with a string, and src/milestones/milestones.service.ts:379
  append one to a number. The model takes them for numbers, as their declared types say.
- Editing a listing, which rewrites its levels from its variants as a variant adjustment does, and variants created with more
  reserved than they have, whose available is set to zero.
- The cache's counters (`increment`), which share the Redis keys: no key is used both as a counter and as an entry.
- The state diff of the audit log, fraud scoring, coupons, pricing, rewards, search, analytics, exports and uploads: not modelled.
- Currency.RoundTripNearOriginal: rates are taken to be positive, which the source does not check.
