# Restaurant backend: a model of its stateful rules

The project models the parts of the restaurant backend in which correctness depends on state: checkout with its
stock reservation and points spending, the payment worker, the same transactions interleaved under row locks, the
circuit breaker and its retry loop, the rate limiter, the life of an admin or widget order, slug allocation, table
reservations and the dashboard cache. `dafny verify dfyconfig.toml` verifies all of it.

Every handler that changes rows, keys or fields is a method whose postcondition equates the whole new state with a
function of the old one; the properties are lemmas about those functions over every input and every run. What each
function takes from its request and writes to the tables is stated a second time, straight from the two. SQL tables are
maps and sequences, Redis keys are maps, and clocks, provider replies and the lower-casing of strings are inputs.
Money, points, grams and times are reals, so binary floating-point error is not in the model; where two-decimal columns
matter, rounding is stated on its own.

| file | what it holds |
|---|---|
| `Wrappers.dfy`, `Store.dfy` | result types; the tables checkout, payments and stock share |
| `Stock.dfy` | the reservation loop and aggregate demand |
| `Checkout.dfy` | `POST /orders` as one transaction |
| `Payments.dfy` | payment creations, each open from its read to its store, webhooks and polling |
| `Transactions.dfy`, `SoloCheckout.dfy` | the same transactions interleaved statement by statement, and their agreement with the handlers |
| `CircuitBreaker.dfy`, `ModelClient.dfy` | the breaker and the retrying client |
| `RateLimiter.dfy` | fixed-window counters with expiry |
| `OrderLifecycle.dfy`, `OrderTotals.dfy` | status table, event log and audit trail; basket check and stored totals |
| `Slugs.dfy`, `Bookings.dfy`, `Dashboard.dfy` | slug allocation, reservations, the cached summary |

## What the code does not do

Some plausible statements are false of the code. Each has a lemma with a concrete input, or one for all inputs where the
statement never holds; where it holds for some inputs, there is a lemma with the exact condition too.

- The unlocked stock check lets two interleaved checkouts overdraw a level (`Transactions.InterleavedCheckoutsOverdraw`).
  No level is ever negative during a run exactly when every checkout finds its demand covered at its commit
  (`Transactions.RunOverdrawsIff`; `Transactions.CommitOverdrawsIff` for one commit).
- A recipe row may be negative, and then an order can be refused for stock although its total demand fits
  (`Checkout.NegativeRecipeRowRefused`, `Stock.NegativeGramsBreakAggregate`). The loop accepts what fits in total, at all
  levels, exactly when no need is given back by the later ones (`Stock.AggregateIff`). The verdict can then also depend
  on the order of the recipe rows, which the query leaves open (`Stock.RowOrderMatters`); it never does exactly when each
  ingredient's needs are all non-negative or all equal (`Stock.OrderIrrelevantIff`).
- A request whose own interval is empty or reversed can be refused although it meets nothing
  (`Bookings.EmptyIntervalIsRefused`, `Bookings.RequestAnsweredRightlyIff`). Nothing keeps such an interval from being
  stored either, and then it refuses proper requests that meet nothing (`Bookings.ReversedIntervalBlocks`); a table
  answers all proper requests rightly exactly when each such row is hidden by a proper one
  (`Bookings.TableAnswersRightlyIff`), and a run stores none exactly when it accepts no such request
  (`Bookings.RunKeepsProperIff`).
- A dashboard answer can be older than thirty seconds, because the key's life starts when the result is written and not
  when it was queried (`Dashboard.LateAnswerIsOld`). With writes at most `latency` after their query, a bound on the age
  of all answers holds exactly from thirty seconds plus `latency` on (`Dashboard.AgeBoundIff`).
- The idempotency key of a placed order is not stored (`Checkout.PlacedKeyNotRecognised`, for every accepted checkout).
- Orders stored by the checkout route have no line names, so payment creation refuses them before it calls the provider
  (`Payments.StoredCheckoutOrderIsRefused`, for every accepted checkout).
- An order paid while a second creation is open ends up paid under the second id (`Payments.PaidOrderGetsNewId`). An id
  is stored over a payment that is still pending exactly when no event has acted on the order since the creation read it
  (`Payments.IdChangedByPendingRead`).
- With two-decimal columns an accepted order can be refused for its amount (`Payments.OneKopeckOrderRefused`), exactly
  when it comes to less than half a kopeck, or to less than one and a half with half or more paid in points
  (`Payments.RoundedOrderIsChargeableIff`).
- A request whose counter expires between GET and INCR leaves a key without expiry (`RateLimiter.KeyLosesExpiryIff`), and
  the user then starves (`RateLimiter.LateIncrementStarves`, at the default limit and window).
- A limit of zero still lets the first request through (`RateLimiter.LimitZeroAllows`); verdict and remainder agree
  exactly from a limit of one on (`RateLimiter.AllowedIffRemaining`).
- A dish that passes the checks can be refused for its slug: the second of a name of 255 letters
  (`Slugs.RepeatedLongNameRefused`), and on an empty menu a name whose lower-casing grows (`Slugs.OverlongSlugRefused`).
  It is refused exactly when its base is overlong or all its candidates with room are taken (`Slugs.SlugRefusedIff`).
- An order created already completed would never be closed (`OrderLifecycle.CreatedCompletedIsNeverClosed`), one created
  otherwise is closed exactly while completed (`OrderLifecycle.ClosedIffCompleted`); the three callers create orders as
  `accepted` or `new` only.

## Model

| member | source | states |
|---|---|---|
| Stock.ReserveIngredients | api/routes/orders.py:86-123 | the nested loop leaves exactly the levels and verdict of meeting the order's needs one by one, and on success every level is lower by the grams times quantity of the order's dishes |
| Stock.DemandOfOrder | api/routes/orders.py:88-101 | for every recipe table, order and ingredient, what the loop asks is the sum of grams times quantity over the recipe rows and items of the same dish |
| Stock.FitsIffCovers | api/routes/orders.py:88-110 | fitting in aggregate means that every ingredient in a recipe of the order exists and covers that sum |
| Stock.AcceptedTakesDemand | api/routes/orders.py:100-123 | an accepted order takes exactly that sum from every level, and no more than is there |
| Stock.ReserveIsAggregate | api/routes/orders.py:100-110 | with non-negative grams the loop accepts exactly when every ingredient mentioned exists and its demand over the whole order fits its level |
| Stock.ReserveIsPrefixwise | api/routes/orders.py:100-110 | for any grams it accepts exactly when no prefix of the needs overruns a level |
| Stock.ReserveLowers | api/routes/orders.py:111-123 | on success every level has dropped by exactly the aggregate demand |
| Stock.ReserveIsPeaks | api/routes/orders.py:100-123 | for any grams the loop accepts exactly when every level reaches its ingredient's peak |
| Stock.PeakIsLargestPrefix | api/routes/orders.py:100-123 | a peak is the largest demand of the prefixes that end in a need of its ingredient |
| Stock.SameVerdictsIff | api/routes/orders.py:91-123 | any two lists of needs get the same verdict at all levels exactly when their peaks agree |
| Stock.OrderIrrelevantIff | api/routes/orders.py:91-101 | no order of the needs changes the verdict at any levels exactly when each ingredient's needs are all non-negative or all equal |
| Stock.RowOrderMatters | api/routes/orders.py:91-101 | with a negative recipe row the order in which the query returns two rows decides the verdict |
| Stock.SameFinalLevels | api/routes/orders.py:111-123 | for any grams, two orders of the same needs that are both accepted leave the same levels |
| Stock.ReserveOrderIndependent | api/routes/orders.py:91-101 | when each ingredient's needs are all non-negative or all equal, any permutation of the needs gives the same verdict and final levels |
| Stock.ItemOrderIrrelevant | api/routes/orders.py:86-90 | under the same condition on its needs, permuting the items of an order changes neither verdict nor final levels |
| Stock.RowAndItemOrderIrrelevant | api/routes/orders.py:86-101 | with no negative recipe row, neither the order of the items nor that of the rows the recipe query returns matters |
| Stock.AggregateIff | api/routes/orders.py:100-123 | for any grams: acceptance means fitting in aggregate at all levels, if and only if after every need the later ones ask on balance for nothing negative of its ingredient |
| Stock.AcceptedFits | api/routes/orders.py:100-123 | one half needs no condition: what the loop accepts always fits in aggregate |
| Stock.NegativeGramsBreakAggregate | api/routes/orders.py:101-110 | with a recipe of eight and minus four grams, one portion is refused at a level of five |
| Stock.StockIncoming | api/routes/ingredients.py:76-113 | an existing ingredient gains the quantity and a movement row is appended whatever the type; a missing one changes nothing |
| Stock.CreateIngredient | api/routes/ingredients.py:43-65 | a new ingredient appears at the given level and no other level changes |
| Checkout.CheckPrices | api/routes/orders.py:175-202 | finds the first item that is unknown or off the catalogue price with its known modifier options by more than a hundredth |
| Checkout.CreateOrder | api/routes/orders.py:126-314 | one transaction: the whole new state and result of the specification, every table restored on each refusal |
| Checkout.AcceptedIff | api/routes/orders.py:139-240 | when the recipes give nothing back, accepted exactly when the key is unknown, all prices and the minimum match, every ingredient covers its grams times quantity and the points are covered and at most half the total |
| Checkout.PlaceAnswers | api/routes/orders.py:139-240 | every checkout is answered by the first that applies of: its key's first order, its first pricing fault, the minimum, the stock, too few points, too large a discount |
| Checkout.ModifiersAdd | api/routes/orders.py:189-200 | without modifiers an item is expected at the menu's price; each further one adds its option's price if the catalogue knows it |
| Checkout.AcceptedIffPlainRecipes | api/routes/orders.py:139-240 | so for every order when no recipe row is negative |
| Checkout.NegativeRecipeRowRefused | api/routes/orders.py:100-110 | such an order, valid and correctly priced, is answered with the stock error although its aggregate demand fits |
| Checkout.AcceptedAmount | api/routes/orders.py:132-240 | the amount, before rounding to a column, is within a hundredth per unit of the catalogue total, positive, and at least half of it remains payable |
| Checkout.PlaceConserves | api/routes/orders.py:217-304 | stock falls by the grams times quantity of the dishes, the request's user by its points with one log row of as many less, and the added order carries the request's user, points, lines and total; any other outcome changes nothing |
| Checkout.PlaceKeepsNonNegative | api/routes/orders.py:217-285 | served one at a time, checkouts keep all levels and balances non-negative |
| Checkout.PlacedKeyNotRecognised | api/routes/orders.py:140-149 | after an accepted checkout with a key, looking the key up still finds nothing |
| Payments.PaymentWorker.ReadOrder | payments/worker.py:39-98 | the refusal, in the order of the source's checks, or a draft of the charge and receipt |
| Payments.PaymentWorker.StoreId | payments/worker.py:98-126 | the id on the draft's order, whatever its status by then, or a rollback |
| Payments.PaymentWorker.ProcessPayment | payments/worker.py:32-126 | the two in a row |
| Payments.UninterruptedCreate | payments/worker.py:32-126 | uninterrupted, a creation changes nothing but its order's id, and only when the checks pass and the provider answers |
| Payments.ChargeAnswers | payments/worker.py:49-68 | which row is refused for what, and that charge and points used make up the amount |
| Payments.ReceiptRepeatsLines | payments/worker.py:57-68 | one receipt line per order line with its name, quantity and price |
| Payments.PaymentWorker.HandleWebhook | payments/worker.py:128-218 | orders and balances after one delivery, and whether the handler raised |
| Payments.WebhookRaisesIff | payments/worker.py:191 | a delivery raises exactly when it cancels an order with null points, and then changes nothing |
| Payments.PaymentWorker.PollPaymentStatus | payments/worker.py:220-246 | with other handlers at work between the twelve polls, the first decisive reply ends the polling and adds exactly one delivery to what the others did; without one, only they changed anything |
| Payments.DecidesIff | payments/worker.py:225-243 | a reply ends the polling exactly when it reports success, or a cancellation that the handler can carry out |
| Payments.EndedAtSettles | payments/worker.py:225-243 | the order is then paid if that reply reported success, failed and cancelled if it reported cancellation |
| Payments.BalanceIsHistory | payments/worker.py:152-204 | over any run of deliveries and the reads and stores of interleaved payment creations a balance is its opening value plus 1% per `succeeded` not directly after another `succeeded` of the same order plus the refund per `canceled`, over all the user's orders |
| Payments.OrderAfterRun | payments/worker.py:152-216 | owner, amounts and lines never change, and an order is paid exactly when its last effective event was a success |
| Payments.LastEventSettles | payments/worker.py:157-216 | payment status and status of an order not paid at first follow its last event, and stay put before any |
| Payments.RepeatedSuccessAccruesOnce | payments/worker.py:152-204 | any number of `succeeded` deliveries to an unpaid order leaves the state of one: the owner has 1% more, nobody else anything |
| Payments.SuccessEarnsOnce | payments/worker.py:152-204 | in any run, an order not paid at first and never canceled earns exactly 1% once if it succeeds at all |
| Payments.AccrualsBounded | payments/worker.py:152-216 | in any run an order accrues at most once more than it is canceled, and not even that unless it ends paid |
| Payments.IdsStayUnique | payments/worker.py:100-113 | with fresh provider ids no two orders ever share a payment id, however reads, stores and deliveries interleave |
| Payments.IdChangedByPendingRead | payments/worker.py:41-113 | an id changes only by the store of a creation that read the payment as pending; it is still pending exactly when no event acted on the order in between |
| Payments.PaidOrderGetsNewId | payments/worker.py:41-113 | a run that pays an order under its first id and leaves it paid under a second, deaf to the first |
| Payments.ReplacedIdIsInert | payments/worker.py:136-150 | events that carry a replaced id change nothing, ever after |
| Payments.AcceptedOrderIsChargeable | payments/worker.py:52-68 | an accepted checkout with named lines, its amounts taken exactly, is never refused for its amount, and its receipt sums to the charge plus the points used |
| Payments.RoundedOrderIsChargeableIff | backend/orders/models.py:47-61 | with both columns rounded to kopecks it is refused for its amount exactly below half a kopeck, or below one and a half with half or more in points |
| Payments.OneKopeckOrderRefused | payments/worker.py:52-54 | a one-kopeck order paid half in points is accepted and then refused for its amount |
| Payments.StoredCheckoutOrderIsRefused | payments/worker.py:56-68 | as the checkout route stores it, the order is refused for its missing line names, or its null points |
| Transactions.NoBalanceOverdrawn | api/routes/orders.py:220-285 | under every interleaving of checkout, webhook and stock transactions no committed balance is negative |
| Transactions.OneWriterPerRow | api/routes/orders.py:111-123 | in every reachable state at most one open transaction has changes pending on a row |
| Transactions.LedgerBalances | api/routes/orders.py:100-285 | under every interleaving each balance and level is its opening or created value plus the effects of the committed transactions |
| Transactions.NoStockOverdrawn | api/routes/orders.py:102-123 | with checkouts one at a time and everything else interleaved at will no level is negative |
| Transactions.CommitOverdrawsIff | api/routes/orders.py:102-123 | in every reachable state a checkout's commit keeps a level non-negative exactly when the committed level covers its whole demand |
| Transactions.RunOverdrawsIff | api/routes/orders.py:102-123 | under every interleaving levels stay non-negative throughout a run exactly when every checkout found its demand covered at its commit |
| Transactions.InterleavedCheckoutsOverdraw | api/routes/orders.py:102-110 | a run of two interleaved checkouts that ends with a negative level |
| Transactions.ScriptNet | payments/worker.py:170-204 | the statements of each transaction add up to its declared effect on every row |
| Transactions.CheckPassed | api/routes/orders.py:221-240 | passing `FOR UPDATE` with enough points establishes that the held row covers the spend, with nothing pending on it |
| SoloCheckout.SoloIsPlace | api/routes/orders.py:137-304 | run alone, a checkout's statements commit exactly the levels, balances and order that the handler's specification computes, or change nothing |
| SoloCheckout.SoloIsWebhook | payments/worker.py:136-204 | run alone, a delivery's transaction leaves the balances of the webhook specification, with its lookup and duplicate guard |
| CircuitBreaker.CircuitBreaker.RecordFailure | ai/rag_engine.py:36-42 | counts, remembers the time and opens at the threshold |
| CircuitBreaker.CircuitBreaker.CanExecute | ai/rag_engine.py:44-55 | the answer and next state of the three-state machine |
| CircuitBreaker.AnswerIsHistory | ai/rag_engine.py:31-55 | with a clock that never goes back the answer is true exactly when the failures since the last success are none or below the threshold, or the timeout has passed since the last failure |
| ModelClient.Call | ai/rag_engine.py:96-181 | outcome, posts and breaker state of one call of `embed` or `generate` |
| ModelClient.ServeIsHistory | ai/rag_engine.py:96-181 | for any run of calls, answered ones included, the breaker is that of the history with a question per call, a success per answered and a failure per failed one |
| ModelClient.CallEndsAs | ai/rag_engine.py:96-181 | a call is refused exactly when at least the threshold of calls, and one, have failed since the last answered one and the timeout has not passed since the last of them; otherwise token and replies decide |
| ModelClient.CallLeaves | ai/rag_engine.py:117-130 | an answered call leaves the breaker closed without failures, a failed one adds a failure at its end, the others none |
| ModelClient.FirstReplyDecides | ai/rag_engine.py:104-130 | the first reply that is not a timeout decides; posts and seconds slept for each case |
| ModelClient.OutageCallsBounded | ai/rag_engine.py:31-55 | in an outage the failing calls that reach the network within t seconds of the first recorded failure number at most threshold + floor(t / timeout) |
| ModelClient.OutagePostsBounded | ai/rag_engine.py:96-181 | hence at most three times as many HTTP posts |
| RateLimiter.RateLimiter.IsAllowed | shared/rate_limiter.py:27-40 | the verdict and the user's new key, GET and write at different times; other users' keys untouched |
| RateLimiter.RateLimiter.Remaining | shared/rate_limiter.py:46-54 | the limit less the live count, never below zero |
| RateLimiter.RemainingIsExact | shared/rate_limiter.py:27-54 | of any number of requests made at that moment exactly the first that many are allowed |
| RateLimiter.WindowServesLimit | shared/rate_limiter.py:32-40 | of the requests of one window exactly the first `limit` are allowed, and the key still expires one window after it was begun |
| RateLimiter.NextWindowOpens | shared/rate_limiter.py:32-38 | whatever was refused in between, the first request at or after that expiry is allowed and begins a new window |
| RateLimiter.RefusedChangesNothing | shared/rate_limiter.py:36-38 | a refused request, one that finds a live key at the limit, leaves the key with its expiry |
| RateLimiter.AllowedIffRemaining | shared/rate_limiter.py:27-54 | the verdict is positive exactly when something remains, in all states, if and only if the limit is at least one |
| RateLimiter.LimitZeroAllows | shared/rate_limiter.py:27-54 | with a limit of zero the first request is allowed although nothing remains |
| RateLimiter.SlidingWindowBound | shared/rate_limiter.py:27-40 | any half-open interval of one window's length holds at most 2 * limit - 1 allowed requests of a user |
| RateLimiter.BoundIsReached | shared/rate_limiter.py:27-40 | for every limit and window some run reaches that bound exactly |
| RateLimiter.OneLifetime | shared/rate_limiter.py:36-40 | while a key lives only what its count leaves of the limit is allowed |
| RateLimiter.KeyLosesExpiryIff | shared/rate_limiter.py:32-40 | a key ends up without expiry exactly when it had none or expired between the GET and the INCR |
| RateLimiter.NeverExpires | shared/rate_limiter.py:36-40 | from then on only what its count leaves of the limit is allowed, for ever |
| RateLimiter.LateIncrementStarves | shared/rate_limiter.py:27-40 | at the default limit and window a run whose second request straddles the expiry gets six requests in all, however long it lasts |
| OrderLifecycle.Order.UpdateStatus | backend/orders/service.py:211-241 | accepted exactly when the table allows it; status, closing time, event and audit row after it |
| OrderLifecycle.AllowedIff | backend/orders/service.py:26-32 | one stage at a time, delivery may be skipped, cancellation of new and accepted orders, and nothing else |
| OrderLifecycle.LogIsEffectiveChanges | backend/orders/service.py:211-241 | every change the table allows is carried out and logged with its actor, no other is, and closing bears the completing change's time |
| OrderLifecycle.LogReplaysStatus | backend/orders/service.py:147-241 | in every run the event log is a chain of allowed steps from the creation status to the current one, the audit trail repeats it, and an order is closed exactly when it was completed by a change |
| OrderLifecycle.StatusesNeverRepeat | backend/orders/service.py:26-32 | no status repeats and there are at most five changes, fewer for later creation statuses |
| OrderLifecycle.ClosedIffCompleted | backend/orders/service.py:215-218 | an order not created completed is closed exactly while completed, and then never changes |
| OrderLifecycle.WorkflowOrder | backend/orders/service.py:26-32 | completion only after accepted, preparing and ready; cancellation only before preparation |
| OrderTotals.FoundAtMost | backend/orders/service.py:82-86 | comparing the number of rows found with the number of ids is equivalent to all ids being distinct and available |
| OrderTotals.BuildBasket | backend/orders/service.py:82-117 | accepted exactly then; one line per item in order with its id and quantity, the menu's name and price, and price times quantity as total; their sum over the request as subtotal; whole items give whole lines |
| OrderTotals.StoredTotalDrift | backend/orders/models.py:57-86 | the stored total differs from the sum of the n stored line totals by at most n / 2 whole kopecks, sharper than (n + 1) / 2 |
| OrderTotals.DriftIsReached | backend/orders/models.py:57-86 | for every n some n lines reach that difference |
| OrderTotals.WholeQuantitiesAreExact | backend/orders/models.py:84-86 | with whole quantities it differs by nothing |
| Slugs.SlugBodyIsNormal | apps/admin_api/routes/menu.py:24-28 | only allowed characters, no leading, trailing or doubled hyphen, and exactly the name's allowed characters in order |
| Slugs.SlugIsJoinedWords | apps/admin_api/routes/menu.py:24-28 | for every name the slug is the runs of allowed characters of its lower-casing, in order, joined by single hyphens |
| Slugs.SlugCharsAre | apps/admin_api/routes/menu.py:26 | the allowed characters are the digits and the letters of the two small alphabets |
| Slugs.SecondPassIsIdle | apps/admin_api/routes/menu.py:26-27 | the second substitution never changes the first one's result |
| Slugs.SlugifyIdempotent | apps/admin_api/routes/menu.py:24-28 | slugifying a slug that is not the fallback changes nothing |
| Slugs.FallbackIff | apps/admin_api/routes/menu.py:28 | the fallback is the slug exactly when the lower-cased name has no allowed character |
| Slugs.Menu.FreeSlug | apps/admin_api/routes/menu.py:82-87 | the loop ends after at most one candidate more than there are slugs, at the first free one |
| Slugs.Menu.CreateDish | apps/admin_api/routes/menu.py:57-107 | the first failed check in the source's order, or the chosen slug added to the menu unless the column is too short for it |
| Slugs.ProblemIs | apps/admin_api/routes/menu.py:57-66 | which request fails which check |
| Slugs.DecimalReadsBack | apps/admin_api/routes/menu.py:87 | reading a printed suffix back gives the number |
| Slugs.SuffixesCountFromTwo | apps/admin_api/routes/menu.py:82-87 | three dishes of one name get the base, suffix 2 and suffix 3 |
| Slugs.SlugRefusedIff | apps/admin_api/routes/menu.py:82-107 | for every menu and base, the column refuses the slug exactly when the base is longer than 255 or every candidate with room is taken |
| Slugs.FullLengthBaseRefusedIff | backend/menu/models.py:49 | of a base of 254 or 255 characters: exactly when it is taken |
| Slugs.ShortBaseAccepted | backend/menu/models.py:49 | a base with room for a hyphen and k digits is accepted by every menu of fewer than 10^k - 1 dishes |
| Slugs.RepeatedLongNameRefused | apps/admin_api/routes/menu.py:82-107 | the second dish of a name of 255 letters is refused |
| Slugs.OverlongSlugRefused | apps/admin_api/routes/menu.py:24-28 | a name of 255 characters whose lower-casing doubles it has a slug of 509 and is refused by an empty menu |
| Slugs.ChosenSlugIsFirstFree | apps/admin_api/routes/menu.py:82-87 | for every menu and name the chosen slug is free, is among the first n + 1 candidates of a menu of n slugs, and every candidate before it is taken |
| Slugs.TakenCandidatesBounded | apps/admin_api/routes/menu.py:84-87 | candidates are pairwise distinct, so no more can be taken than there are slugs |
| Slugs.SlugsStayUnique | apps/admin_api/routes/menu.py:82-107 | slugs stay unique over any run of dish creations, and every creation not refused for its length adds one |
| Bookings.ReservationBook.CreateReservation | api/routes/bookings.py:22-61 | the table after the scan and the insert, or the refusal; a missing or overlong column, or an unknown table, is rejected after the scan |
| Bookings.AcceptedIsStored | api/routes/bookings.py:42-60 | an accepted request adds one row with its table, times and guest, and takes exactly the instants it asked for; any other changes nothing |
| Bookings.RejectedIff | migrations/versions/002_add_bookings.py:30-42 | a request whose time is free is rejected exactly for a missing or overlong field or an unknown table |
| Bookings.StatusDecides | api/routes/bookings.py:29-30 | a row that overlaps a request stands in its way exactly when pending or confirmed |
| Bookings.AcceptedRequestsDisjoint | api/routes/bookings.py:24-59 | no two accepted requests of a run ask for the same instant of the same table |
| Bookings.RefusedIffMeets | api/routes/bookings.py:24-39 | for any table and request, refusal as taken means meeting an active reservation exactly when, if the check finds rows, one of them and the request are proper intervals |
| Bookings.RequestAnsweredRightlyIff | api/routes/bookings.py:27-39 | every table of proper reservations answers a request rightly exactly when its start is before its end |
| Bookings.TableAnswersRightlyIff | api/routes/bookings.py:27-39 | a table answers every proper request rightly exactly when each active reversed or empty row is hidden by a proper active one of its table |
| Bookings.RunKeepsProperIff | migrations/versions/002_add_bookings.py:30-42 | no constraint keeps reversed rows out: over a run the table stays proper exactly when every accepted request was |
| Bookings.BookingsStayDisjoint | api/routes/bookings.py:24-59 | accepted one at a time, active intervals of each table stay pairwise disjoint, whatever is requested |
| Bookings.BookedTimeFits | api/routes/bookings.py:24-59 | the time booked for a table inside [a, b) never exceeds b - a |
| Bookings.EmptyIntervalIsRefused | api/routes/bookings.py:27-39 | an empty interval inside a reservation is refused although it meets nothing |
| Bookings.ReversedIntervalBlocks | api/routes/bookings.py:27-59 | a reversed interval is stored and then refuses a proper request that meets nothing |
| Dashboard.RangesAdd | apps/admin_api/routes/dashboard.py:40-53 | revenue and order count are additive over adjacent half-open ranges |
| Dashboard.QueryTotals | apps/admin_api/routes/dashboard.py:40-53 | revenue, count and average are those of the orders paid in the range, each by its total, else its amount, else nothing |
| Dashboard.QueryTop | apps/admin_api/routes/dashboard.py:54-80 | each listed dish carries what its items in those orders sold for, and a dish sold but not listed is outranked by five that are |
| Dashboard.GroupsAreDishes | apps/admin_api/routes/dashboard.py:54-64 | one group for every dish sold, with exactly that dish's revenue and quantity |
| Dashboard.GroupingKeepsRevenue | apps/admin_api/routes/dashboard.py:54-64 | the groups' revenue is the items' revenue |
| Dashboard.TopFiveIsBest | apps/admin_api/routes/dashboard.py:60-80 | up to five existing dishes in rank order, and no omitted dish outranks a listed one |
| Dashboard.SummaryService.GetSummary | apps/admin_api/routes/dashboard.py:28-95 | the cached or computed summary and the cache after it, GET and SETEX at different times |
| Dashboard.UninterruptedRead | apps/admin_api/routes/dashboard.py:28-88 | the interleaved steps of a read that nothing interrupts do what the handler does |
| Dashboard.AnswerIsRecent | apps/admin_api/routes/dashboard.py:28-88 | in every run of changes and interleaved reads each answer is its key's true result at the query of a read whose write came less than thirty seconds earlier, so its age is below thirty seconds plus that read's latency |
| Dashboard.LateAnswerIsOld | apps/admin_api/routes/dashboard.py:85-88 | for every latency and every age below thirty seconds plus it, a run with an answer at least that old |
| Dashboard.AgeBoundIff | apps/admin_api/routes/dashboard.py:85-88 | with writes at most `latency` after their query, an age bounds all answers of all runs if and only if it is at least thirty seconds plus `latency` |

## Left out

- HTTP routing, authentication, middleware, Telegram handlers, metrics, logging, object storage and published order events: plumbing around the modelled state.
- SQL text building: each statement has its intended effect. The description `'Order #{4}'` at api/routes/orders.py:294 would fail to format as text; the model takes it as a description.
- Binary floating-point error and the two-decimal formatting of charges and receipt lines: amounts are exact reals there; rounding on storage is modelled for admin and widget orders.
- Redis failures: the fail-open branches of the limiter and cache errors. A non-positive window, which Redis rejects, is excluded for the same reason.
- Transactions.NoBalanceOverdrawn: a webhook transaction may concern any committed order, so lookup by payment id and the duplicate guard are not in the interleaved model; they only remove behaviours, and the exact accrual count is stated for deliveries served one at a time.
- Transactions.LedgerBalances: the users table is fixed during a run, since no modelled route adds users.
- Payments.PaymentWorker.HandleWebhook: a delivery is one step there; two deliveries interleaved statement by statement are in Transactions only, without the guard. A creation's read and store are separate steps.
- Checkout.AcceptedAmount: amounts and points are exact; what rounding to two decimals changes is stated for the charge in Payments.RoundedOrderIsChargeableIff.
- RateLimiter.SlidingWindowBound: requests of one user are served one at a time; two concurrent GETs can both read the same count.
- Bookings.BookingsStayDisjoint: bookings are served one at a time; the check takes no lock. Changes of a reservation's status by other means are not modelled.
- ModelClient.Call: cancellation during a post, which records no outcome, is not modelled; the bearer token is only had or not had.
- Dashboard.TopFiveIsBest: the query leaves ties in any order; the model puts the dish it met first in front.
- Slugs.SlugifyIdempotent: lower-casing is a parameter that leaves slug characters alone, as Unicode lower-casing does.
- Dashboard.AnswerIsRecent: the query itself sees one state of the tables; its own running time is part of the latency after it.
- The migration names the recipe table `recipe`, the checkout route reads `recipes`; the model takes them for the same table.
- The default date range of the dashboard route, and the JSON round trip of a cached summary.
- Photo upload, tags and the other dish fields that do not bear on slugs.
- Order numbers, guest sessions, onboarding steps and the recommendation query.
