# SmartLight: stock, carts, sign-in and reports, verified

A Dafny 4.11 model of the core of the SmartLight shop, with proofs of what its services promise. `dafny verify
dfyconfig.toml` covers the whole project.

## What is modelled

**Stock, checkout and carts as one shop.** `Checkout` moves stock between `available` and `reserved` under the session
states CREATED, RESERVED, EXPIRED, CANCELLED and COMPLETED; `Carts`, `CartMerge` and `CartOps` hold the cart with its
soft-deleted rows and cached totals; `ShopSteps` puts every cart and checkout call, placing an order and the
warehouse adjustment into one state machine. `ShopInvariant`, `ShopRuns` and `ShopLaws` prove what every step keeps and
what whole runs promise; `ShopWitness` is a run that ends oversold. `Interleaving` takes the reserve and release
transactions apart into single UPDATE statements and shows that every interleaving is serial; `InterleavingProgress`
says what each statement does and that a transaction left alone runs to its end; `InterleavedShop` that the sessions of
any shop in order that is not oversold are such transactions, and that alone they are the shop's own calls.
`CartAnswers` says which exception each cart call throws, what it stores and how the money moves. `CartServices` and
`CheckoutServices` are the two services as classes over the tables of `Databases`: loops, updates in place and rollback,
each method proved equal to the specification the laws are about.

**Sign-in.** `Auth` is the table of sessions and the table of refresh tokens, one step per call; `AuthRuns` proves the
cap, rotation, revocation and the theft rule over whole runs; in these calls do not overlap.
The service opens no transaction, so `AuthInFlight` and `RefreshInFlight` take sign-in and refresh apart and let them
interleave statement by statement: how far the cap is exceeded, when a token outlives its session, how often a token is
exchanged and what survives a replay, each exactly.
`AuthServices` is the service as a class. `Lockout` follows the failed-password columns over any history.

**Clients.** `SingleFlight` is the storefront's shared token refresh, event by event, and `SingleFlightHistory` relates
it to the replies; `Csv` the spreadsheet exports with an RFC 4180 reader; `Reports` paged fetching and the day buckets;
`Pagination` the page-number strip.

Money is an integer number of ten-thousandths. Times are integers in milliseconds. A row's id is its position in its
table, so rows in a table are ordered by creation. A transaction that throws leaves the tables it started from.

## Where the code and its documentation part

The model follows the code.

- The repository's comment on soft-deleted cart rows asks for them to be revived instead of failing on the unique key;
  adding does so, but merging inserts plainly: the unique key rejects the insert and the whole merge rolls back
  (`CartMerge.TombstoneSplitsAddAndMerge`). The closed form holds exactly when no admitted variant has such a row.
- Merging looks only at the variant's soft-delete flag and stock, not at product or variant status; such a line is taken
  in and then blocks checkout (`CartMergeLaws.UnpublishedSlipsIn`, `CartMergeLaws.UnsellableLineBlocksCheckout`).
- CANCELLED and COMPLETED are not terminal: cancelling has no status guard, and expiring looks at the status outside its
  transaction (`ShopLaws.CompletedSurvivesIff`, `ShopWitness.CompletedIsOverwritten`). No stock moves twice all the same.
- A warehouse adjustment guards `onHand` alone and can make `available` negative (`ShopRuns.NeverOversoldIff`,
  `ShopWitness.WriteOffOversells`). The database documentation (`docs/06-database-schema/05_CONSTRAINTS_AND_RULES.md:107`)
  names a check constraint `available >= 0` that a migration would add; neither the schema nor the SQL triggers contain
  it, and the model has none.
- The theft rule on refresh tokens ends a customer's sessions but not an administrator's
  (`AuthRuns.TheftRuleReachesIff`, `AuthRuns.AdminOutlivesReplay`).
- A refresh revokes its token by id, without asking whether it is still unrevoked: overlapping refreshes of one token
  all succeed, and one that was past its read survives a replay (`RefreshInFlight.ExchangedOnceIff`,
  `RefreshInFlight.StragglerIsReached`).
- A session row and its token's row are written one after the other: a session closed in between leaves a token that no
  bulk revocation finds and that still refreshes (`AuthInFlight.OrphanIsReached`, `RefreshInFlight.ReplayIsFinalIff`).
- Revoking a single session does not ask whose it is (`AuthRuns.StrangerRevokes`).
- The session cap is enforced outside a transaction (`AuthInFlight.CapSurvivesIff`,
  `AuthInFlight.OvershootIsReached`).
- The lockout constants declare a counting window of 15 minutes that no code uses: wrong passwords count until the next
  admission, and a lock that has passed is renewed by a single wrong password.
- The tab-separated export escapes for commas (`Csv.XlsxRoundTripIff`); an export without rows reads back one phantom
  record to a reader for which a line break stands between records (`Csv.PhantomRecord`). To one that follows rule 2 of
  RFC 4180 as well, a blank last line is lost instead (`Csv.ClosedCsvRoundTripIff`).

## Model

| member | source | states |
|---|---|---|
| ShopInvariant.RunKeepsOrder | smartlight/apps/api/src/modules/checkout/service.ts:78-507 | After any sequence of cart, create, address, reserve, cancel, expire, order and stock-adjustment steps: available + reserved = onHand for every variant, reserved is exactly the sum over all sessions that still hold stock, status and reservation move in lockstep, every session total is the sum of its lines, and every cart is in order. |
| ShopInvariant.NextKeepsOrder | smartlight/apps/api/src/modules/checkout/service.ts:283-507 | One step, whichever it is and whether it succeeds or throws, keeps all of that. |
| ShopInvariant.InitialIsOk | smartlight/apps/api/prisma/seed.ts:827-838 | Freshly seeded stock with no carts and no sessions satisfies the invariant, so it holds in every reachable state. |
| ShopSteps.ClampsNeverBite | smartlight/apps/api/src/modules/checkout/service.ts:426-436 | The LEAST and GREATEST of the release loops never change a value: releasing an active reservation gives back exactly what reserving it took. |
| ShopRuns.NeverOversoldIff | smartlight/apps/api/src/modules/inventory/repositories/inventory.repository.ts:251-283 | A step makes available negative for some variant if and only if it is a warehouse adjustment that passes its on-hand guard but takes away stock already reserved. |
| ShopRuns.RunNeverOversells | smartlight/apps/api/src/modules/checkout/service.ts:327-347 | Over every run without such an adjustment available stays non-negative and what the sessions hold never exceeds what is on hand. |
| ShopLaws.OnHandIsDelivered | smartlight/apps/api/src/modules/inventory/repositories/inventory.repository.ts:251-283 | Over every run the stock on hand of each variant is what it was plus every adjustment that does not go below zero; no cart or checkout step changes it. |
| ShopWitness.CanDigIff | smartlight/apps/api/src/modules/inventory/repositories/inventory.repository.ts:251-283 | In a shop in order that is not oversold, some adjustment of a variant makes its available negative if and only if some of it is reserved. |
| ShopWitness.WriteOffOversells | smartlight/apps/api/src/modules/inventory/repositories/inventory.repository.ts:251-283 | A run from fresh stock: put all of it in a cart, check out, reserve, write one unit off. The write-off is accepted and leaves available at -1. |
| ShopRuns.LeavesActiveOnce | smartlight/apps/api/src/modules/checkout/service.ts:426-507 | Under any order and repetition of cancel and expire, including an expire that looked at the session before another transaction committed, a reservation stops being active at most once, and exactly when it was not over before and is over after. |
| ShopRuns.LedgerIsHeld | smartlight/apps/api/src/modules/checkout/service.ts:283-507 | Over every run, what the steps of one session moved into reserved equals the change in what that session holds, and available moved by the opposite amount; so a released session contributes zero net, whatever others did in between. |
| ShopRuns.StepFlowIsHeld | smartlight/apps/api/src/modules/checkout/service.ts:327-436 | One step moves stock only for its own session, and by what that session holds more or less afterwards. |
| ShopRuns.RunKeepsSnapshots | smartlight/apps/api/src/modules/checkout/service.ts:182-221 | No later cart or checkout step changes the items, totals, owner, expiry, key or reserved lines of an existing session. |
| CheckoutLaws.ReserveLinesLaw | smartlight/apps/api/src/modules/checkout/service.ts:312-363 | The reserve loop, which checks each line against the stock read at entry and then updates under a guard, succeeds if and only if every line can be sold and the demand summed over all lines, duplicates included, is at most what was available at entry; it then moves exactly that demand. |
| CheckoutLaws.ReserveIgnoresOrder | smartlight/apps/api/src/modules/checkout/service.ts:315-363 | Neither success nor the stock afterwards depends on the order of the lines. |
| ShopLaws.ReserveSucceedsIff | smartlight/apps/api/src/modules/checkout/service.ts:283-404 | reserveInventory succeeds exactly for the owner of an unexpired CREATED session whose lines can all be sold and are covered; its whole effect on success, and no effect at all on failure. |
| ShopLaws.ReserveRefusedWith | smartlight/apps/api/src/modules/checkout/service.ts:302-361 | Which exception a refused reserve throws: unknown or foreign session, expired, not CREATED, or the first line that fails, with the variant, and for short stock the quantity asked and what is left after the lines before it. |
| ShopLaws.CancelUndoesReserve | smartlight/apps/api/src/modules/checkout/service.ts:410-457 | Cancelling right after reserving puts every stock level back. |
| ShopLaws.CancelLaw | smartlight/apps/api/src/modules/checkout/service.ts:410-457 | Cancelling succeeds exactly for the owner of an existing session, from every status. The session is then CANCELLED, an ACTIVE reservation is RELEASED and its demand back in stock, any other reservation and every other session, cart and sweep is as before; refused, it changes nothing. |
| ShopLaws.SweepTakesUpIff | smartlight/apps/api/src/modules/checkout/service.ts:463-466 | A sweeper goes on to its transaction exactly for sessions in CREATED, RESERVED or CANCELLED; its look changes no table. |
| ShopLaws.ExpireLaw | smartlight/apps/api/src/modules/checkout/service.ts:468-505 | The transaction of a sweeper that looked makes the session EXPIRED, whatever it has become, an ACTIVE reservation EXPIRED too and its demand back in stock, and changes nothing more; without a look nothing happens. |
| ShopLaws.PlaceOrderLaw | smartlight/apps/api/src/modules/orders/service.ts:143-253 | An order is placed exactly by the owner on a RESERVED session with items: the session becomes COMPLETED, its reservation CONFIRMED with the same lines, and no stock moves. |
| ShopLaws.UpdateAddressLaw | smartlight/apps/api/src/modules/checkout/service.ts:246-271 | Which answer a new address gets: unknown or foreign session, completed, expired, cancelled or bad phone, and only when none applies it is stored; nothing else changes either way. |
| ShopLaws.ShipsToLastAccepted | smartlight/apps/api/src/modules/checkout/service.ts:246-271 | Over every run of the shop a session's address is the last one accepted for it, whatever else happened to it. |
| ShopLaws.PhoneIsChecked | smartlight/apps/api/src/modules/checkout/constants/checkout.constants.ts:14 | A phone number is accepted exactly when it is a zero followed by nine or ten digits. |
| ShopLaws.ClosingTwiceReleasesOnce | smartlight/apps/api/src/modules/checkout/service.ts:426-453 | Closing a session a second time, by cancel or by expire, moves no stock and leaves the reservation as it ended. |
| ShopLaws.CompletedSurvivesIff | smartlight/apps/api/src/modules/checkout/service.ts:464-505 | COMPLETED is not terminal: it is lost exactly when the owner cancels, or when a sweeper that looked earlier commits; neither touches the confirmed reservation or the stock. |
| ShopWitness.CompletedIsOverwritten | smartlight/apps/api/src/modules/checkout/service.ts:463-505 | From fresh stock: reserve, let a sweeper look, place the order. The session is COMPLETED, and the sweeper's transaction makes it EXPIRED or its owner CANCELLED, without moving stock. |
| ShopLaws.CreateSucceedsIff | smartlight/apps/api/src/modules/checkout/service.ts:91-221 | A session is made exactly when a cart exists, something in it is selected, all of that can be sold and is in stock, and the idempotency key is unused; a refusal changes nothing. |
| ShopLaws.CreateRefusedWith | smartlight/apps/api/src/modules/checkout/service.ts:91-180 | Which exception a refused create throws: no cart, nothing selected, the first selected line with anything wrong and what is wrong with it, or a key that is already taken. |
| ShopLaws.CreateMakes | smartlight/apps/api/src/modules/checkout/service.ts:182-221 | A create that is no replay adds one session: the caller's, CREATED, expiring fifteen minutes from now, without address or reservation, with one item for each selected live row at the row's own price. |
| ShopLaws.ReplayIsOwnIff | smartlight/apps/api/src/modules/checkout/service.ts:82-90 | A create is answered with an existing session exactly when that one is the first made with the given non-empty key and belongs to the caller; nothing changes then. |
| ShopLaws.CreateIsIdempotent | smartlight/apps/api/src/modules/checkout/service.ts:82-90 | The same user asking again with the same non-empty key gets the first session back and makes no other. |
| ShopLaws.TotalsOutliveTheCart | smartlight/apps/api/src/modules/checkout/service.ts:182-221 | A new session totals the sum of its line snapshots, which is the sum of the subtotals stored for the selected live cart items, and stays so through every later run. |
| Stock.ReleaseAllIsReturned | smartlight/apps/api/src/modules/checkout/service.ts:426-436 | When each variant has at least the released amount reserved, the clamped loop equals plain addition and subtraction of the summed demand. |
| Stock.ReleaseUndoesTake | smartlight/apps/api/src/modules/checkout/service.ts:338-436 | Releasing the lines just taken restores the inventory exactly. |
| Interleaving.RunIsSafe | smartlight/apps/api/src/modules/checkout/service.ts:315-364 | Any number of reserve and release transactions of distinct sessions, interleaved one guarded UPDATE at a time, with stale reads and each undoing its own takes on failure: available never drops below zero and reserved always equals committed reservations plus in-flight takes. |
| Interleaving.StepIsSafe | smartlight/apps/api/src/modules/checkout/service.ts:338-347 | Every single interleaved update keeps that. |
| Interleaving.GiveBackIsPlain | smartlight/apps/api/src/modules/checkout/service.ts:428-435 | The clamps of a release do not bite even between the updates of other transactions. |
| Interleaving.CommitIsAtomicReserve | smartlight/apps/api/src/modules/checkout/service.ts:287-393 | Seen from outside, committing an interleaved reserve is one atomic run of the reserve loop on the stock visible at that moment. |
| Interleaving.ReleaseIsAtomic | smartlight/apps/api/src/modules/checkout/service.ts:426-436 | Seen from outside, starting to release is one atomic clamped release. |
| Interleaving.InterleavingIsSerial | smartlight/apps/api/src/modules/checkout/service.ts:287-453 | Every interleaving is equivalent to executing the completed transactions one after the other in the order of completion, each of which succeeds. |
| Interleaving.SeenAtRest | smartlight/apps/api/src/modules/checkout/service.ts:338-347 | Once no transaction is under way, the visible stock is the table itself. |
| InterleavingProgress.TakeTakesOrTurnsBack | smartlight/apps/api/src/modules/checkout/service.ts:315-361 | One turn of an interleaved reserve loop moves exactly its line from available to reserved and goes on to the next, if the variant can be sold, the stock read at the beginning covers it and so does the stock now; otherwise it moves nothing and the transaction turns back. |
| InterleavingProgress.UndoPutsBack | smartlight/apps/api/src/modules/checkout/service.ts:287-361 | One step of a rollback puts back the last line taken, without a clamp; after the first line the transaction has failed. |
| InterleavingProgress.LeftAloneCommitsIff | smartlight/apps/api/src/modules/checkout/service.ts:287-393 | A reserve that nothing comes between reads, takes each of its lines and commits if and only if every line can be sold and the demand of all lines together is covered; it has then moved exactly that demand and touched no other transaction. |
| InterleavingProgress.LeftAloneFailsClean | smartlight/apps/api/src/modules/checkout/service.ts:287-361 | When it cannot commit, it ends failed after its rollback, with every stock level as it was. |
| InterleavingProgress.LeftAloneReleases | smartlight/apps/api/src/modules/checkout/service.ts:426-436 | A release that nothing comes between gives back exactly the demand of its lines and ends. |
| InterleavedShop.ShopIsSafe | smartlight/apps/api/src/modules/checkout/service.ts:315-364 | The sessions of every shop in order that is not oversold, taken as transactions, satisfy the interleaving invariant. |
| InterleavedShop.ShopInterleavesSafely | smartlight/apps/api/src/modules/checkout/service.ts:283-453 | From every shop in order that is not oversold, however the reserves and releases of its sessions interleave, nothing becomes oversold and the outcome is that of a serial execution on the shop's own stock. |
| InterleavedShop.LoneReserveIsReserve | smartlight/apps/api/src/modules/checkout/service.ts:283-404 | The statements of a reserve with nothing in between are the reserve of the shop in one step: they commit exactly when it succeeds, and then leave the world of the shop it leaves. |
| InterleavedShop.LoneReleaseIsCancel | smartlight/apps/api/src/modules/checkout/service.ts:410-457 | The statements of a release with nothing in between are the cancel of a reserved session in one step. |
| CheckoutServices.CheckoutService.CreateCheckout | smartlight/apps/api/src/modules/checkout/service.ts:78-228 | The method, with its validation and subtotal loops, leaves exactly the tables and the answer of the specification. |
| CheckoutServices.CheckoutService.Validate | smartlight/apps/api/src/modules/checkout/service.ts:122-180 | The validation loop reports the first selected line that cannot be checked out, or none, with the ids and reasons of the exceptions. |
| CheckoutServices.CheckoutService.UpdateShippingAddress | smartlight/apps/api/src/modules/checkout/service.ts:246-271 | The method matches its specification, error order included. |
| CheckoutServices.CheckoutService.TakeLines | smartlight/apps/api/src/modules/checkout/service.ts:315-364 | On success the loop of guarded updates leaves exactly the specified inventory; when a line fails it stops with the specified exception, and undoing the earlier updates is left to the transaction around it. |
| CheckoutServices.CheckoutService.ReserveInventory | smartlight/apps/api/src/modules/checkout/service.ts:283-404 | The method leaves exactly the specified tables and answer; when a line fails, every earlier update is rolled back. |
| CheckoutServices.CheckoutService.ReleaseLines | smartlight/apps/api/src/modules/checkout/service.ts:427-436 | The loop of clamped updates in place equals releasing all lines. |
| CheckoutServices.CheckoutService.CancelCheckout | smartlight/apps/api/src/modules/checkout/service.ts:410-457 | The method matches its specification. |
| CheckoutServices.CheckoutService.ExpireCheckout | smartlight/apps/api/src/modules/checkout/service.ts:463-507 | Look and transaction with nothing in between leave what the two steps leave. |
| CheckoutServices.CheckoutService.LookToExpire | smartlight/apps/api/src/modules/checkout/service.ts:463-466 | The look outside the transaction decides by the status it finds and changes nothing but the list of pending sweeps. |
| CheckoutServices.CheckoutService.CommitExpiry | smartlight/apps/api/src/modules/checkout/service.ts:468-505 | The transaction releases an active reservation and expires the session whatever it has become since the look. |
| CartOps.ApplyKeepsOrder | smartlight/apps/api/src/modules/cart/service.ts:72-481 | After any cart operation, successful or refused, every live item has subtotal = unitPrice x quantity with 1 <= quantity <= 999, at most one row per variant, at most 100 live items, and the four cached totals equal their recomputation. |
| CartLaws.AddItemSucceedsIff | smartlight/apps/api/src/modules/cart/service.ts:80-139 | Adding succeeds exactly when the quantity is in bounds, the variant can be sold, a slot is free or already taken by it, and stock covers old and new quantity together; a refusal leaves the cart as it was. |
| CartAnswers.UnsellableLaw | smartlight/apps/api/src/modules/cart/service.ts:95-107 | Which exception the catalog calls for: unknown or deleted variant or product, product not published, variant not active, in this order; none exactly when the variant can be sold. |
| CartAnswers.AddItemLaw | smartlight/apps/api/src/modules/cart/service.ts:80-169 | Which exception adding throws, in the order of the checks, and on success the line it leaves: the catalog's price, held and asked quantity together and their product, selected unless the caller says no, the stock as seen; refused, the cart is unchanged. |
| CartLaws.AddItemEffect | smartlight/apps/api/src/modules/cart/service.ts:143-169 | A successful add changes the line of that variant alone, to the summed quantity at the current price. |
| CartLaws.AddKeepsOrder | smartlight/apps/api/src/modules/cart/repositories/cart.repository.ts:170-244 | Adding, reviving a soft-deleted row included, keeps the cart in order. |
| CartLaws.UpdateItemEffect | smartlight/apps/api/src/modules/cart/service.ts:221-239 | A successful update replaces quantity, subtotal, selection and stock of that line alone, at the price it was added for. |
| CartAnswers.UpdateItemLaw | smartlight/apps/api/src/modules/cart/service.ts:179-231 | Updating succeeds exactly when the quantity is between 1 and 999, the item is live, its variant can be sold and the stock covers the quantity; which exception it throws otherwise; and the one row it writes, at the row's own price. |
| CartAnswers.AddMovesSubtotal | smartlight/apps/api/src/modules/cart/service.ts:157-169 | A successful add moves the cart's subtotal by the new line's subtotal less the old one's. |
| CartAnswers.UpdateMovesSubtotal | smartlight/apps/api/src/modules/cart/service.ts:221-239 | A successful update moves it by the price times the change in quantity. |
| CartAnswers.RemoveMovesSubtotal | smartlight/apps/api/src/modules/cart/service.ts:249-267 | A removal takes the removed line's subtotal off it. |
| CartAnswers.OnlyClearTouchesCharges | smartlight/apps/api/src/modules/cart/service.ts:600-653 | No cart call changes owner, discount, tax or shipping, except that clearing sets every total and count to zero. |
| CartAnswers.CartExistsIff | smartlight/apps/api/src/modules/cart/service.ts:72-92 | A user has an active cart after a call exactly when there was one and it was not deleted, or the call opens one: asking for the cart, or adding a quantity that is in bounds. |
| CartAnswers.CallLaw | smartlight/apps/api/src/modules/cart/service.ts:244-468 | The rows every call leaves: removal, bulk removal and clearing only set the soft-delete flag of the rows meant, selecting only the selection flag of live rows, merging leaves the merged rows or, when it throws, the old ones. |
| ShopLaws.CartCallIsOwn | smartlight/apps/api/src/modules/cart/service.ts:72-481 | A cart call reaches the caller's own cart and nothing else in the shop. |
| CartLaws.RemoveItemLaw | smartlight/apps/api/src/modules/cart/service.ts:249-267 | Removal succeeds exactly for a live item and takes away that line alone. |
| CartLaws.BulkRemoveLaw | smartlight/apps/api/src/modules/cart/service.ts:277-296 | Bulk removal takes away exactly the listed lines. |
| CartLaws.ClearLaw | smartlight/apps/api/src/modules/cart/service.ts:305-325 | Clearing leaves no line, and zero totals that agree with that. |
| CartLaws.SelectLaw | smartlight/apps/api/src/modules/cart/service.ts:334-355 | Selecting sets the flag of exactly the listed lines, or of all when the list is absent or empty. |
| CartLaws.LiveVariantsAreCounted | smartlight/apps/api/src/modules/cart/service.ts:600-613 | Because variants are distinct, the cached item count is the number of different variants in the cart. |
| CartMerge.MergeClosedForm | smartlight/apps/api/src/modules/cart/service.ts:373-453 | The loop of saturating additions succeeds if and only if every quantity is in bounds and no admitted variant has a soft-deleted row, and then equals its closed form: rows, skipped, keptSeparate, and the three counters summing to the number of lines. |
| CartMerge.NewcomersLaw | smartlight/apps/api/src/modules/cart/service.ts:384-402 | Newcomers are exactly the purchasable variants named by some line and not yet in the cart, each once. |
| CartMerge.QuantityAfterMerge | smartlight/apps/api/src/modules/cart/service.ts:394-430 | With slots for all newcomers, each purchasable named variant ends with one clamp of old quantity plus everything asked; every other variant keeps its quantity. |
| CartMerge.MergeIgnoresOrder | smartlight/apps/api/src/modules/cart/service.ts:373-453 | When slots suffice, neither success nor any quantity depends on the order of the lines. |
| CartMerge.AdmissionIsSettled | smartlight/apps/api/src/modules/cart/service.ts:417-424 | One more line admits or turns away no variant that an earlier line named. |
| CartMerge.LaterLinesChangeNoAdmission | smartlight/apps/api/src/modules/cart/service.ts:417-424 | However many lines follow, whether a line's variant is admitted is decided by the lines up to it. |
| CartMerge.MergedRowsAreOk | smartlight/apps/api/src/modules/cart/service.ts:373-468 | Every merge that succeeds leaves the cart in order. |
| CartMergeLaws.MergeKeepsPrices | smartlight/apps/api/src/modules/cart/service.ts:394-415 | After a merge every old row keeps its place, variant and unit price. If its variant exists, is in stock and is named, the quantity is one clamp of held plus asked to stock and 999, the subtotal the price times that, the selection the last one asked for; otherwise the row is untouched. |
| CartMergeLaws.MergeTakesInAtCatalogPrice | smartlight/apps/api/src/modules/cart/service.ts:416-451 | Every new row is of a named variant that exists, is in stock and had no live line, at the catalog's price, with the clamped sum of what was asked and the product as subtotal. |
| CartMergeLaws.MergeFillsTheCart | smartlight/apps/api/src/modules/cart/service.ts:417-423 | Every such variant has a line afterwards unless the cart is full, and a merge never takes a cart beyond 100 live items. |
| CartMerge.TombstoneSplitsAddAndMerge | smartlight/apps/api/prisma/schema.prisma:730 | Where the row of a variant is soft-deleted, adding it revives the row but merging it violates the unique key and undoes the whole merge. |
| CartMergeLaws.MergedIsRefusedIff | smartlight/apps/api/src/modules/cart/service.ts:394-402 | A variant that a merge takes in is one that adding would refuse for what the catalog says of it if and only if its product is missing, deleted or unpublished or the variant inactive. |
| CartMergeLaws.UnpublishedSlipsIn | smartlight/apps/api/src/modules/cart/service.ts:582-590 | For instance any unpublished product with stock, merged into a cart without rows: taken in and selected, where adding it is refused. |
| CartMergeLaws.UnsellableLineBlocksCheckout | smartlight/apps/api/src/modules/checkout/service.ts:138-160 | Checkout then refuses the cart as long as such a line is selected. |
| CartServices.CartService.RecomputeTotals | smartlight/apps/api/src/modules/cart/service.ts:600-653 | The recomputation loop yields exactly the specified totals. |
| CartServices.CartService.AddItem | smartlight/apps/api/src/modules/cart/service.ts:80-172 | The method leaves exactly the specified cart table and exception; the cart is opened even when the item is then refused. |
| CartServices.CartService.UpdateItem | smartlight/apps/api/src/modules/cart/service.ts:179-242 | The method matches its specification. |
| CartServices.CartService.RemoveItem | smartlight/apps/api/src/modules/cart/service.ts:249-270 | The method matches its specification. |
| CartServices.CartService.BulkRemoveItems | smartlight/apps/api/src/modules/cart/service.ts:277-299 | The method matches its specification. |
| CartServices.CartService.ClearCart | smartlight/apps/api/src/modules/cart/service.ts:305-328 | The method matches its specification. |
| CartServices.CartService.SelectItems | smartlight/apps/api/src/modules/cart/service.ts:334-358 | The method matches its specification. |
| CartServices.CartService.MergeLines | smartlight/apps/api/src/modules/cart/service.ts:373-453 | The loop with its three counters equals the specification of the loop. |
| CartServices.CartService.MergeCart | smartlight/apps/api/src/modules/cart/service.ts:365-468 | The method leaves the specified table, and reports the counters or the exception. |
| CartServices.CartService.DeleteCart | smartlight/apps/api/src/modules/cart/service.ts:474-478 | The user has no active cart afterwards; everything else is as before. |
| CartServices.CartService.GetOrCreateActiveCart | smartlight/apps/api/src/modules/cart/service.ts:72-78 | Returns the active cart, opening an empty one exactly when there is none. |
| Auth.RunKeepsOrder | smartlight/apps/api/src/modules/auth/auth.service.ts:484-689 | In every state reached by calls that do not overlap each subject has at most ten ACTIVE sessions, every session has one token of the same owner, and a token that is not revoked hangs on an ACTIVE session. |
| AuthRuns.StartIsOk | smartlight/apps/api/prisma/schema.prisma:261-312 | The empty tables satisfy the invariant. |
| Auth.NextKeepsOrder | smartlight/apps/api/src/modules/auth/auth.service.ts:484-661 | Every single call keeps that. |
| Auth.IssueEffect | smartlight/apps/api/src/modules/auth/auth.service.ts:484-541 | Signing in leaves the subject one session richer but never above the cap, and touches nobody else. |
| AuthRuns.UsableAtMostCap | smartlight/apps/api/src/modules/auth/auth.service.ts:663-689 | Over every run of calls that do not overlap the tokens a subject can still exchange never outnumber the cap. |
| AuthRuns.ExchangedAtMostOnce | smartlight/apps/api/src/modules/auth/auth.service.ts:206-250 | In any run of calls that do not overlap a refresh token is exchanged at most once, and is revoked once it was. |
| AuthRuns.RevocationIsFinal | smartlight/apps/api/src/modules/auth/auth.service.ts:257-268 | Over every run rows are only added, and a closed session or revoked token stays so, with owner, session and expiry unchanged. |
| AuthRuns.RefreshSucceedsIff | smartlight/apps/api/src/modules/auth/auth.service.ts:211-243 | A refresh succeeds exactly for an unrevoked, unexpired token of the claimed subject whose account exists and is neither suspended nor, for an administrator, disabled. |
| AuthRuns.RefreshRefusedWith | smartlight/apps/api/src/modules/auth/auth.service.ts:206-243 | Which exception a refused refresh throws: revoked exactly for a revoked token, suspended exactly when the token itself would do but the account is suspended or a disabled administrator, invalid exactly otherwise; only a revoked token makes it write anything. |
| AuthRuns.RefreshWrites | smartlight/apps/api/src/modules/auth/auth.service.ts:229-249 | A successful refresh revokes the presented token and the evicted ones, opens one session seen now and one token valid until now plus the lifetime, both of the claimed account, and leaves every other row as it was. |
| AuthRuns.RefreshSwaps | smartlight/apps/api/src/modules/auth/auth.service.ts:229-249 | A refresh takes the presented and the evicted tokens out of use and adds one, and changes nothing else that is usable. |
| AuthRuns.ReplayRevokes | smartlight/apps/api/src/modules/auth/auth.service.ts:211-215 | Presenting a revoked token is refused and revokes exactly the tokens of the customer with the claimed id. |
| AuthRuns.TheftRuleReachesIff | smartlight/apps/api/src/modules/auth/auth.service.ts:641-661 | The rule that a replay ends all sessions reaches the owner of the replayed token if and only if that owner is a customer or had nothing usable: the bulk filter selects by userId, so an administrator keeps every token. |
| AuthRuns.AdminOutlivesReplay | smartlight/apps/api/src/modules/auth/auth.service.ts:211-215 | From empty tables: sign in, refresh, present the first token again. It is refused for both kinds of owner, and the second token then stays usable for an administrator and not for a customer. |
| AuthRuns.NothingSurvivesReplay | smartlight/apps/api/src/modules/auth/auth.service.ts:211-215 | In any run of calls that do not overlap, after a replay for a customer no token issued to that customer before ever refreshes again. |
| AuthRuns.EvictionIsFirstInFirstOut | smartlight/apps/api/src/modules/auth/auth.service.ts:673-678 | Since nothing refreshes lastSeenAt after sign-in, evicting the least recently seen never removes a session opened later than a survivor, unless both carry the same instant. |
| AuthRuns.SeenInOpeningOrder | smartlight/apps/api/src/modules/auth/auth.service.ts:544-547 | With a clock that never goes back, lastSeenAt orders the sessions by when they were opened. |
| AuthRuns.LogoutEndsOwn | smartlight/apps/api/src/modules/auth/auth.service.ts:257-268 | Logging out ends exactly the caller's session and token, and fails exactly for a session id without a row. |
| AuthRuns.RevokeOneEnds | smartlight/apps/api/src/modules/auth/auth.controller.ts:355-373 | Revoking a session ends exactly that one; it is refused for the caller's own and for an unknown id. |
| AuthRuns.RevokeOneReachesOthersIff | smartlight/apps/api/src/modules/auth/auth.controller.ts:359-372 | The call ends an open session of somebody else if and only if the id names one: it does not ask whose session it is. |
| AuthRuns.StrangerRevokes | smartlight/apps/api/src/modules/auth/auth.controller.ts:359-372 | From empty tables: two subjects sign in, and a call of the second ends the session of the first. |
| AuthRuns.RevokeAllEnds | smartlight/apps/api/src/modules/auth/auth.service.ts:641-661 | Bulk revocation leaves that customer nothing and everybody else everything. |
| AuthInFlight.OvershootIsBounded | smartlight/apps/api/src/modules/auth/auth.service.ts:484-493 | Sign-ins and refreshes together, interleaving at every statement: a subject with at most n of them between enforcing the cap and writing the session row never has more than cap - 1 + n active sessions. |
| AuthInFlight.CapSurvivesIff | smartlight/apps/api/src/modules/auth/auth.service.ts:663-689 | Letting all of a subject's sign-ins and refreshes in flight write their session rows ends within the cap if and only if they fit beside the sessions open now. |
| AuthInFlight.OvershootIsReached | smartlight/apps/api/src/modules/auth/auth.service.ts:484-493 | The bound is exact: for every n >= 1 there is a run from empty tables with at most n pending that reaches cap - 1 + n sessions; n = 2 is enough to exceed the cap. |
| AuthInFlight.PlayKeepsLinks | smartlight/apps/api/src/modules/auth/auth.service.ts:494-541 | Whatever interleaves, every token hangs on a session of its own owner, no two on the same, and a session just opened has none. |
| AuthInFlight.SoundThroughoutIff | smartlight/apps/api/src/modules/auth/auth.service.ts:494-541 | At every point of a run each token that is not revoked hangs on an ACTIVE session, if and only if no session is closed between the writing of its row and of its token's. |
| AuthInFlight.ActIsSoundIff | smartlight/apps/api/src/modules/auth/auth.service.ts:532-541 | One step breaks that exactly when it writes the token of a session closed since it was opened. |
| AuthInFlight.OrphanIsReached | smartlight/apps/api/src/modules/auth/auth.service.ts:494-541 | From empty tables: sign in, be revoked between the two writes. No session is open, and the token still passes every test of a refresh. |
| RefreshInFlight.ExchangesAreThePeak | smartlight/apps/api/src/modules/auth/auth.service.ts:207-249 | When refreshes interleave at every statement, over every run the exchanges of a token and its refreshes still in flight are together exactly the most that were ever in flight at once: with at most n in flight it is exchanged at most n times. |
| RefreshInFlight.ExchangedOnceIff | smartlight/apps/api/src/modules/auth/auth.service.ts:229-249 | Once all refreshes of a token have finished, it was exchanged at most once if and only if no two of them overlapped. |
| RefreshInFlight.EveryPeakIsReached | smartlight/apps/api/src/modules/auth/auth.service.ts:245-249 | From empty tables, for every n there is a run in which n overlapping refreshes exchange one token n times. |
| RefreshInFlight.ReplayIsFinalIff | smartlight/apps/api/src/modules/auth/auth.service.ts:211-215 | After a customer's revoked token is replayed, a token that customer had before can still be exchanged in some run if and only if a refresh of it was past its read, or it is a token that is not revoked although its session is closed, which bulk revocation passes over. |
| RefreshInFlight.OnlyStragglersSurviveReplay | smartlight/apps/api/src/modules/auth/auth.service.ts:211-215 | After such a replay every refresh of one of the customer's earlier tokens, other than such a token, is one that was already past its read. |
| RefreshInFlight.ReplayEmptiesIff | smartlight/apps/api/src/modules/auth/auth.service.ts:641-661 | The replay leaves the customer nothing usable if and only if no usable token of the customer hangs on a closed session. |
| RefreshInFlight.StragglerOutlivesReplay | smartlight/apps/api/src/modules/auth/auth.service.ts:245-249 | A sign-in or refresh of the customer that is still under way, at whatever statement, can finish after the replay, and the customer whom the replay left with nothing then has exactly one usable token again. |
| RefreshInFlight.StragglerIsReached | smartlight/apps/api/src/modules/auth/auth.service.ts:206-250 | From empty tables: two refreshes of one token overlap, one issues, the token is replayed and nothing is usable, the other issues and its token is. |
| RefreshInFlight.UninterruptedIsRefresh | smartlight/apps/api/src/modules/auth/auth.service.ts:206-250 | The statements of a refresh with nothing in between are the refresh of the model in which calls do not overlap. |
| RefreshInFlight.UninterruptedIsSignIn | smartlight/apps/api/src/modules/auth/auth.service.ts:484-541 | And the statements of a sign-in are that sign-in. |
| AuthServices.AuthService.FindOldest | smartlight/apps/api/src/modules/auth/auth.service.ts:673-678 | The query picks the asked number of open sessions of the owner, none seen later than any left. |
| AuthServices.AuthService.EnforceSessionCap | smartlight/apps/api/src/modules/auth/auth.service.ts:663-689 | Exactly the excess over cap - 1 is evicted, least recently seen first, with its tokens. |
| AuthServices.AuthService.IssueTokens | smartlight/apps/api/src/modules/auth/auth.service.ts:484-541 | The method leaves exactly the specified tables and names the new token. |
| AuthServices.AuthService.RevokeAllSessionsForSubject | smartlight/apps/api/src/modules/auth/auth.service.ts:641-661 | The method leaves the specified tables and reports how many sessions it ended. |
| AuthServices.AuthService.RefreshToken | smartlight/apps/api/src/modules/auth/auth.service.ts:206-250 | The method answers and leaves the tables exactly as specified, error order included. |
| AuthServices.AuthService.Logout | smartlight/apps/api/src/modules/auth/auth.service.ts:257-268 | The method leaves the specified tables and reports a session id without a row. |
| AuthServices.AuthService.RevokeSession | smartlight/apps/api/src/modules/auth/auth.controller.ts:355-373 | The method leaves the specified tables and answer. |
| Lockout.AdmittedIff | smartlight/apps/api/src/modules/auth/auth.service.ts:401-431 | For every history of attempts, a right password is admitted if and only if the account is not barred and either fewer than five wrong passwords were given since the last admission, or thirty minutes have passed since the latest wrong one. |
| Lockout.ColumnsAreFaithful | smartlight/apps/api/src/modules/auth/auth.service.ts:403-417 | The two columns always tell the history: the count is the number of wrong passwords capped at four, and a lock exists exactly from the fifth on, dated from the latest. |
| Lockout.CountStaysBelowLimit | smartlight/apps/api/src/modules/auth/auth.service.ts:403-417 | failedLoginCount never reaches the limit. |
| Lockout.WrongPasswordAnswer | smartlight/apps/api/src/modules/auth/auth.service.ts:403-419 | A wrong password is answered with the lockout error exactly from the fifth since the last admission on. |
| Lockout.RightPasswordAnswer | smartlight/apps/api/src/modules/auth/auth.service.ts:421-427 | A right password is answered with the lockout error exactly while the lock is on, with the suspension error exactly when it is not and the account is barred; neither changes a column. |
| Lockout.Account.AdminLogin | smartlight/apps/api/src/modules/auth/auth.service.ts:401-431 | The method updates the row and answers as specified. |
| SingleFlight.OneFlightOneOutcome | smartlight/apps/web/src/lib/api-client.ts:51-93 | In every interleaving at most one refresh POST is unfinished, isRefreshing holds exactly while one is and exactly while refreshPromise is set, all requests that joined a POST are sent again exactly when it succeeded, and no request is sent more than twice. |
| SingleFlight.RunKeepsOrder | smartlight/apps/web/src/lib/api-client.ts:51-145 | The invariant behind that holds after every sequence of events. |
| SingleFlight.RequestsTerminate | smartlight/apps/web/src/lib/api-client.ts:114-145 | n requests are over after at most 6n events, and cause at most n refresh POSTs. |
| SingleFlight.NothingHangs | smartlight/apps/web/src/lib/api-client.ts:64-93 | Exactly when every request is done and no refresh is under way, no event but a new request can happen. |
| SingleFlight.PostsFollowFinishes | smartlight/apps/web/src/lib/api-client.ts:65-90 | However many requests fail at once, a POST is started only after the previous one finished. |
| SingleFlightHistory.ReplyLaw | smartlight/apps/web/src/lib/api-client.ts:122-128 | A reply makes a request wait for a refresh exactly when it is a 401, the URL is no auth URL and the request was not retried before; it joins the POST under way or else starts one. Any other reply ends the request and touches neither flag, promise nor POSTs. |
| SingleFlightHistory.ResumeLaw | smartlight/apps/web/src/lib/api-client.ts:125-129 | A waiting request goes out a second time exactly when the POST it waited for succeeded, and fails otherwise. |
| SingleFlightHistory.UrlsAreKept | smartlight/apps/web/src/lib/api-client.ts:114-121 | In every interleaving there is one request for each one sent, in order, and it keeps the URL it was sent with. |
| SingleFlightHistory.JoinsIffUnauthorized | smartlight/apps/web/src/lib/api-client.ts:114-145 | In every interleaving: a request joins a POST exactly when its URL is no auth URL and its first reply is a 401; one that ended on a 401 had done so; and a request that is over succeeded exactly when its last reply was a success. |
| SingleFlightHistory.AnswersAreTold | smartlight/apps/web/src/lib/api-client.ts:65-90 | A POST counts as succeeded or failed exactly as it was answered. |
| SingleFlightHistory.SentAgainIff | smartlight/apps/web/src/lib/api-client.ts:114-128 | A request that joined a POST and is past waiting was sent again exactly when that POST was answered with success. |
| SingleFlight.ApiClient.Refresh | smartlight/apps/web/src/lib/api-client.ts:64-93 | Starts a POST only when none is under way and returns the shared promise. |
| SingleFlight.ApiClient.OnReply | smartlight/apps/web/src/lib/api-client.ts:114-145 | The response interceptor changes the module variables and the request as specified. |
| SingleFlight.ApiClient.OnFinally | smartlight/apps/web/src/lib/api-client.ts:87-90 | The finally callback clears flag and promise. |
| SingleFlight.ApiClient.OnResume | smartlight/apps/web/src/lib/api-client.ts:125-129 | A waiting request is sent again when its refresh succeeded and fails otherwise. |
| Csv.CsvRoundTripIff | smartlight/apps/admin/src/lib/exporters.ts:23-51 | A reader following rules 5 to 7 of section 2 of RFC 4180, for which LF stands between records, gives back exactly the header and cell strings if and only if the table has a column and a row. |
| Csv.XlsxRoundTripIff | smartlight/apps/admin/src/lib/exporters.ts:58-69 | The tab-joined export also needs every tab to sit in a cell that is quoted for another reason, since the escaping looks for commas only. |
| Csv.ReadsExploded | smartlight/apps/admin/src/lib/exporters.ts:35-46 | With any separator, a printed table reads back as its cells, each split where it holds a bare separator. |
| Csv.PhantomRecord | smartlight/apps/admin/src/lib/exporters.ts:46 | To that reader, with no rows the line break behind the header begins a second record of one empty field. |
| Csv.ClosedCsvRoundTripIff | smartlight/apps/admin/src/lib/exporters.ts:23-51 | A reader that follows rule 2 as well, by which the last record may have a line break behind it, gives back exactly the strings if and only if the table has a column and its last line is not blank; without rows it reads the header alone. |
| Csv.BareTabSplits | smartlight/apps/admin/src/lib/exporters.ts:58-69 | A bare tab in a cell splits its column in two. |
| Csv.CellLaw | smartlight/apps/admin/src/lib/exporters.ts:23-28 | A missing value prints as nothing and any other as it is, unless it holds a quote, a comma or a line feed: then it stands between quotes, longer by one for each quote in it. |
| Csv.FileLaw | smartlight/apps/admin/src/lib/exporters.ts:30-72 | Both files begin with a byte order mark; commas or tabs stand between cells and line feeds between rows. |
| Reports.FetchAllIsPrefix | smartlight/apps/admin/src/lib/reports-api.ts:42-61 | Against a stable paged source the result is the prefix of the data made of as many pages, at the size the server really sends, as were asked for. |
| Reports.FetchAllIsCompleteIff | smartlight/apps/admin/src/lib/reports-api.ts:42-61 | No row is lost or repeated, whatever the total, if and only if the server honours the page size or its shorter pages still add up. |
| Reports.InRangeKeeps | smartlight/apps/admin/src/lib/reports-api.ts:63-66 | The date filter keeps every in-range order as often as it occurs and nothing else. |
| Reports.ReadListLaw | smartlight/apps/admin/src/lib/reports-api.ts:25-40 | A list response is read under either pair of names, counted where no total came with it, and empty where there is none. |
| Reports.RevenueReport | smartlight/apps/admin/src/lib/reports-api.ts:70-96 | One row per day that has in-range orders, dates strictly increasing, each holding that day's own count and revenue; the counts sum to the in-range orders and the gross to the revenue of those neither cancelled nor refunded. |
| Reports.OrdersReport | smartlight/apps/admin/src/lib/reports-api.ts:99-125 | The same for the status counts: one row per day, counts summing to the in-range orders, and paid + cancelled + refunded <= orderCount in every row. |
| Reports.RevenueRowLaw | smartlight/apps/admin/src/lib/reports-api.ts:78-94 | A revenue row counts the orders created on its UTC day and adds up the amounts of those neither CANCELLED nor REFUNDED. |
| Reports.OrdersRowLaw | smartlight/apps/admin/src/lib/reports-api.ts:104-119 | An orders row counts the orders created on its UTC day, and under each heading those that are PAID, COMPLETED or DELIVERED, CANCELLED, or REFUNDED. |
| Reports.ReportsCoverTheList | smartlight/apps/admin/src/lib/reports-api.ts:70-125 | Over a stable server that honours the page size, both reports, fetched page by page, cover the server's whole list whatever its length: right days, right rows, nothing lost. |
| Reports.FetchRevenueReport | smartlight/apps/admin/src/lib/reports-api.ts:70-96 | The report over everything fetched. |
| Reports.FetchOrdersReport | smartlight/apps/admin/src/lib/reports-api.ts:99-125 | The report over everything fetched. |
| Reports.ColumnConserves | smartlight/apps/admin/src/lib/reports-api.ts:78-94 | Every report column sums to the same measure over all reported orders: counts to all of them, revenue to those neither cancelled nor refunded. |
| Reports.OrdersAreCounted | smartlight/apps/admin/src/lib/reports-api.ts:86 | The order count over all reported orders is their number. |
| Reports.StatusesDoNotOverlap | smartlight/apps/admin/src/lib/reports-api.ts:115-119 | In every row paid + cancelled + refunded <= orderCount. |
| Pagination.BuildRange | smartlight/packages/ui/src/components/pagination.tsx:12-26 | The pushes build exactly the specified range. |
| Pagination.RangeIsAllPages | smartlight/packages/ui/src/components/pagination.tsx:12-26 | Replacing each gap by the pages missing between its neighbours yields exactly 1..total in order. |
| Pagination.GapsAreHonest | smartlight/packages/ui/src/components/pagination.tsx:12-26 | Every gap stands between two page numbers and hides at least one page, and the strip has at most 2 * siblings + 5 items. |
| Pagination.ShownIff | smartlight/packages/ui/src/components/pagination.tsx:12-26 | A page is spelled out exactly when it is the first, the last or within the window around the current one. |

## Left out

- HTTP, guards, cookies, OAuth, request validation, logging and response mapping: plumbing.
- Password hashing, JWT signing and random tokens: a token is its row, a password check a boolean.
- Names, images, notes, currency and the tax and shipping columns of sessions: carried along and never computed with.
- Decimal precision and floating point: amounts are exact integers.
- Two concurrent reserves of one session: `withTransaction` is serializable, so same-session calls are atomic steps.
- Cart calls are atomic steps, the opening of a cart before `addItem`'s transaction included.
- Auth calls outside `AuthInFlight` and `RefreshInFlight` are atomic steps although the service opens no transaction. In those two the statements of a sign-in and a refresh are separate steps, except that reading a token and judging it and its account, counting the sessions over the cap and closing them with their tokens, and any bulk revocation, logout or single revocation are one step each.
- The order row itself, payment, shipping, refunds, stock imports and confirmed sales: placing an order is modelled only as far as it writes the session and its reservation.
- Cart expiry dates, coupons, admin cart and checkout lists, summaries: nothing hard.
- The customer login shares the lockout columns and their order; its e-mail verification status is part of `barred`, and a password reset, which clears both columns, is not a step. Nor is an attempt on an unknown e-mail address, which has no row to change.
- The access token in local storage and the contents of requests: the flight of the refresh does not depend on them.
- Invalid dates and years beyond four digits in reports: a day is its number, so date order is number order.
- The other reports (products, customers, inventory): one-to-one maps.
- The PDF export and the rest of the React components.
- CartServices.CartService.BulkRemoveItems: takes its id list as a set, since a bulk statement ignores order and repetition; so does SelectItems.
- Reports.FetchAllIsPrefix: assumes that the source does not change between pages and tells its total.
