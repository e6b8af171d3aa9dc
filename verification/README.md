# Verified model of the demo shop's order pipeline and its learning lab

This project models the parts of the OpenTelemetry demo shop whose correctness spans several functions or several
services, and proves what the code promises, or exactly when it keeps the promise.

- **The order pipeline.** `Money.dfy` is checkout's money arithmetic with int64 units and int32 nanos and their
  wrap-around. `CartStore.dfy` is the cart service's store, whose add is an unlocked read-modify-write. `Shipping.dfy` says
  which carts the shipping service can read. `Totals.dfy`, `Checkout.dfy` and `PlaceOrder.dfy` are the order total, the
  saga as a state machine over any number of concurrent calls, and `PlaceOrder` itself, which is shown to be one schedule
  of that machine. `Ledger.dfy` is the accounting consumer. `Pipeline.dfy` runs all of them together, with every
  interleaving, failing step, lost message, duplicate and redelivery, and proves that the rows of every order in the ledger
  add up to the one charge made for it.
- **The learning lab.** `JsonTree.dfy` is the algebra of path updates in a JSON document, `QuestionBank.dfy` the check of
  a bank against a flag document and the building of a scenario's document, `BankParser.dfy` the parser and the rubric
  score, `SharedPath.dfy` a bank that breaks its own validation, and `FlagSession.dfy` the protocol that snapshots,
  applies and restores flags, with any number of apps, a crash possible between any two steps and outside editors at work.
- **The message codec.** `Wire.dfy` is the byte layer (base 128 varints, wire types and length-delimited records of the
  Protocol Buffers encoding), `Codec.dfy` the generated encoders and decoders as functions of a message schema,
  `CodecMethods.dfy` the loops over a writer and a reader, `CodecProofs.dfy` what they promise, `CodecBytes.dfy` the bytes
  of each message, and `CodecFailures.dfy` how decoding ends early.
- **Three smaller services.** `Currency.dfy` is the currency conversion over exact reals, `Recommendation.dfy` the leaking
  recommendation cache, `Replay.dfy` the best-match playback of recorded model responses.

Code that changes state step by step is a class or a method with loops, proved against a specification function; the
lemmas are about these functions and about whole runs of the state machines. Where one step of a protocol may be
followed by another party's step, the protocol is a state machine, and the methods are shown to be runs of it.

Some promises do not hold for every input. For each of these there is a lemma that says exactly when the promise holds, in
both directions, and for most of them another one with a concrete input for which it does not:

- `Sum` is meant to give a valid amount worth the exact sum. It gives an invalid amount when the units add up to
  zero and the nanos are neither zero nor a whole unit (`SumValid`, `SmallAmountsSumInvalid`), and wraps in a corner of
  that region (`SumConserves`). Adding an item to a running total that is positive but below one unit panics
  (`TotalIsExact`).
- An order placed without an address is charged, shipped and published, but never reaches the ledger
  (`OrderWithoutAddressIsLost`, `LedgerHoldsWhatWasDelivered`). Checkout and accounting treat quantities below one
  differently (`ChargeVersusRows`); shipping does not quote such a cart (`ReadableCarts`), so the ledger reconciles.
- Two adds to one cart at once can lose one of them (`LostUpdate`). A cart that is only added to loses something exactly
  when a write falls between the two halves of another add that lands (`UpdatesAreLostWhenOvertaken`).
- A later submessage replaces an earlier one instead of merging into it as the encoding standard's section "Last One
  Wins" asks (`SubmessagesAreReplaced`). The two agree exactly when the later one covers the earlier one
  (`ConcatenationIsStandardWhenCovered`).
- The frontend's decoder turns int64 units into numbers: an encoded amount comes back exactly when its units are a safe
  integer (`AmountsComeBackWhenSafe`). A message cut between two of its fields decodes to a shorter one, cut anywhere
  else it does not decode (`TruncationIsNoticed`).
- Two flags of a bank may share a path, and then a built document need not validate again (`SharedPathBreaksValidation`).
  It does exactly when the variants finally written are declared (`BuiltValidates`).
- Nothing locks the flag session against a second app (`TwoAppsLoseTheSnapshot`). The snapshot stays safe exactly when no
  step records, applies or deletes past what its app has seen (`SafeExactlyWhenClean`), as when operations do not overlap
  (`SnapshotIsSafe`).
- The currency service's digit loop drops the zeros in front of the nanos (`DigitLoopIsRight`, `SameCurrencyIsIdentity`).
- Product ids that are sent as separate strings without commas are glued into one (`SeparateIdsAreGlued`), and a failed
  first fetch leaves the recommendation cache empty but in use (`CacheAgreesWithCatalog`).

Assumptions that are not in the code appear as preconditions of the theorems that need them: different calls get
different order and tracking ids, quoted prices are valid and not negative, totals fit into an int64, the keys of a YAML
mapping are distinct, and equal texts alone have a similarity ratio of 1.

Check the whole project with `dafny verify dfyconfig.toml`.

## Model

| member | source | states |
|---|---|---|
| MoneyArithmetic.SumConserves | src/checkout/money/money.go:81-109 | for any two valid amounts of one currency Sum succeeds, and its result is worth exactly both together if and only if the units, with any carry, stay inside an int64 and it is not the case that they add up to 0 with a nano sum below 10^9 − 2^31, where the int32 wraps |
| MoneyArithmetic.SumValid | src/checkout/money/money.go:81-109 | the result of Sum is a valid amount if and only if the unit sum is not 0, the nano sum is 0, or it is at least a whole unit; inside this region it is the unique valid amount of the exact total |
| MoneyArithmetic.SumFails | src/checkout/money/money.go:81-86 | Sum reports an invalid value if and only if one amount has units and nanos of different signs or a whole unit of nanos, and otherwise a mismatch if and only if the currencies differ; a sum has the left currency |
| MoneyArithmetic.ValidIsCanonical | src/checkout/money/money.go:23-31 | a valid amount is the only valid amount of its currency worth that many nanos |
| MoneyArithmetic.NegateCancels | src/checkout/money/money.go:62-68 | a valid amount plus its negation is zero, except for the least int64 units together with nanos, where the negation wraps |
| MoneyArithmetic.SmallAmountsSumInvalid | src/checkout/money/money.go:95-99 | counterexample: 0.2 and 0.3 add up to an invalid amount to which nothing more can be added |
| MoneyArithmetic.MultiplySlow | src/checkout/money/money.go:113-120 | the loop makes the chain of sums with max(n, 1) copies and panics where the first sum of the chain fails |
| MoneyArithmetic.RepeatedIsMultiplication | src/checkout/money/money.go:113-120 | repeated addition gives the valid amount worth exactly n times its argument when there is one copy or the argument is zero, has units, or has at least half a unit of nanos; otherwise two copies give an invalid amount and three or more panic |
| Totals.TotalOrder | src/checkout/main.go:345-354 | the totalling loop computes the total of shipping and items in order and panics at the first failing step |
| Totals.TotalIsExact | src/checkout/main.go:345-354 | for valid, non-negative prices without overflow there is a total if and only if every item can be multiplied and every running total before an item is zero or at least one unit; it is then worth exactly shipping plus every charged copy, and is valid if and only if it is zero or at least one unit |
| Totals.ShippingKeepsTotalsWhole | src/checkout/main.go:350-354 | with at least one unit of shipping the total exists if and only if every item can be multiplied |
| Totals.TotalStaysFailed | src/checkout/main.go:350-354 | once a prefix of the items panics, the whole total is that panic |
| Totals.MissingCostPanics | src/checkout/main.go:351-353 | an order of one item without a cost, wanted at most once, with shipping that is zero or at least a unit: the cost counts as a zero of no currency, so the total panics with a mismatch unless the order has no currency either |
| Totals.ExampleTotal | src/checkout/main.go:345-354 | one order worked out: shipping of 3.25, two pieces at 10.50 and one at 0.99 come to 25.24 |
| CartStore.ValkeyCartStore.AddItemAsync | src/cart/src/cartstore/ValkeyCartStore.cs:127-176 | fails, changing nothing, if and only if the user's cart lists the product twice, which no well-kept store does; otherwise raises the quantity of the product by the requested one, with int32 wrap-around, or puts a new product at the end, keeps the other lines in place, starts a missing cart under the user's own id, and leaves other users alone |
| CartStore.ValkeyCartStore.EmptyCartAsync | src/cart/src/cartstore/ValkeyCartStore.cs:178-194 | the user's cart becomes the empty cart, other carts stay |
| CartStore.ValkeyCartStore.GetCartAsync | src/cart/src/cartstore/ValkeyCartStore.cs:196-227 | gives the stored cart, and an empty one if there is none |
| CartStore.ChangedIsAdded | src/cart/src/cartstore/ValkeyCartStore.cs:152-163 | the change throws if and only if the cart lists the product twice; otherwise its one possible result has the product's quantity raised, or the product added at the end, and everything else in place |
| CartStore.ChangedQuantities | src/cart/src/cartstore/ValkeyCartStore.cs:142-163 | the in-memory change adds the quantity to its product, leaves the others, keeps products distinct, and cannot throw on a cart with distinct products |
| CartStore.StepKeepsSourced | src/cart/src/cartstore/ValkeyCartStore.cs:127-194 | every read half, write half, failed write, empty and expiry keeps all stored and in-flight carts free of invented quantities |
| CartStore.NothingInvented | src/cart/src/cartstore/ValkeyCartStore.cs:127-194 | after any interleaving every stored cart lists a product once, and each quantity is, up to int32 wrap-around, the sum of different adds of that product to that cart which were all written; an in-flight cart may include its own add as well |
| CartStore.EveryQuantityWasAdded | src/cart/src/cartstore/ValkeyCartStore.cs:127-194 | from the empty store, every stored quantity is, up to int32 wrap-around, the sum of different adds of that product by that user, each of which was read and written in the run |
| CartStore.LostUpdate | src/cart/src/cartstore/ValkeyCartStore.cs:140-165 | counterexample: two adds that both read before either writes leave a quantity of one |
| CartStore.OneAtATimeLosesNothing | src/cart/src/cartstore/ValkeyCartStore.cs:127-194 | when no action on a user's cart falls between the halves of an add to it, the stored quantity is the sum of all completed adds since the cart was last emptied or expired, up to int32 wrap-around |
| CartStore.AddsInTurn | src/cart/src/cartstore/ValkeyCartStore.cs:140-165 | the same two adds one after the other leave a quantity of two |
| CartStore.UpdatesAreLostWhenOvertaken | src/cart/src/cartstore/ValkeyCartStore.cs:127-176 | while a cart is only added to, in positive quantities that fit an int32, it never holds more than the completed adds, and it holds less of some product if and only if some write to it falls between the read and the write of another add that lands |
| CartStore.StaleIsOvertaken | src/cart/src/cartstore/ValkeyCartStore.cs:140-165 | an add lands that was read before the last write to the cart if and only if some landing write overtakes another |
| Checkout.StepKeepsOrder | src/checkout/main.go:339-420 | every step of every call keeps the saga's order and what the calls remember of their effects |
| Checkout.SagaHolds | src/checkout/main.go:339-420 | over any interleaving of calls with any step failing, cut off or answered too late: at most one charge and one shipment per call, shipping after charging, and emptying, mailing and publishing after shipping |
| Checkout.OutcomeIsChargeAndShipment | src/checkout/main.go:356-419 | a finished call answers with success if and only if charge and shipment were acknowledged, whatever emptying, mail and publishing did; a published order was charged before for exactly its computed total |
| Checkout.AnswersAreFinal | src/checkout/main.go:306-420 | a call can be cut off at any point before it answers, and nothing changes a call that has answered, whatever else runs |
| Checkout.OrdersTellWhatHappened | src/checkout/main.go:378-416 | over any run, every mailed and every published order carries the id and the address its call began with, the items and shipping cost of its preparation, and the tracking id of its earlier shipment |
| PlaceOrder.PrepOrderItems | src/checkout/main.go:537-555 | succeeds if and only if every product is priced, and item i is then the cart's item i with its own price |
| Shipping.ReadableCarts | src/shipping/src/shipping_service/shipping_types.rs:6-30 | of what checkout sends, shipping can read exactly the carts that are not empty, with every product named and every quantity at least one, and with an address that is missing altogether or has no empty field |
| PlaceOrder.PrepareOrder | src/checkout/main.go:428-466 | succeeds if and only if cart, prices and quote are answered and the cart is one that shipping can read, said in terms of its lines and the address, and carries exactly these answers |
| PlaceOrder.CheckoutService.ChargeCard | src/checkout/main.go:345-359 | charges the computed total and nothing else, and goes on if and only if there is a total and the charge was acknowledged; without a total the call dies |
| PlaceOrder.CheckoutService.ShipOrder | src/checkout/main.go:369-372 | goes on if and only if the shipment was acknowledged with a tracking id that is not empty |
| PlaceOrder.CheckoutService.EmptyUserCart | src/checkout/main.go:376 | the call goes on whether or not the cart is emptied |
| PlaceOrder.CheckoutService.SendOrderConfirmation | src/checkout/main.go:406-410 | the call goes on whether or not the mail is sent |
| PlaceOrder.CheckoutService.SendToPostProcessor | src/checkout/main.go:658-722 | hands over one message and as many duplicates of it as the flag asks for, if the producer takes it at all |
| PlaceOrder.CheckoutService.PlaceOrder | src/checkout/main.go:306-420 | a run of the saga from the old state to the new one; answers with an order if and only if the cart could be prepared, the lines could be totalled, and charge and shipment were acknowledged with a tracking id; the order's id, tracking id, shipping cost, address, and each line with its own price are those of the call and the replies, and the log gains the one charge of that total, the shipment, and the announcements of that order |
| Ledger.Consumer.ProcessMessage | src/accounting/Consumer.cs:83-140 | stores the order, a row for each item with its product, order, cost and quantity, and the shipping row with its tracking id, cost, address and order, if and only if the payload can be read, the database is up, no field is missing and every primary key is new; otherwise nothing changes |
| Ledger.Consumer.Consume | src/accounting/Consumer.cs:57-81 | the consume loop is the effect of the deliveries in order |
| Ledger.LedgerIsIdempotent | src/accounting/Consumer.cs:83-140 | under any repetition and reordering of deliveries the ledger is the one that holds each distinct order once, provided order and tracking ids determine the order |
| Ledger.ProcessStaysFaithful | src/accounting/Consumer.cs:95-135 | even without unique ids, every order in the ledger keeps recording exactly one delivered message, with all its rows and no others |
| Ledger.LedgerKeepsKeys | src/accounting/Entities.cs:9-54 | after any deliveries no two item rows share product and order, and no two shipping rows a tracking id |
| Ledger.RowsAddUp | src/accounting/Entities.cs:9-54 | the item rows of an order, keyed by product and order, are worth the sum over its items of quantity times cost |
| Pipeline.RunKeepsInv | src/checkout/main.go:339-420 | every run of the whole pipeline keeps carts sourced, the saga ordered and the ledger faithful to what was published |
| Pipeline.ChargeVersusRows | src/checkout/main.go:351-354 | for any items, what checkout charges is never less than what the ledger shows, and the same if and only if every item with a quantity below one is free |
| Pipeline.ZeroQuantityIsCharged | src/checkout/money/money.go:113-120 | of checkout's totalling and the ledger's rows alone: an item of quantity zero would be charged once and recorded with nothing, were it ever quoted |
| Pipeline.PublishedIsChargedOnce | src/checkout/main.go:356-415 | a published order belongs to a call that was charged exactly once, for its computed total |
| Pipeline.LedgerReconciles | src/checkout/main.go:345-420 | after any run each order in the ledger has one shipping row and was charged once; with valid non-negative prices and no overflow, its shipping cost plus the sum over its rows of quantity times cost equals the charge, in nanos |
| Pipeline.ReconciledSays | src/checkout/main.go:345-420 | what it means for an order to reconcile, said of the log and the rows: one charge of its call, one shipping row, a row for each item, and the sums |
| Pipeline.LedgerHoldsWhatWasDelivered | src/accounting/Consumer.cs:57-140 | with unique ids, after any run the ledger holds each order delivered while the database was up once and completely if and only if it was placed with an address, and nothing else |
| Pipeline.OrderWithoutAddressIsLost | src/accounting/Consumer.cs:116-139 | counterexample run: an order without an address is charged, shipped, published and delivered, and the ledger stays empty |
| Pipeline.OrderWithAddressIsRecorded | src/accounting/Consumer.cs:95-135 | the same order with a complete address is recorded, in a run that meets the assumptions of LedgerReconciles and LedgerHoldsWhatWasDelivered |
| JsonTree.SetThenGet | sre-learning-lab/bank.py:307-325 | setting a path succeeds if and only if its parent can hold the last part; afterwards the path reads the new value and every incomparable path reads what it did |
| JsonTree.ApplyIsOverlay | sre-learning-lab/bank.py:353-359 | assigning existing, pairwise equal or incomparable paths one after another cannot fail and equals writing the last value of each path at once |
| JsonTree.OverlayDependsOnLastWrites | sre-learning-lab/bank.py:355-358 | two sequences of assignments with the same last value at every path give the same document |
| JsonTree.OverlayOverwrites | sre-learning-lab/bank.py:353-359 | assignments over the result of earlier ones to the same paths erase these |
| QuestionBank.SpecErrorsSay | sre-learning-lab/bank.py:333-348 | a missing path is reported alone; otherwise the errors of a flag report an undeclared current value, and after it a flag missing from the live catalog or exactly the variants that the catalog lacks, if and only if there are such |
| QuestionBank.ErrorsNameMisfits | sre-learning-lab/bank.py:328-350 | a flag is named by an error if and only if it does not fit the document |
| QuestionBank.ValidatesSays | sre-learning-lab/bank.py:328-350 | a bank validates if and only if the document maps flags, holds a declared text at each path, and lists every variant of each flag |
| QuestionBank.ValidateBankAgainstFlags | sre-learning-lab/bank.py:328-350 | collects the errors of all flags in catalog order; there are none if and only if the bank validates |
| QuestionBank.ValidatedPathsAreIndependent | sre-learning-lab/bank.py:328-340 | catalog paths of a validated bank are equal or neither is a prefix of the other |
| QuestionBank.ResetFlags | sre-learning-lab/bank.py:355-356 | assigns every flag's safe variant in catalog order and fails where the first assignment does |
| QuestionBank.InjectFaults | sre-learning-lab/bank.py:357-358 | assigns the faults' variants in order and fails on an undeclared flag or where the first assignment does |
| QuestionBank.BuildScenarioDocument | sre-learning-lab/bank.py:353-359 | resets, then faults, as one sequence of assignments |
| QuestionBank.BuildSucceeds | sre-learning-lab/bank.py:353-359 | for a validated bank and a declared scenario the build cannot fail, and equals writing all paths at once |
| QuestionBank.BuiltReadsFlags | sre-learning-lab/bank.py:353-359 | with one flag per path, the result reads the last fault's variant at each faulted flag and the safe variant at every other |
| QuestionBank.BuiltLeavesTheRest | sre-learning-lab/bank.py:353-359 | every path incomparable with all catalog paths reads what it did |
| QuestionBank.CatalogOrderIsIrrelevant | sre-learning-lab/bank.py:355-356 | with one flag per path, banks with the same flags in any order build the same document |
| QuestionBank.RebuildIsBuild | sre-learning-lab/bank.py:353-359 | building scenario b over the result of scenario a is building b over the original |
| QuestionBank.BuiltValidates | sre-learning-lab/bank.py:328-359 | the built document validates against the same bank if and only if the variant finally left at each flag's path is declared by that flag |
| QuestionBank.DistinctPathsStayValid | sre-learning-lab/bank.py:328-359 | with one flag per path, validation is closed under building |
| SharedPath.SharedPathBreaksValidation | sre-learning-lab/bank.py:177-196 | counterexample: a raw tree that the parser accepts, with two flags of one path, a document that its bank validates against, and its scenario with a declared fault, whose built document no longer validates |
| BankParser.FieldReads | sre-learning-lab/bank.py:86 | a field is the value of the first entry with that key, and nothing if there is no such entry |
| BankParser.OneStripped | sre-learning-lab/bank.py:90 | the stripped text is the only one that is left of a text when blank ends are taken off and neither of its own ends is a space |
| BankParser.RequiredString | sre-learning-lab/bank.py:85-90 | gives the stripped text, and complains if and only if the field is absent, not a text, or blank |
| BankParser.StringList | sre-learning-lab/bank.py:93-98 | gives the stripped texts, and complains if and only if the field is not a non-empty list of texts that are not blank |
| BankParser.PositiveReads | sre-learning-lab/bank.py:139-142 | a number is accepted if and only if its key is there with an integer of at least one, or with true, which counts as one |
| BankParser.ParseLevels | sre-learning-lab/bank.py:130-154 | adds a complaint if and only if there is no level, some level misses a text or a positive order, or ids or orders repeat; otherwise yields each level as it reads |
| BankParser.ParseFlags | sre-learning-lab/bank.py:156-177 | adds a complaint if and only if the catalog is empty or some entry misses its key, path, variants or a safe variant among these; otherwise yields each flag as it reads |
| BankParser.ParseFaults | sre-learning-lab/bank.py:213-229 | adds a complaint if and only if there is no fault or some fault is not of a known flag and one of its variants; yields flag and variant of each |
| BankParser.ParseRubric | sre-learning-lab/bank.py:249-273 | adds a complaint if and only if there is no criterion, some criterion misses a text or positive points, ids repeat, or the raw points do not add up to a hundred; otherwise yields each criterion as it reads |
| BankParser.ParseExercises | sre-learning-lab/bank.py:179-301 | adds a complaint if and only if there is no scenario, some scenario does not fit the levels and flags, or ids repeat; otherwise yields each scenario as it reads |
| BankParser.SortLevels | sre-learning-lab/bank.py:304 | the same levels, strictly ascending when no two orders are equal |
| BankParser.FitsExactlyWhenAllowed | sre-learning-lab/bank.py:223-226 | a fault fits the parsed flags if and only if the raw catalog has an entry of that key which lists that variant |
| BankParser.ParseBank | sre-learning-lab/bank.py:113-304 | succeeds if and only if the raw tree is acceptable, a condition on its entries alone, and the result is then the bank that the tree describes, levels in ascending order |
| BankParser.AcceptedIsComplete | sre-learning-lab/bank.py:113-301 | an acceptable tree has every required text as a filled text, every required list as a non-empty list of filled texts, and every other required key, in the bank, in each level, catalog entry and scenario, and in its solution, faults and criteria |
| BankParser.ParsedBankIsWellFormed | sre-learning-lab/bank.py:158-177 | in a parsed bank every safe variant is one of its flag's variants, paths are not empty, and flag ids are distinct |
| BankParser.ParsedFaultsAreDeclared | sre-learning-lab/bank.py:213-229 | every scenario of a parsed bank has faults, all of declared flags and variants |
| BankParser.ParsedScenariosBuild | sre-learning-lab/bank.py:353-359 | every scenario of a parsed bank builds over every document the bank validates against |
| BankParser.ScoreIsAdditive | sre-learning-lab/bank.py:375-376 | the score of two disjoint sets of criteria together is the sum of their scores |
| BankParser.OneCriterionEarns | sre-learning-lab/bank.py:375-376 | with distinct ids, checking one criterion alone earns that criterion's points, and checking none earns nothing |
| BankParser.ScoreOfParsed | sre-learning-lab/bank.py:375-376 | scores lie between 0 and 100, and are 100 if and only if every criterion is checked |
| FlagSession.SafeExactlyWhenClean | sre-learning-lab/flag_manager.py:133-172 | for any number of apps, crashes and edits, the recovery file holds the exact and unfaulted snapshot of whatever is applied throughout a run if and only if each recorded snapshot was read with nothing applied and overwrites no needed one, each scenario is applied over its own snapshot, and no app deletes a needed snapshot other than the one it saw |
| FlagSession.SafeStepIsClean | sre-learning-lab/flag_manager.py:133-172 | the same for one step from a safe state |
| FlagSession.SnapshotIsSafe | sre-learning-lab/flag_manager.py:133-172 | over any run in which operations do not overlap the recovery file stays safe: at its end, whatever is applied has its own snapshot there, with the exact text read before it and nothing applied when it was read |
| FlagSession.OneAppIsSerial | sre-learning-lab/flag_manager.py:133-172 | the operations of one app never overlap |
| FlagSession.FlagsDecide | sre-learning-lab/flag_manager.py:151-157 | comparing the flags that the API shows of two documents is comparing what every path under their flags reads |
| FlagSession.OtherKeysDoNotCount | sre-learning-lab/flag_manager.py:151-157 | an edit of any member besides the flags makes no conflict and hides none |
| FlagSession.TwoAppsLoseTheSnapshot | sre-learning-lab/flag_manager.py:134-149 | counterexample run: a second app that checks before and reads after the first one's activation overwrites the snapshot with an already-faulted text, and the state is not safe |
| FlagSession.AttemptsKeepSession | sre-learning-lab/flag_manager.py:158-167 | restore attempts of any apps that are cut off before the session is closed, and edits meanwhile, never change the recovery file |
| FlagSession.RecoveryConverges | sre-learning-lab/flag_manager.py:158-167 | after any number of interrupted attempts one forced restore that runs through leaves the original live document, the exact original file text and no session |
| FlagSession.ClosedMeansRestored | sre-learning-lab/flag_manager.py:158-167 | restores and crashes of one app by themselves close the session only once flags and file text are back, even when the API answers and does not write |
| FlagSession.PlainRestoreNeedsAppliedFlags | sre-learning-lab/flag_manager.py:151-167 | the steps of a plain restore are a run, and then restore document and text and close the session, if and only if every path under the live flags reads as in the applied document; otherwise it ends before its first effect |
| FlagSession.InterruptedRestoreConflicts | sre-learning-lab/flag_manager.py:162-167 | from any state with a session open, a restore that crashes anywhere between posting the original and closing the session leaves a plain restore with a conflict if and only if original and applied flags differ |
| FlagSession.KeptThenActivated | sre-learning-lab/flag_manager.py:133-172 | activating b after a was applied and kept applies the same document as activating b at once |
| FlagSession.FlagManager.WriteLive | sre-learning-lab/flag_manager.py:96-113 | reports success if and only if the request was answered and some read up to the deadline, before any failing one, agrees with the document on every path under the flags; leaves file and document as written, or as the last read found them, whether or not an answered write was carried out |
| FlagSession.FlagManager.Activate | sre-learning-lab/flag_manager.py:133-149 | a run of the protocol with any number of its effects done before a crash; refused if and only if a session is open or no document can be built from the file; crashed if and only if fewer than two effects were done, with file and live document untouched; complete if and only if nothing failed and the flags were seen |
| FlagSession.FlagManager.Restore | sre-learning-lab/flag_manager.py:158-167 | a run of the protocol; reports a conflict if and only if unforced and some path under the live flags reads differently in the applied document; completes if and only if nothing failed and the flags were seen, with flags and file text restored and the session closed |
| FlagSession.FlagManager.KeepCurrentAndClose | sre-learning-lab/flag_manager.py:169-172 | a run of the protocol that closes the session and touches neither file nor live document |
| Wire.VarintRoundTrip | src/frontend/protos/demo.ts:2437-2468 | a base 128 varint reads back as the number that was written, wherever it stands, and consumes exactly its bytes |
| Wire.VarintDigits | src/frontend/protos/demo.ts:2437-2455 | byte i of a varint is digit i of the number in base 128, with the continuation bit on all bytes but the last, and there are no more bytes than the number needs |
| Wire.NegativeDigits | src/frontend/protos/demo.ts:266-268 | a negative integer is written as the ten digits of its 64-bit two's complement |
| Wire.Int32RoundTrip | src/frontend/protos/demo.ts:266-298 | every int32, negative ones as ten bytes, reads back unchanged |
| Wire.WideVarints | src/frontend/protos/demo.ts:266-298 | a varint beyond 32 bits reads as its low 32 bits, signed ones in two's complement |
| Wire.SafeInt64RoundTrip | src/frontend/protos/demo.ts:4599-4608 | an int64 reads back unchanged through the number conversion if and only if its magnitude is at most 2^53 − 1; otherwise the conversion raises |
| Wire.SkippedVarint | src/frontend/protos/demo.ts:2510-2515 | what is skipped as a varint is bytes with the continuation bit and a last one without |
| Codec.GeneratedTags | src/frontend/protos/demo.ts:2437-2515 | the schemas have the tags that the generated code writes and expects |
| CodecMethods.EncodeMessage | src/frontend/protos/demo.ts:2438-2455 | appends exactly the encoding of the message to the writer |
| CodecMethods.DecodeMessage | src/frontend/protos/demo.ts:2457-2520 | the loop over the reader gives what decoding the buffer between its bounds gives, leaves the position behind what was read, and restores the recursion depth on every way out |
| CodecProofs.DecodesRecords | src/frontend/protos/demo.ts:2467-2516 | any sequence of records, known and unknown in any order, decodes to their combined effect and consumes exactly their bytes |
| CodecProofs.RoundTrip | src/frontend/protos/demo.ts:2437-2520 | for every message tree of a schema that fits the recursion limit, decoding its encoding anywhere in a buffer gives the message back and consumes exactly its bytes |
| CodecProofs.ConcatenationMerges | src/frontend/protos/demo.ts:2467-2516 | two encodings in a row decode to the second message's non-default scalars over the first's, repeated fields appended, and submessages replaced whole |
| CodecProofs.ConcatenationIsStandardWhenCovered | src/frontend/protos/demo.ts:2486-2501 | this is the recursive merge of the encoding standard if and only if of every submessage in both messages the second covers the first: it has something wherever the first has, and the first has no repeated elements |
| CodecProofs.CoveredMessage | src/frontend/protos/demo.ts:2486-2501 | the standard's merge of two messages is the second one if and only if that covers the first |
| CodecProofs.SubmessagesAreReplaced | src/frontend/protos/demo.ts:2486-2492 | counterexample: a cost of five units followed by a cost of seven nanos decodes to seven nanos, where the standard has both |
| CodecProofs.UnknownFieldsAreIgnored | src/frontend/protos/demo.ts:2510-2515 | well-formed unknown or wrongly typed fields before, between and after a message's own change nothing |
| CodecProofs.EncodingIsInjective | src/frontend/protos/demo.ts:2437-2455 | different messages have different encodings |
| CodecProofs.MessagesFitLimits | src/frontend/protos/demo.ts:2459-2463 | the modelled messages never reach the recursion limit from the top, nor from a depth of up to 96 |
| CodecBytes.CartItemBytes | src/frontend/protos/demo.ts:262-270 | a cart item is tag 10, length and product id unless that is empty, then tag 16 and the quantity unless that is zero |
| CodecBytes.MoneyBytes | src/frontend/protos/demo.ts:1785-1796 | an amount is currency code, units and nanos in this order under their tags, each left out when empty or zero |
| CodecBytes.OrderResultBytes | src/frontend/protos/demo.ts:2438-2455 | an order result is id, tracking id, the encodings of cost and address, and those of the items one after another, each behind its tag and length |
| CodecBytes.OrderItemExample | src/frontend/protos/demo.ts:2353-2361 | the exact bytes of one order item, with a two-byte and a negative varint |
| CodecBytes.ExampleComesBack | src/frontend/protos/demo.ts:2363-2398 | it decodes to itself, nested messages included |
| CodecFailures.TruncationIsNoticed | src/frontend/protos/demo.ts:2457-2516 | a proper beginning of an encoding decodes if and only if it ends between two fields of the message itself; cut anywhere else, at any depth, it raises the premature end |
| CodecFailures.AmountsComeBackWhenSafe | src/frontend/protos/demo.ts:1800-1849 | an encoded amount with any int64 units decodes to itself if and only if the units are a safe integer, and raises otherwise |
| CodecFailures.WideNumbersAreCut | src/frontend/protos/demo.ts:293-299 | a quantity, and likewise nanos, written as any varint below 2^64 reads as its low 32 bits in two's complement |
| CodecFailures.StopTagEndsMessage | src/frontend/protos/demo.ts:2510-2513 | a zero or end-group tag behind a message ends decoding with the message; what follows is not read |
| CodecFailures.NestingIsLimited | src/frontend/protos/demo.ts:2459-2463 | nothing is decoded a hundred messages deep, and an order confirmation fits inside d further messages if and only if d is at most 96 |
| Currency.GetDouble | src/currency/src/server.cpp:182-194 | the digit loop returns units plus nanos divided by ten to the number of their digits |
| Currency.DigitLoopIsRight | src/currency/src/server.cpp:182-194 | this is the intended amount if and only if there are no nanos or they have all nine digits |
| Currency.GetUnitsAndNanos | src/currency/src/server.cpp:196-202 | truncating to units and the remainder to nanos is truncating the value to whole nanos: a valid amount less than a nano off |
| Currency.CurrencyService.Convert | src/currency/src/server.cpp:204-241 | computes the conversion from a known currency and makes the target code a supported one |
| Currency.UnknownTargetGivesNothing | src/currency/src/server.cpp:233-240 | converting to an unknown currency gives zero of it |
| Currency.ExchangeByCrossMultiplying | src/currency/src/server.cpp:234-239 | the exchanged amount is the one that relates to the target rate as the amount does to its own rate |
| Currency.ConversionBound | src/currency/src/server.cpp:230-241 | between known currencies the result is valid Money of the target currency; it is the x with x times the source rate equal to the amount as the digit loop reads it times the target rate, truncated toward zero with an error below a nano, and when the digit loop is right, the same for the intended amount |
| Currency.OneTruncation | src/currency/src/server.cpp:196-202 | there is only one valid amount that truncates a value in this sense |
| Currency.TenEuros | src/currency/src/server.cpp:230-241 | ten euros convert to 11 dollars and 305 thousandths |
| Currency.PricesStayPrices | src/currency/src/server.cpp:230-241 | a valid amount that is not negative converts to one, as checkout's totals assume |
| Currency.SameCurrencyIsIdentity | src/currency/src/server.cpp:204-241 | converting a valid amount to its own currency gives it back if and only if the digit loop is right about it |
| Recommendation.CommaSeparatedIdsAreNamed | src/recommendation/recommendation_server.py:73-75 | a comma-separated text names its ids in whatever pieces it arrives |
| Recommendation.SeparateIdsAreGlued | src/recommendation/recommendation_server.py:73-75 | ids without commas sent as separate strings become one token, which names all of them if and only if there is one id or all are empty |
| Recommendation.AdmissibleIsSampled | src/recommendation/recommendation_server.py:99-109 | an answer can be sampled from a listing of the remaining products if and only if it is distinct, taken from these, and of size min(5, number of them) |
| Recommendation.RecommendationService.GetProductList | src/recommendation/recommendation_server.py:67-113 | answers admissibly from the pool of the query and leaves exactly the cache it should; it fails if and only if the catalog was asked and failed |
| Recommendation.CacheHoldsWhatWasFetched | src/recommendation/recommendation_server.py:78-88 | after any history the cache holds the ids of all catalogs ever fetched, removed products too, and nothing else |
| Recommendation.CacheAgreesWithCatalog | src/recommendation/recommendation_server.py:78-96 | with a constant, non-empty catalog a query chooses from exactly the catalog's products if and only if it does not read the cache or some fetch has succeeded; otherwise it recommends nothing |
| Recommendation.AnswersAgree | src/recommendation/recommendation_server.py:78-109 | once filled, the cache changes nothing about which answers are admissible |
| Recommendation.CacheGrowsExponentially | src/recommendation/recommendation_server.py:85-86 | with every fetch of at least one product the cache's length plus two grows at least by a quarter |
| Recommendation.CacheExceedsEveryBound | src/recommendation/recommendation_server.py:85-86 | for every bound there is a number of fetches after which the cache is longer |
| Recommendation.FillsCounts | src/recommendation/recommendation_server.py:78-86 | the fetches counted there are the queries that fetched at least one product |
| Replay.UnwrapSays | src/agent/src/agents/patch_vcr.py:124-134 | a tool result unwraps to the one text in which every block stands at its place and nothing else does |
| Replay.BlocksJoin | src/agent/src/agents/patch_vcr.py:124-134 | blocks unwrap to their texts one after another, and one block to what it says as plain text |
| Replay.SimilarityTellsTurns | src/agent/src/agents/patch_vcr.py:156-190 | with a text ratio that is 1 only for equal texts, similarity is 1 if and only if both requests have equally many messages, equal ones apart from tool results, and tool results of equal role and rest whose whole texts are the same however they are wrapped, or are the same other body |
| Replay.NewestMessageDecides | src/agent/src/agents/patch_vcr.py:184-190 | at the default threshold of 0.85 a newest message less than three quarters alike never matches, and an equal one matches if and only if the conversations are at least five eighths alike |
| Replay.Cassette.PlayResponse | src/agent/src/agents/patch_vcr.py:230-254 | plays the first of the best unplayed entries within the threshold and counts it, or fails and changes nothing if there is none; an entry whose score raises scores nothing |
| Replay.PickIsFirstBest | src/agent/src/agents/patch_vcr.py:233-245 | the pick is the unplayed entry that scores enough and that every other unplayed one scores below, or equals and comes later |
| Replay.PlayedOnce | src/agent/src/agents/patch_vcr.py:233-247 | for arbitrary scores no entry is ever played twice, and its count says whether it was played |
| Replay.TurnsDoNotMix | src/agent/src/agents/patch_vcr.py:156-181 | with a positive threshold a chat is never answered from one with another number of messages |
| Replay.RepliesInRecordedOrder | src/agent/src/agents/patch_vcr.py:230-254 | for any exact score and any threshold up to 1, live requests that do not outnumber the recorded ones of their turn all succeed, each answered by the entry of its own turn with the same place in recorded order |
| Replay.AgentRepliesInRecordedOrder | src/agent/src/agents/patch_vcr.py:156-254 | the same for the agent's own similarity and any threshold up to 1 |
| Replay.PermutationPlaysEverything | src/agent/src/agents/patch_vcr.py:230-254 | replaying any permutation of what was recorded plays every entry |
| Replay.ExactReplayCompletes | src/agent/src/agents/patch_vcr.py:230-254 | with a threshold of 1 a replay succeeds throughout if and only if no turn is asked for more often than it was recorded |

## Left out

- Telemetry, logging, start-up, health checks, user interfaces and the wire transports: no state that the modelled results depend on. Remote calls are steps that succeed, fail, or take effect without an answer; messages may be lost, duplicated and redelivered.
- The JSON form of messages (`fromJSON`, `toJSON`): field by field, without interaction between fields.
- Wire type 3 (groups) and malformed UTF-8: strings are byte sequences, as the modelled encoders only write what they are given; a group makes the model's decoder fail.
- Codec.Decode: one decoder for all message types, over a schema, in place of one generated decoder for each; submessages are decoded as values, not as objects shared with the caller.
- JsonTree.SetPath: works on values, so it does not capture update in place or aliasing; the original makes a deep copy before it assigns, so nothing is shared there either.
- JsonTree.GetPath: path parts are keys and natural numbers; negative indices and indexing into strings are not modelled.
- BankParser.ParseBank: the parts of a scenario that are only displayed are checked but not kept, the wording, places and number of complaints are not specified, and a negative path index, which the original lets through, is refused.
- FlagSession.FlagManager.WriteLive: a request that takes effect only after the call has ended is not modelled, nor are a corrupted recovery file and the bank, scenario and time recorded with a session.
- MoneyArithmetic.SumValid: sums that overflow an int64 are outside it; SumConserves covers them.
- Currency.CurrencyService.Convert: exact reals instead of IEEE doubles; an unknown source currency, for which the original divides by zero, and values beyond an int64 are outside it.
- Shipping's quote: any localized amount, or a failure; shipping's own sum over the items is not modelled. Order ids, tracking ids and the payment card are inputs; that ids are unique is assumed only where stated.
- Ledger.Consumer.ProcessMessage: one `SaveChanges` is atomic and the primary keys are as declared; connection handling is an input that says whether the database was up.
- Recommendation.RecommendationService.GetProductList: the random draw and the sampler are inputs.
- Replay.Similarity: the text ratio of `SequenceMatcher` is an abstract function between 0 and 1; recording and cleaning responses are not modelled.
- `choose_scenario`, the progress store, the other services and generated stubs: only easy properties.
