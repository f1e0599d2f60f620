# Planwise: verified model of the billing, locking and data rules

A Dafny model of the parts of Planwise whose correctness is not visible from reading one function, with proofs
about all inputs, all runs or all reachable states. `dafny verify dfyconfig.toml` checks everything.

**Invoicing a quote.** An accepted quote is invoiced by any mix of full invoices, deposits, progress situations
(a cumulative percent, or an amount) and balances, each bounded by what remains; drafts are finalized, paid or
cancelled; issued invoices are corrected by credit notes; and one CRM status is derived from all of it.
`Money.dfy` is the arithmetic (numbers are reals, stored amounts are whole cents, rounding is half-up),
`Invoicing.dfy` and `InvoiceLines.dfy` the rules for one invoice and its lines, `InvoicingLaws.dfy` when each request
is accepted and for how much, `CaseBilling.dfy` the state machine and the ledger class that stores the invoices,
`CaseEffects.dfy` what each operation does to them, `CaseBillingSafety.dfy`, `CaseProgressSafety.dfy`,
`CaseStatusSafety.dfy`, `CaseRankSafety.dfy` and `CreditSafety.dfy` what every run keeps, `UsageLines.dfy` the lines
prefilled from consumptions.

The main result is that no run over-invoices a quote, net of credit notes, and the exact condition for it. A quote
must have a positive total that rounding does not raise, and lines that sum, once rounded, to at least a cent and at
most that total (`SafeQuote`). The condition is necessary (`SafeQuoteIsExact`), and the application can violate it:
a full invoice is billed for the rounded sum of the lines, not for the quote total, which is the sum of the
rounded lines, before the unit prices are cut to two decimals (`MappedQuoteCanBeUnsafe`: a quote of 9.99 whose full
invoice is 10.00; `CutPriceCanBeUnsafe`: one of 125.00 whose full invoice is 130.00; `MappedQuoteIsSafeExactly` says
which quotes are safe).

The net total is not enough to bound single invoices: credit notes are not capped, and what was credited too much can
be billed again (`RepeatedCreditIsBilledAgain`: a quote of 100.00 takes an invoice of 200.00). Runs whose credits are
covered by what is issued on the quote keep the engaged total and every single invoice between zero and the quote
total (`SafeQuoteBoundsExactly`), and that is the guard that keeps the net issued amounts from falling below zero
(`NetStaysSoundExactly`).

**The migration lock.** `MigrationLock.dfy` is the lease protocol of the migrations as a state machine: any
number of processes, one clock, every interleaving, lost replies and crashes included. A process reports success
exactly when it took the lock, its migrations succeeded under it, and it released it (`SucceedsExactly`).

**The CSV conversion.** `Csv.dfy` holds the reader, the column mapping, the writer and the chunker;
`CsvRoundTrip.dfy` proves that reader and writer undo each other on what flows through, `CsvConversion.dfy` which
cell of which line ends up under which target column. The format is a `;`
dialect of section 2 of RFC 4180, without line breaks inside quotes. `JsText.dfy` holds `trim`, `split` and `join`.

**The navigation history.** `NavigationHistory.dfy` holds the parser, the update and the stored state;
`NavigationRefinement.dfy` proves that the stored list is the first fifty entries of an unbounded list,
`NavigationLaws.dfy` what its entries say of the visits as they are reported.

**Calendar colours.** `CalendarColors.dfy` mixes and clamps colours and proves the choice of the text colour,
`CalendarContrast.dfy` the contrast ratio of text and background, both with the relative luminance and the contrast
ratio defined in section 6 of WCAG 2.1. The power 2.4 is any non-negative function `pow` with
`pow(x)^5 = x^12`.

**Smaller rules.** `ReportingPeriod.dfy` is the default reporting period and its validation over the Gregorian
calendar (the rollover of Date, section 21.4.1 of ECMA-262), `HostRouting.dfy` the redirects between hosts,
`TeamRanking.dfy` the ranking of teams by distance.

## Model

| member | source | states |
|---|---|---|
| Money.Round2Error | packages/shared/src/integrations.ts:533-535 | rounding is off by at most half a cent, and by exactly half only upwards |
| Money.CentsShift | packages/shared/src/integrations.ts:533-535 | whole cents pass through rounding unchanged, whatever is rounded beside them |
| Invoicing.SelectedSumIsExact | packages/shared/src/integrations.ts:422-450 | filtering, summing in euros and rounding gives exactly the sum of the stored cents |
| Invoicing.RemainingIsExact | packages/shared/src/integrations.ts:452-454 | against stored amounts, the remaining amount is exactly the rounded quote total less the engaged cents, never below zero |
| Invoicing.SituationReachesTarget | packages/shared/src/integrations.ts:481-521 | an accepted situation at p percent is for at least a cent and brings the engaged total to exactly the rounded share p, within the quote |
| Invoicing.SituationNeverExceedsRemaining | packages/shared/src/integrations.ts:510-515 | the "exceeds the remaining amount" failure of a percent situation is unreachable when quote total or engaged total is in whole cents |
| Invoicing.SituationExceedsRemainingExactly | packages/shared/src/integrations.ts:510-515 | for engaged totals of any precision, which no caller supplies since all pass rounded sums, that failure can occur on exactly the quotes whose total rounds up |
| Invoicing.AmountRequestsAreExact | packages/shared/src/integrations.ts:621-666 | a deposit or situation by amount is accepted exactly for one cent up to the remaining amount, or from one cent on a quote without amount, and is billed for that amount |
| Invoicing.BalanceTakesTheRemainder | packages/shared/src/integrations.ts:604-619 | a balance is accepted exactly when a cent remains, takes all of it, and leaves nothing |
| Invoicing.AcceptedStaysWithinCap | packages/shared/src/integrations.ts:572-711 | on a safe quote every accepted request, of any kind, is for at least a cent and stays within the quote total |
| Invoicing.AcceptedAmountsBoundedExactly | packages/shared/src/integrations.ts:572-711 | on a safe quote no acceptable request is for more than the quote total exactly as long as the engaged total is not below zero |
| Invoicing.ClosedQuoteRefusesEverything | packages/shared/src/integrations.ts:572-711 | once the whole quote is engaged, every kind of request is refused |
| InvoicingLaws.RequestIsAcceptedExactly | packages/shared/src/integrations.ts:572-711 | each kind of request is accepted exactly under a condition on its own figures, and billed for a stated number of cents |
| InvoicingLaws.SituationIsAcceptedExactly | packages/shared/src/integrations.ts:481-521 | a situation at p percent is accepted exactly for 0 < p <= 100 on a positive quote, p more than 0.009 above the engaged percent, and a target at least a cent above the engaged total; it is billed for the difference and keeps p |
| InvoicingLaws.SituationIsAcceptedByHundredths | packages/shared/src/integrations.ts:493-509 | for percents of two decimals that means above the engaged percent rounded to two decimals |
| InvoicingLaws.OneLineForTheAmount | packages/shared/src/integrations.ts:604-666 | deposits, balances and situations by amount have one line: once the amount, at a rate the quote uses and no other outweighs |
| InvoicingLaws.AmountStandsForShare | packages/shared/src/integrations.ts:523-531 | a situation by amount stores the percent the quote then stands at, to the hundredth and at most 100 |
| Invoicing.ComputeDominantTva | packages/shared/src/integrations.ts:713-729 | the two loops over an insertion-ordered map find the rate of the specification |
| Invoicing.DominantTvaIsMaximal | packages/shared/src/integrations.ts:713-729 | the rate is one the quote uses and no other rate carries a larger total; 20 % exactly for no lines or totals at or below -1 |
| InvoiceLines.LinesSumToAmount | packages/shared/src/integrations.ts:592-697 | except for a situation by percent, the lines of an accepted invoice sum to its stated amount to the cent |
| InvoiceLines.ProrationDrift | packages/shared/src/integrations.ts:670-680 | scaling and rounding the quantities drifts by at most half a hundredth per unit price |
| InvoiceLines.SituationLinesDrift | packages/shared/src/integrations.ts:668-680 | prorated lines stay within 0.005·Σ\|price\| plus the invoiced share of the gap between quote total and lines, and half a cent more once recomputed |
| InvoiceLines.RecomputedHtDrift | packages/shared/src/billing.ts:231-243 | the recomputed total before VAT is the rounded line sum, within half a cent |
| InvoiceLines.TtcDrift | packages/shared/src/billing.ts:226-243 | rounding every line twice costs the total including VAT at most 1.1 cents a line |
| InvoiceLines.RecomputedTtcDrift | packages/shared/src/billing.ts:231-243 | the recomputed total including VAT is within 1.1 cents a line of the exact one |
| InvoiceLines.CreditNoteLinesDrift | packages/shared/src/billing.ts:245-272 | a credit is accepted exactly from one cent to the original amount, and its lines sum to minus the credit within 0.005·Σ\|quantity\| plus the credited share of the gap between original lines and amount |
| InvoiceLines.FullCreditCancels | packages/shared/src/billing.ts:245-272 | a full credit negates every unit price exactly; the recomputed totals cancel, or leave one cent exactly on a half-cent tie |
| InvoiceLines.RoundedNegation | packages/shared/src/billing.ts:231-243 | rounding x and -x half-up leaves one cent exactly on a half-cent tie |
| InvoiceLines.MappedQuoteDrift | services/api/src/domain/cases/mappers/quote.mapper.ts:4-27 | the quote total differs from the sum of its invoice lines by at most half a cent a line and half a cent per unit of quantity |
| InvoiceLines.MappedQuoteIsSafeExactly | services/api/src/domain/cases/mappers/quote.mapper.ts:4-27 | for unit prices of any precision, a quote is safe exactly when its invoice lines sum, rounded, to a cent or more and to no more than its own rounded lines |
| InvoiceLines.CutPriceCanBeUnsafe | services/api/src/domain/billing.gateway.service.ts:369-375 | cutting the unit price to two decimals can raise the full invoice above the quote: 130.00 against 125.00 |
| InvoiceLines.MappedQuoteCanBeUnsafe | services/api/src/domain/cases/mappers/quote.mapper.ts:54-55 | a quote total can be below what its full invoice is billed for: 9.99 against 10.00 |
| CaseBilling.CaseLedger.constructor | services/api/src/domain/billing.gateway.service.ts:361-365 | a case with accepted quotes starts without invoices, to be invoiced |
| CaseBilling.CaseLedger.CreateInvoice | services/api/src/domain/billing.gateway.service.ts:361-428 | creation appends exactly the invoice the rules build from the stored invoices, or changes nothing |
| CaseBilling.CaseLedger.FinalizeInvoice | services/api/src/domain/billing/invoices.service.ts:168-179 | exactly a draft is finalized; that status is all that changes among the invoices; the status of the case is recomputed |
| CaseBilling.CaseLedger.MarkInvoicePaid | services/api/src/domain/billing/invoices.service.ts:181-190 | exactly an issued invoice becomes paid; that status is all that changes among the invoices; the status of the case is recomputed |
| CaseBilling.CaseLedger.CancelInvoice | services/api/src/domain/billing/invoices.service.ts:192-210 | exactly a draft is cancelled; that status is all that changes among the invoices; the status of the case is recomputed |
| CaseBilling.CaseLedger.CreditInvoice | services/api/src/domain/billing/invoices.service.ts:212-237 | only an issued invoice is credited, by appending a finalized credit note on the same quote |
| CaseBilling.CaseLedger.RecomputeBillingStatus | services/api/src/domain/billing.gateway.service.ts:457-479 | the stored status moves to the aggregated one only upwards, from "to invoice", or from draft to partial |
| CaseEffects.CreateTakesEffect | services/api/src/domain/billing.gateway.service.ts:361-428 | a creation succeeds exactly on a case to be invoiced and a quote with lines that can take the request; one invoice of that quote, kind, status and amount is added |
| CaseEffects.FinalizeTakesEffect | services/api/src/domain/billing/invoices.service.ts:168-179 | finalizing succeeds exactly on drafts and changes that one status; a refusal changes nothing |
| CaseEffects.MarkPaidTakesEffect | services/api/src/domain/billing/invoices.service.ts:181-190 | paying succeeds exactly on issued invoices and makes that invoice paid, changing nothing else; a refusal changes nothing |
| CaseEffects.CancelTakesEffect | services/api/src/domain/billing/invoices.service.ts:192-210 | cancelling succeeds exactly on drafts and changes that one status; a refusal changes nothing |
| CaseEffects.CreditTakesEffect | services/api/src/domain/billing/invoices.service.ts:212-237 | crediting succeeds exactly on issued invoices, for a cent up to their amount, and adds one final credit note of minus that amount on the same quote |
| CaseEffects.InvoicesAreKept | services/api/src/domain/billing/invoices.service.ts:168-237 | over every run each invoice keeps its place, amount, lines and number, and its status only moves from draft to finalized to paid, or from draft to cancelled |
| CaseEffects.PayingAllSettlesExactly | services/api/src/domain/billing.gateway.service.ts:457-479 | paying every issued invoice in turn pays them all, and the case is stored as paid in full exactly when something was issued, no draft is left and the issued invoices cover the quotes |
| CaseEffects.StoredStatusNeverFalls | services/api/src/domain/billing.gateway.service.ts:471-478 | over every run, cancellations and credits included, the stored status never steps down |
| CaseEffects.CreatedLinesMatch | packages/shared/src/integrations.ts:572-711 | the stored lines are the quote's for a full invoice, and otherwise recompute to the stored amount to the cent, or within the drift of proration for a situation by percent, whose percent is stored |
| CaseEffects.CreditLinesMatch | packages/shared/src/billing.ts:245-272 | a credit note repeats quantities and rates of its original, and its lines sum to its amount within the drift of the unit prices |
| CaseEffects.NextNumberFollowsLast | packages/shared/src/integrations.ts:538-557 | situation numbers start at 1 and leave no gap after the last active one |
| CaseBillingSafety.StepKeepsCaps | packages/shared/src/integrations.ts:422-454 | every operation keeps the invariant that each quote is engaged within its rounded total |
| CaseBillingSafety.NoOverInvoicing | packages/shared/src/integrations.ts:572-711 | over every run of creations, finalizations, payments, cancellations and credits on safe quotes, no quote is invoiced, net of credit notes, beyond its total and no invoice is below a cent |
| CaseBillingSafety.UnsafeQuoteIsOverInvoiced | packages/shared/src/integrations.ts:586-602 | on any other quote with lines, one request without any credit already over-invoices it or issues an invoice below a cent |
| CaseBillingSafety.SafeQuoteIsExact | packages/shared/src/integrations.ts:572-711 | a quote with lines is never over-invoiced, net of credit notes, by any run if and only if it is safe |
| CreditSafety.StepKeepsNetExactly | services/api/src/domain/billing/invoices.service.ts:212-237 | an operation keeps the net issued amount of every quote at zero or above exactly when it is not a credit of more than that amount |
| CreditSafety.NetStaysSoundExactly | services/api/src/domain/billing/invoices.service.ts:212-237 | over a whole run the net issued amounts stay at zero or above exactly when every accepted credit is covered in that sense |
| CreditSafety.EngagedSurvivesCancelsExactly | services/api/src/domain/billing/invoices.service.ts:192-210 | the engaged total stays at zero or above under every series of cancellations exactly when the net issued amount is |
| CreditSafety.CoveredRunsStayInBounds | packages/shared/src/integrations.ts:572-711 | over every run on safe quotes with covered credits, the engaged total and every single invoice stay between zero and the quote total in cents |
| CreditSafety.SafeQuoteBoundsExactly | packages/shared/src/integrations.ts:572-711 | a quote with lines keeps net total, engaged total and every single invoice within its total in every run with covered credits if and only if it is safe |
| CreditSafety.RepeatedCreditIsBilledAgain | services/api/src/domain/billing/invoices.service.ts:212-237 | a deposit credited in full n times makes room for a balance of the quote total plus n - 1 deposits, while the net total stays within the quote |
| CreditSafety.FullCreditDoesNotReopen | services/api/src/domain/billing.gateway.service.ts:473-478 | after a full invoice and a full credit, all of the quote remains and every request is refused for ever |
| CaseProgressSafety.SituationTelescopes | packages/shared/src/integrations.ts:481-521 | after an accepted percent situation, the engaged total of the quote is exactly round2(total·p/100), whatever came before |
| CaseProgressSafety.PercentsIncrease | packages/shared/src/integrations.ts:493-500 | from any case, accepted percents of one quote strictly increase while nothing is cancelled or credited, if its lines do not sum below zero or the first situation leaves a cent engaged |
| CaseProgressSafety.PercentsIncreaseExactly | packages/shared/src/integrations.ts:493-500 | for every quote and first percent that condition is exact over the reachable cases: without it some run of drafts from a new case has the same percent accepted twice |
| CaseProgressSafety.TwoSituationsAreAccepted | packages/shared/src/integrations.ts:640-697 | the results above speak of runs that exist: 30 % and then 60 % of a quote of 100.00 are both accepted and engage 60.00 |
| CaseBillingSafety.BalanceClosesTheQuote | packages/shared/src/integrations.ts:604-619 | a balance is accepted exactly when the case may be invoiced and a cent remains, and then nothing remains |
| CaseBillingSafety.ClosedStaysClosed | packages/shared/src/integrations.ts:583-711 | a closed quote refuses every kind of invoice through any run without cancellation or credit |
| CaseBillingSafety.CancelUndoesCreation | services/api/src/domain/billing/invoices.service.ts:192-210 | cancelling a draft restores the engaged amount of every quote |
| CaseBillingSafety.NextNumberIsFresh | packages/shared/src/integrations.ts:538-557 | the next situation number is positive and above every active one, whatever was cancelled |
| CaseBillingSafety.SituationNumbersAreDistinct | packages/shared/src/integrations.ts:538-557 | over every run the active situation numbers of a quote are positive and pairwise distinct |
| CaseStatusSafety.StatusTable | packages/shared/src/integrations.ts:388-420 | the nine-branch aggregation equals a five-line table once invoices stay within the quotes; the fallback to draft beside issued invoices is unreachable |
| CaseStatusSafety.ActiveIsSumOverQuotes | packages/shared/src/integrations.ts:422-450 | what is engaged on the case is the sum of what is engaged on its quotes |
| CaseStatusSafety.RankNeverFalls | packages/shared/src/case.ts:34-41 | from any reachable case on safe quotes, the rank of the aggregated status never goes down over a run without cancellation or credit |
| CaseRankSafety.FullStatusTable | packages/shared/src/integrations.ts:388-420 | the nine-branch aggregation in closed form for any list of invoices |
| CaseRankSafety.FinalizeLowersRankExactly | packages/shared/src/integrations.ts:413-419 | finalizing a draft lowers the rank exactly when something is issued already, the draft covers all that remains to be issued, and another draft is left |
| CaseRankSafety.IssuingLowersRankExactly | packages/shared/src/integrations.ts:413-419 | an invoice issued at creation lowers the rank exactly in that situation, or when all was issued and paid before |
| CaseRankSafety.DraftingLowersRankExactly | packages/shared/src/integrations.ts:413-419 | a drafted invoice lowers the rank exactly when all was issued before and nothing remained |
| CaseRankSafety.RankNeverFallsExactly | packages/shared/src/case.ts:34-41 | from any case, the rank never goes down over a run without cancellation or credit exactly when no event of the run meets such a guard |
| CaseRankSafety.UnsafeQuoteLowersRank | packages/shared/src/integrations.ts:413-419 | without safe quotes it does: a run of accepted events on quotes of 9.99 and 20.00 sends the case from partially invoiced back to draft |
| CaseStatusSafety.NoDraftOnceCovered | packages/shared/src/integrations.ts:413-419 | in no reachable case does a draft stand beside invoices that already cover the quotes |
| CaseStatusSafety.StoredStatusIsAggregated | services/api/src/domain/billing.gateway.service.ts:471-478 | with one quote and no cancellation or credit, the upgrade-only guard holds nothing back: the stored status is the aggregated one |
| CaseStatusSafety.StatusFollowsExactly | services/api/src/domain/billing.gateway.service.ts:457-479 | through all runs without cancellation or credit the stored status is the aggregated one exactly on cases with a single quote |
| CaseStatusSafety.SecondQuoteIsBarred | services/api/src/domain/billing.gateway.service.ts:131-131 | an issued first invoice for the whole of any one quote marks the case as invoiced and bars every request on every quote, of which nothing else is engaged |
| CaseStatusSafety.BarredForEver | services/api/src/domain/billing.gateway.service.ts:473-478 | a case once marked as invoiced refuses every request after any further events, cancellations and credits included |
| CaseStatusSafety.RemainderIsInvoiceableExactly | services/api/src/domain/billing.gateway.service.ts:361-365 | after any run, what remains of a quote can be invoiced exactly when a cent remains and the case was at no time marked as invoiced |
| UsageLines.InvoiceLinesFromUsages | packages/shared/src/integrations.ts:779-884 | the loop over an insertion-ordered map gives one line per item with its merged quantity, price and rate |
| UsageLines.IdsAreDistinctAndOrdered | packages/shared/src/integrations.ts:796-812 | exactly the items with a counted usage, each once, in order of first use |
| UsageLines.MergedQuantityDrift | packages/shared/src/integrations.ts:850-870 | a merged quantity is within half a hundredth per merged usage of the exact sum |
| UsageLines.WholeQuantitiesMergeExactly | packages/shared/src/integrations.ts:796-812 | quantities in whole hundredths merge exactly |
| UsageLines.MergedIsSumOfRounded | packages/shared/src/integrations.ts:796-812 | rounding after every addition equals adding the rounded usages, so their order is irrelevant |
| UsageLines.QuantityIsPositiveExactly | packages/shared/src/integrations.ts:796-812 | a line has a positive quantity exactly when one usage is half a hundredth or more; smaller ones never add up |
| UsageLines.LinesFollowCatalog | packages/shared/src/integrations.ts:779-884 | one line for each item used more than 0.000001, with the rounded uses, the catalog price to the cent or 0, and the catalog rate before the default one |
| MigrationLock.StepKeepsLeaseHeld | services/api/src/run-migrations.ts:33-53 | every step keeps: a process within its lease owns the lock document, with its expiry |
| MigrationLock.MutualExclusion | services/api/src/run-migrations.ts:33-53 | in every reachable state at most one process runs within its lease, and the lock is its |
| MigrationLock.TimelyRunsNeverOverlap | services/api/src/run-migrations.ts:33-53 | two migration runs that finish before their leases never overlap |
| MigrationLock.OverdueRunCanOverlap | services/api/src/run-migrations.ts:36-45 | the bound is sharp: in every reachable state any run past its lease can be overlapped by any new process, as soon as the lock lets go |
| MigrationLock.HolderIsUndisturbed | services/api/src/run-migrations.ts:38-51 | no step of another process, late update or release, touches the lock of a process within its lease |
| MigrationLock.LockIsFreedByItsOwner | services/api/src/run-migrations.ts:47-51 | in every run, whenever a lock is gone the release of the process that owned it at that moment, after its run ended, removed it |
| MigrationLock.LockStaysUntilExpiry | services/api/src/run-migrations.ts:38-51 | from every reachable state and through every run of other processes, a lock stays as it is until it expires: no late update, and no release of a run that was taken over, touches it |
| MigrationLock.TimelyReleaseFrees | services/api/src/run-migrations.ts:47-51 | a run that ends within its lease frees the lock when it releases at once, and the process then ends as the run did |
| MigrationLock.OutcomeIsPassedOn | services/api/src/run-migrations.ts:46-52 | success or failure of the migrations is what the process ends with once it released the lock, for ever, whatever the others do |
| MigrationLock.DuplicateKeyRetries | services/api/src/run-migrations.ts:46-58 | only a duplicate-key error of the migrations starts another iteration after the release |
| MigrationLock.FailuresArePassedOn | services/api/src/run-migrations.ts:33-60 | a deadline that passed, an update that failed and a release that failed end the process with an error, for ever |
| MigrationLock.SucceedsExactly | services/api/src/run-migrations.ts:33-60 | over every run a process ends with success exactly when it took the lock, ran under it until its migrations succeeded, and released it |
| MigrationLock.PollingTerminates | services/api/src/run-migrations.ts:31-60 | under every interleaving a process polls at most 300 times and takes at most 1802 steps |
| MigrationLock.WaiterAcquires | services/api/src/run-migrations.ts:31-58 | a lone waiter behind a crashed holder, late by any lags of at most 14.8 s an iteration, acquires within the rest of the lease, one 400 ms poll and twice the lag, before its 120 s deadline |
| MigrationLock.WaiterAcquiresExactly | services/api/src/run-migrations.ts:31-58 | 14.8 s is the largest lag with which every waiter acquires from every reachable state; one millisecond more and some waiter misses its deadline |
| Csv.SplitCsvLine | apps/frontend/lib/data-import-convert.ts:9-33 | the quote-aware loop computes the recursive reader |
| Csv.ParseFlexibleCsv | apps/frontend/lib/data-import-convert.ts:35-60 | the row loops compute the specified headers, rows and separator |
| Csv.ApplyMappingToRows | apps/frontend/lib/data-import-convert.ts:62-75 | every row is mapped key by key, trimmed, empty when unmapped |
| Csv.BuildPlanwiseCsv | apps/frontend/lib/data-import-convert.ts:77-87 | the line loop prints the specified text |
| Csv.ChunkRows | apps/frontend/lib/data-import-convert.ts:90-98 | the slicing loop computes the specified chunks |
| CsvRoundTrip.EscapedCell | apps/frontend/lib/data-import-convert.ts:78-81 | any value, quotes and separators included, is escaped so that the reader gives it back whole |
| CsvRoundTrip.QuotedExactly | apps/frontend/lib/data-import-convert.ts:78-81 | a value is written as it is exactly when it holds no separator, quote or line feed |
| CsvRoundTrip.ParseOfPrint | apps/frontend/lib/data-import-convert.ts:35-87 | reading a printed text gives back header, separator and rows, except rows that a single empty column made blank |
| CsvRoundTrip.ParsedValuesAreClean | apps/frontend/lib/data-import-convert.ts:40-58 | every value read from any text is trimmed and free of line breaks |
| CsvRoundTrip.ChunksOfPartition | apps/frontend/lib/data-import-convert.ts:90-98 | chunking splits the rows in order, every chunk but the last being full |
| CsvRoundTrip.ConversionRoundTrip | apps/frontend/lib/data-import-convert.ts:35-126 | for any text: parse, map, print in parts, read the parts back gives the mapped rows; no part is too long and the counts add up |
| CsvRoundTrip.ConversionLosesNothingExactly | apps/frontend/lib/data-import-convert.ts:44-126 | no row is lost exactly when there are two columns or more, or no value of the only one is empty |
| CsvRoundTrip.RowIsByPosition | apps/frontend/lib/data-import-convert.ts:53-56 | with distinct headers every header gets the cell at its position |
| CsvRoundTrip.ColumnIsShifted | apps/frontend/lib/data-import-convert.ts:49-56 | with distinct names, a column is read from as many cells too early as there are empty headers before it |
| CsvRoundTrip.EmptyHeaderShiftsColumns | apps/frontend/lib/data-import-convert.ts:49-56 | a named column is read from its own position in every line exactly when no empty header stands before it |
| CsvConversion.MappedRowSays | apps/frontend/lib/data-import-convert.ts:44-75 | under a target column, row i holds the cell of the mapped column in line i + 1, less the shift by unnamed columns, and nothing past the last cell or without a mapping |
| CsvConversion.ConversionByCells | apps/frontend/lib/data-import-convert.ts:35-126 | for any text with distinct names, the parts read back hold one row for each line after the header, each with the cells the mapping names, less the rows a single empty column made blank |
| CsvConversion.WideConversionByCells | apps/frontend/lib/data-import-convert.ts:35-126 | with two target columns or more, row i read back holds exactly the mapped cells of line i + 1 |
| CsvConversion.SeparatorIsDetected | apps/frontend/lib/data-import-convert.ts:3-7 | a header line of two columns or more is read with the separator it was written with, comma or semicolon |
| CsvConversion.TextsReadAlike | apps/frontend/lib/data-import-convert.ts:36-43 | a text reads alike with any of the three line breaks, and with or without a byte order mark |
| CsvConversion.BlankLinesAreSkipped | apps/frontend/lib/data-import-convert.ts:40-44 | a line of white space changes nothing, wherever it stands |
| NavigationHistory.ParseNavigationHistory | packages/shared/src/navigation-history.ts:39-60 | the loop with its set of seen pages computes the specified list |
| NavigationHistory.HistoryStore.Read | apps/frontend/lib/navigation-history.ts:27-39 | reading parses what is stored; nothing when unavailable or unreadable |
| NavigationHistory.HistoryStore.Write | apps/frontend/lib/navigation-history.ts:41-56 | writing stores the parsed entries under the key of user and organization only |
| NavigationHistory.HistoryStore.Record | apps/frontend/lib/navigation-history.ts:58-78 | recording reads, applies the visit and writes; every other history is untouched |
| NavigationRefinement.MostRecentIsByLatestVisit | packages/shared/src/navigation-history.ts:62-65 | the unbounded list holds exactly the visited pages, each once with its latest time, latest visit first |
| NavigationRefinement.TruncateThenDrop | packages/shared/src/navigation-history.ts:75-79 | cutting to fifty before moving a page to the front loses nothing |
| NavigationRefinement.ParseKeepsMarks | packages/shared/src/navigation-history.ts:39-60 | parsing and sorting a proper history again keeps pages, times and order |
| NavigationRefinement.HistoryIsMostRecent | apps/frontend/lib/navigation-history.ts:58-78 | after any visits in order of time, the stored history is the first fifty entries of the unbounded list |
| NavigationRefinement.SortIsPermutation | packages/shared/src/navigation-history.ts:59-59 | the sort rearranges the entries by decreasing time |
| NavigationRefinement.ParsedIsHistory | packages/shared/src/navigation-history.ts:39-60 | whatever is stored, reading gives at most fifty distinct pages by decreasing time, each from a stored item |
| NavigationRefinement.VisitIsRecordedExactly | packages/shared/src/navigation-history.ts:66-80 | after a visit its page is in the history exactly when the visit does not come with an unreadable time; one that does also removes the earlier entry |
| NavigationLaws.EntriesTellLatestVisits | packages/shared/src/navigation-history.ts:66-80 | after any visits, however dated, each entry carries the label of the latest visit of its page, cut at 120 characters, and its time: the one given, or else the clock's |
| NavigationLaws.HistoryShowsLatestPages | apps/frontend/lib/navigation-history.ts:58-78 | when the visits are dated in order, the history shows the pages by decreasing latest visit, all of them or the fifty latest |
| NavigationLaws.ReportedVisitsAreKept | apps/frontend/components/dashboard/NavigationHistoryTracker.tsx:50-55 | visits reported without a time, by a clock that does not run backwards, are all kept up to fifty pages, each with the clock's time at its latest visit |
| NavigationLaws.RecordedVisitTells | packages/shared/src/navigation-history.ts:66-80 | whatever is stored, a visit without an unreadable time is in the history, with its own label and the time given or else the clock's |
| NavigationLaws.LatestVisitIsLast | packages/shared/src/navigation-history.ts:70-71 | the latest visit of a page is the last one whose trimmed page it is |
| NavigationRefinement.StorageKeysAreDistinct | packages/shared/src/navigation-history.ts:24-26 | as long as user ids hold no colon, keys agree exactly when user and organization do |
| CalendarColors.NormalizedIsNormal | apps/frontend/lib/team-calendar-colors.ts:55-67 | an accepted colour is # and six upper-case hex digits, and normalizing it again changes nothing |
| CalendarColors.SpelledColor | apps/frontend/lib/team-calendar-colors.ts:55-77 | six hex digits in either case are three bytes, three digits are bytes of two equal digits, any other number of digits is no colour |
| CalendarColors.ClampDarkBackground | apps/frontend/lib/team-calendar-colors.ts:104-118 | the loop ends with luminance at most 0.32 after at most one round |
| CalendarColors.ClampStopsByLuminance | apps/frontend/lib/team-calendar-colors.ts:104-118 | for every colour the luminance, never the guard, is why the clamp stops |
| CalendarColors.DarkModeIsReadable | apps/frontend/lib/team-calendar-colors.ts:121-143 | in dark mode every input gives a background within the cap and light text, and a valid colour is only mixed once |
| CalendarColors.LightModeIsReadable | apps/frontend/lib/team-calendar-colors.ts:121-143 | in light mode every input gives a background above one half and dark text; a valid colour is taken 24 % of the way from white |
| CalendarContrast.DarkBackgroundIsDim | apps/frontend/lib/team-calendar-colors.ts:130-134 | the weight chosen from the colour's luminance keeps every dark background at 0.165 or below |
| CalendarContrast.DarkModeContrast | apps/frontend/lib/team-calendar-colors.ts:121-143 | in dark mode every input gives text and background a contrast ratio of at least 4.5 |
| CalendarContrast.LightModeContrast | apps/frontend/lib/team-calendar-colors.ts:121-143 | in light mode every input gives text and background a contrast ratio of at least 7 |
| ReportingPeriod.NumbersFollowOrder | packages/shared/src/reporting-period.ts:56-63 | comparing dates by time is the calendar order, and equal times are equal dates |
| ReportingPeriod.RolloverKeepsNumber | packages/shared/src/reporting-period.ts:33-34 | a day past the end of its month becomes the real day with the intended number |
| ReportingPeriod.DateValue.SetMonth | packages/shared/src/reporting-period.ts:34-34 | setting the month in place rolls over to a real day, years included |
| ReportingPeriod.DateValue.SetFullYear | packages/shared/src/reporting-period.ts:59-60 | setting the year in place rolls 29 February over to 1 March |
| ReportingPeriod.ParseAcceptsRealDatesExactly | packages/shared/src/reporting-period.ts:12-18 | the parser accepts exactly the texts of real Gregorian dates and undoes them |
| ReportingPeriod.ParseOfIsoText | packages/shared/src/reporting-period.ts:12-18 | every real date of years 0000 to 9999 is read back from its text |
| ReportingPeriod.CheckReportingPeriod | packages/shared/src/reporting-period.ts:42-65 | the in-place computation gives the specified error |
| ReportingPeriod.AcceptedPeriods | packages/shared/src/reporting-period.ts:42-65 | a period, trimmed or not, present or not, is accepted exactly for two real dates in order, the second at most the same day two years after the first, or 1 March for 29 February |
| ReportingPeriod.RefusalsAreExact | packages/shared/src/reporting-period.ts:42-65 | which of the four errors is given: exactly when a text is blank, when one is no real date, when the dates are reversed, when they are more than two years apart |
| ReportingPeriod.ComputeDefaultReportingPeriod | packages/shared/src/reporting-period.ts:28-36 | the two dates changed in place give the specified period |
| ReportingPeriod.DefaultPeriodSpansPreviousMonth | packages/shared/src/reporting-period.ts:28-36 | the default period spans exactly as many days as the preceding month has, month-end rollover included |
| ReportingPeriod.DefaultPeriodAcceptedExactly | packages/shared/src/reporting-period.ts:20-65 | the validator accepts the default period exactly from 1 February 1000 to 31 December 9999 |
| HostRouting.FollowingIsHop | apps/frontend/lib/host-routing.ts:95-163 | the browser reads every redirect back into host, path and query; www, marketing and app hops keep path and query |
| HostRouting.MarketingHostServesNinePages | apps/frontend/lib/host-routing.ts:147-160 | the marketing host serves nine pages and redirects every other path to the app for good; exactly the redirects of the marketing and www hosts are permanent |
| HostRouting.CaseAndPortDoNotMatter | apps/frontend/lib/host-routing.ts:95-163 | neither the case of the requested host nor a port changes the answer |
| HostRouting.LocalHostsAreServed | apps/frontend/lib/host-routing.ts:53-56 | localhost and 127.0.0.1, with or without a port, are never redirected |
| HostRouting.ConfiguredHostsAreTrimmed | apps/frontend/lib/host-routing.ts:10-20 | a configured host is used less the white space around it; a missing or blank one gives the built-in host |
| HostRouting.HopsDescend | apps/frontend/lib/host-routing.ts:95-163 | on acyclic hosts every redirect lowers a measure over www, marketing, app and backoffice |
| HostRouting.RedirectsEndExactly | apps/frontend/lib/host-routing.ts:95-163 | for lower-case, port-free, non-local hosts, every request is served within three redirects exactly when the hosts are acyclic (pairwise distinct hosts are); otherwise some request is redirected for ever |
| HostRouting.VisitorsLandWhereDocumented | apps/frontend/lib/host-routing.ts:87-94 | with distinct hosts every visitor is served the documented page of the documented host |
| HostRouting.ThreeRedirectsAreNeeded | apps/frontend/lib/host-routing.ts:95-163 | a platform page asked of the www host takes all three redirects |
| HostRouting.DefaultsArePlainAndDistinct | apps/frontend/lib/host-routing.ts:2-20 | the built-in hosts meet the requirements of the results above |
| TeamRanking.RankTeamsForCustomerSite | apps/frontend/lib/team-route-insights.ts:103-196 | the loop over the teams gives the specified ranking |
| TeamRanking.RoadKmFollowsBirdKm | apps/frontend/lib/team-route-insights.ts:139-159 | the road distance is 1.18 times the distance as the crow flies to the tenth of a kilometre, and keeps its order |
| TeamRanking.RankingIsPermutation | apps/frontend/lib/team-route-insights.ts:172-190 | the ranking holds exactly the teams, each with its own score, ranked 1 to n |
| TeamRanking.RankingIsByDistance | apps/frontend/lib/team-route-insights.ts:181-190 | located teams appear in non-decreasing distance, and a top pick is first and a nearest located team |
| TeamRanking.ScoresInRange | apps/frontend/lib/team-route-insights.ts:169-179 | scores of located teams lie in [45, 100], 45 for the farthest; they are not numbers exactly when every located team is at distance 0 |
| TeamRanking.ScoreMeaning | apps/frontend/lib/team-route-insights.ts:175-176 | a located team scores 100 - 55 times its share of the largest distance, to the nearest whole number, so at least as much as a team not found exactly up to 50.5/55 of it |
| TeamRanking.SortOfEqualsIsStable | apps/frontend/lib/team-route-insights.ts:181-184 | teams that all compare equal keep their order |
| TeamRanking.TopPickExistsExactly | apps/frontend/lib/team-route-insights.ts:186-190 | when there is a top pick: with teams not located, one located team must be within 50.5/55 of the largest distance |

### Where the code differs from what one would expect

- A full invoice is billed for its rounded line sum, not for the quote total it is compared with elsewhere, so a
  quote outside `SafeQuote` can be over-invoiced.
- A quote totals its lines at the stored unit prices, its invoices at prices cut to two decimals.
- On such quotes the aggregated status can go back without anything being cancelled or credited: finalizing a draft that
  covers more than what remains, beside another draft, turns a partially invoiced case into a draft one.
- One invoice can be credited any number of times, and credit notes can be credited; what is credited too much can be
  invoiced again, beyond the quote total.
- Creating an invoice recomputes the CRM status against the total of its own quote, every other operation against
  all accepted quotes; with two quotes or more, invoicing one of them in full bars the others.
- The stored status only moves up: a case once marked as invoiced stays barred, even after everything is credited.
- Beside teams that could not be located, a single located team at a positive distance scores 45 against their 50
  and is not the top pick.
- Empty CSV headers are dropped before columns are matched, which shifts the columns behind them.
- Usages below half a hundredth pass the positivity filter but give a line of quantity 0.

## Left out

- Floating point: numbers are exact reals, `Number.EPSILON` and malformed numeric strings do not occur.
- Labels, units, file names, customer and seller data, dates of invoices, PDF and e-mail: no rule depends on them.
- Invoices built from free lines (`buildInvoiceLinesFromCustom`), which belong to no quote.
- Fiscal numbers of finalized invoices, and the billing status copied onto interventions.
- The remote status `unknown`, which alone reaches the two last branches of the aggregation.
- Listing at most 200 invoices of a case: the model always sees all of them.
- Two requests on the same case at the same time: every billing operation is one step.
- The choice of a quote when none is named, and quotes accepted or changed after invoicing began.
- Setting a case's billing status by hand.
- The Mongo client, spawning of the migration process and the loop over the databases: each database has its own
  lock, and the model is about one.
- Clocks of different hosts: the processes of the lock share one clock, as they would with perfect synchronisation.
- A waiter that is more than 14.8 s late in an iteration, or loses a reply: it still stops (MigrationLock.PollingTerminates), but nothing is said about whether it acquires.
- `__proto__` as a CSV header or key, and characters outside the basic set under `toUpperCase`.
- Normalization of visited paths and the list of ignored ones: a visit arrives with its normalized path, or with none.
- Storage quota errors and the change notification of the navigation history.
- The stable palette for teams without a colour, borders, and the rounding of colours to whole numbers in CSS text.
- Time zones and daylight saving, and local years before 100, which `Date` moves into the twentieth century.
- Percent-encoding and dot segments of URLs: the browser is taken to keep host, path and query as they are written.
- Configured hosts with upper case, a port or a local name: the routing function covers them, the results on redirects do not.
- Geocoding, trigonometry, travel time, fuel and emissions: distances are given.
