# Contract billing, audit log and access: a verified model

A Dafny model of the parts of the cleaning-ticket system where a mistake costs money or trust: the
contract billing engine (forecast, invoice generator, numbering, extra-work register), the generic
audit log, the bulk link endpoint and the "highest access role" of a user. Run `dafny verify
dfyconfig.toml` to check it.

Conventions:

- **Dates** are (year, month, day) in the proleptic Gregorian calendar of section 3.2.1 of ISO
  8601:2004, compared field by field, with a day ordinal for differences and shifts. Years are
  unbounded integers.
- **Money** is a whole number of cents. `money()` rounds half away from zero (roundTiesToAway in
  section 4.3.1 of IEEE 754-2008). Percentages are hundredths of a percent.
- **Tables** are maps and sequences; a map key is a unique constraint. A savepoint is all or nothing.
  `select_for_update` is a lock held to the end of the transaction.
- **Ordered queries** are inputs: a contract carries its revisions already in resolution order
  (latest `effective_from` first, then highest id), and a sync reads jobs and tickets in id order.
- A contract is *storable*: its end is not before its start (the table's check constraint), its billing
  day is at least 1, its revisions are in order. Nothing else is assumed of it.
- Generator runs fix the contracts and their revisions. "The same books" means: the same claimed
  periods with the same invoice contents, revision, period end and invoice date, whatever ids the
  invoices got.

Files follow the source's components: `Calendar`, `Money` and `Sequences` hold what the standard
library and Django provide; `Billing` and `Forecasting` are `contracts/billing.py`; `DueRows` and
`Generation` are `contracts/invoice_generation.py` with one run at a time, `GenerationRuns` the same
generator with overlapping runs; `Numbering`, `Register`, `AuditLog`, `BulkLink` and `AccessRoles` are
named after what they model.

Where the code does less than its documentation says, the model follows the code and states exactly
when the promise holds:

- The generator says every period whose invoice date has arrived is billed. It stops at the end
  date's year, so the last period of an arrears contract is missed exactly when it ends in December
  (`DueRows.DueGap`). `Generation.MissedDecemberIsNeverBilled` gives a contract whose 310.00 no run
  ever bills.
- The forecast is said to be what the generator turns into invoices. The generator bills a prorated
  period in full, so the two agree exactly on rows that are not prorated, or whose uncovered days are
  worth at most half a cent (`Generation.InvoiceAgainstForecast`). In `Generation.BilledInFull` the
  forecast plans 200.00 and the draft bills 310.00.
- The register sync is said to be idempotent by construction, so that running it twice produces the
  same rows. Nothing forbids two lines for one job. A sync rewrites only the last of them, by sort order
  and id, and rewriting moves it to the job's own place; another one may then be last and be rewritten
  by the next sync. An immediate second sync is idle exactly when, for every live job, no other line
  comes after the last one at its new place, or the last of the others is up to date already
  (`Register.SecondSyncIdleIff`; `Register.SecondSyncUpdatesAgain` is a register where it is not, and
  `Register.IdleWithDuplicates` one with duplicates where it is). A sync ends with one line per job
  exactly when no live job had two before (`Register.OneLinePerJobIff`, `Register.DuplicateSurvives`).
- The audit log compares the saved object, not the stored row. With `update_fields` it records changes
  that were not written. The log replays to the tables exactly when no auditable field left out of
  `update_fields` holds another value in memory than in the row (`AuditLog.ReplayMatchesIffClean`, over
  whole runs `AuditLog.ReplaysThroughoutIffClean`; `AuditLog.UnnamedFieldIsLogged` is a save that
  breaks it). Without `update_fields` it always does (`AuditLog.WholeRowSavesReplay`).
- A DELETE entry shows the deleted object, not the stored row. With clean saves every before-value is
  the replayed one exactly when each delete was of an existing row and an up-to-date object
  (`AuditLog.CoherentIffOrderly`; `AuditLog.StaleDeleteIsLogged` deletes a stale object, and a row that
  is gone).

## Model

| member | source | states |
|---|---|---|
| Calendar.OrdinalOrder | backend/contracts/billing.py:175-188 | comparing dates field by field and comparing day counts agree, so equal day counts mean equal dates |
| Calendar.MonthStep | backend/contracts/billing.py:170-177 | consecutive months abut, across year ends and leap years |
| Calendar.ClosedForm | backend/contracts/billing.py:304-305 | adding up year lengths gives the closed formula with a leap day every 4 years, except centuries not divisible by 400 |
| Calendar.DayNumber | backend/contracts/billing.py:304-305 | the day number of any date in closed form in year, month and day |
| Calendar.PrevDayIsOneBack | backend/contracts/billing.py:175-177 | the day before a date is one day earlier, also over month and year ends |
| Calendar.PlusDaysIsExact | backend/contracts/billing.py:322 | adding n days moves the day count by exactly n |
| Money.HalfUpIsNearest | backend/contracts/billing.py:106-112 | the rounding gate gives the nearest cent with ties away from zero, and no other value qualifies |
| Money.DoubleRoundingIsHarmless | backend/contracts/billing.py:235-238 | dividing at 28 significant digits and then quantizing equals one exact rounding, for divisors below 1000 and quotients below 10^25 cents of either sign |
| Money.CoefficientHas28Digits | backend/contracts/billing.py:235-238 | the modelled division really carries 28 significant digits |
| Money.ProrateAsComputed | backend/contracts/billing.py:235-238 | a prorated amount with both roundings of the code is the single exact rounding of amount x covered / period |
| Money.ProrateIsMonotone | backend/contracts/billing.py:235-238 | a part period never bills more than a full one in absolute value, never changes sign, and never bills less for more covered days |
| Money.PercentAsComputed | backend/contracts/extra_work_register.py:305-306 | dividing at 28 digits, multiplying by 100 and quantizing with ties to even is one exact rounding, for any divisor and any figure below 10^23 cents |
| Billing.ActiveRevisionGoverns | backend/contracts/revisions.py:49-62 | the resolved revision is in force and outranks every other revision in force by (effective_from, id); None exactly when none is in force |
| Billing.LatestRevisionIsActive | backend/contracts/billing.py:219-232 | by dates and ids alone: the latest revision in effect, ties by highest id, is active and its total is agreed |
| Billing.NothingAgreedYet | backend/contracts/billing.py:230-232 | before the first revision takes effect the agreed amount is zero |
| Billing.StorableIff | backend/contracts/models.py:596-599 | the modelled contracts are those with a billing day from 1, an end not before the start, and any number of revisions ordered by date and id, latest first |
| Billing.AmountForPeriod | backend/contracts/billing.py:215-232 | the first-match search loop returns the total of the revision the resolution rule picks, and zero when there is none |
| Billing.PeriodsTileTheCalendar | backend/contracts/billing.py:160-177 | a date lies in the period of its index and in no other; each period ends the day before the next begins |
| Billing.PeriodsStartInTheirMonths | backend/contracts/billing.py:160-172 | periods are 1, 3 or 12 months long; quarterly ones start in January, April, July and October, yearly ones in January; there are 12, 4 or 1 a year |
| Billing.CoveredExactlyInLife | backend/contracts/billing.py:293-311 | coverage is positive, and a row exists, exactly for the indexes from the start date's period to the end date's |
| Billing.OnlyTheEndsArePartial | backend/contracts/billing.py:293-306 | every period of the life covers between 1 and period_days <= 366 days, and only the first and last can be partial |
| Billing.CoveredDaysAreConserved | backend/contracts/billing.py:293-306 | covered days over all periods add up to end_date - start_date + 1 |
| Billing.InvoiceDateIsExact | backend/contracts/billing.py:191-207 | for every period from the first, the invoice date is the later of the start date and the billing day, at most the 28th, of the period's first month (advance) or of the month after it (arrears) |
| Billing.AddMonthsIsExact | backend/contracts/billing.py:180-188 | adding months moves the month by exactly that many and keeps the day, or takes the last day of a shorter month |
| Billing.RowIsExact | backend/contracts/billing.py:293-335 | every field of a row by day numbers: period clipped to the contract's life, covered and period days, prorated exactly when proration is on and coverage short, and the agreed amount or its share rounded to the nearest cent |
| Billing.InvoiceDatesIncrease | backend/contracts/billing.py:191-207 | invoice dates strictly increase with the period index and none precedes the start date, for both billing types and with the clamp |
| Billing.LifeLongRoundingBound | backend/contracts/billing.py:308-335 | everything billed from the start through any period differs from the exact rational total by at most one cent |
| Billing.ExactAmountIsExact | backend/contracts/billing.py:308-316 | the exact amounts of that bound are the agreed amounts' shares of the covered days, and both totals add up period by period |
| Billing.PeriodAmountAsComputed | backend/contracts/billing.py:308-316 | with revision totals below 10^25 cents, the amount every other result speaks of is the one the code gets with both its roundings |
| Forecasting.WindowIsSmall | backend/contracts/billing.py:342-353 | the scan window spans at most 14 indexes, so the MAX_PERIODS cut never fires |
| Forecasting.WindowedScanIsExact | backend/contracts/billing.py:342-362 | scanning the window gives the same list as filtering every period of the life, whatever later horizon is chosen for an open-ended contract |
| Forecasting.ScanYear | backend/contracts/billing.py:348-362 | the loop with its window and cut computes the rows of the whole life dated in the year |
| Forecasting.DueDateIsExact | backend/contracts/billing.py:320-322 | a row falls due exactly payment_terms_days after its invoice date |
| Forecasting.PreviewDropsExactlyTheFirst | backend/contracts/billing.py:370-376 | the year's rows are the first invoice, if dated in that year, followed by the previewed rows; the excluded flag holds exactly in that year |
| Forecasting.YearlyMinusPreview | backend/contracts/billing.py:364-380 | yearly_amount - rows_total is the first period's amount in the year it is dated and 0 otherwise |
| Forecasting.YearsConserveMoney | backend/contracts/billing.py:364-368 | for a closed contract the yearly figures from the start year to the year after the end add up to all period amounts |
| Forecasting.EachRowInOneYear | backend/contracts/billing.py:355-368 | summing any rows year by year counts each row exactly once |
| Forecasting.FullYearIsEveryPeriod | backend/contracts/billing.py:355-362 | a year whose periods all lie in the life schedules each of its 12, 4 or 1 periods once, shifted by one period for arrears |
| Forecasting.FullYearAmount | backend/contracts/billing.py:364-368 | with one unprorated price all year, the yearly figure is that price times the periods per year |
| Forecasting.ActiveAfterAdding | backend/contracts/revisions.py:49-62 | a new revision changes nothing before its date, and from then on governs exactly when it outranks the previously active one |
| Forecasting.HistoryIsStable | backend/contracts/billing.py:266-273 | adding a revision effective from e changes no row whose period starts before e, and otherwise changes only the amount |
| Forecasting.BuildForecast | backend/contracts/billing.py:241-381 | the whole forecast object: empty for a register, otherwise previewed rows, totals, yearly and monthly figures and the excluded flag, in terms of the whole life; row amounts and the monthly figure are those of the code's two roundings |
| DueRows.RebuildFirstRow | backend/contracts/invoice_generation.py:111-149 | the row rebuilt by the generator is the forecast's own first row, field for field |
| DueRows.ScheduledRows | backend/contracts/invoice_generation.py:83-150 | filtering the first invoice out and reinserting it gives the unfiltered scheduled list, in order |
| DueRows.KeepArrived | backend/contracts/invoice_generation.py:165-173 | one year's inner loop keeps exactly the arrived rows; the `seen` test rejects none |
| DueRows.CollectDueRows | backend/contracts/invoice_generation.py:153-173 | the walk over the years yields exactly the rows of the life that have arrived and are not past the end year |
| DueRows.DueIsExact | backend/contracts/invoice_generation.py:161-173 | a period of the life is yielded if and only if its invoice date has arrived and its year is not past the end date's |
| DueRows.DueRowsAreRows | backend/contracts/invoice_generation.py:153-173 | due rows come in strictly increasing invoice-date order, have distinct period starts, and are rows of the contract's life |
| DueRows.DueGap | backend/contracts/invoice_generation.py:161-164 | an arrived period is missed if and only if it is the last one of an arrears contract and ends in December |
| DueRows.MissedDecember | backend/contracts/invoice_generation.py:161-164 | an arrears contract for December 2025 alone has a row of 310.00, dated 1 January 2026, that is not due on any date |
| DueRows.DueGrows | backend/contracts/invoice_generation.py:153-173 | a later run date never makes fewer rows due |
| Generation.VatWithinHalfACentPerLine | backend/contracts/invoice_generation.py:263-283 | an invoice's VAT differs from the exact VAT of the agreed lines by at most half a cent per line |
| Generation.LineVatIsNearest | backend/contracts/invoice_generation.py:263-283 | a line's VAT is the nearest cent to its exact value, ties away from zero, and no other is |
| Generation.TotalsAddUp | backend/invoicing/services.py:67-76 | the recomputed subtotal is the agreed lines' sum, and subtotal + VAT = total |
| Generation.InvoiceAgainstForecast | backend/contracts/invoice_generation.py:263-283 | the invoice's net total equals the forecast row's amount if and only if the row is not prorated or its uncovered days are worth at most half a cent |
| Generation.BilledInFull | backend/contracts/invoice_generation.py:263-283 | a prorated contract from 12 January 2026 at 310.00 is forecast at 200.00 and billed at 310.00 |
| Generation.RunBills | backend/contracts/invoice_generation.py:235-311 | over any earlier books, a pass over the due rows keeps old entries, gives every other billable row exactly its own entry, and keeps claims and drafts in bijection |
| Generation.RunIsReported | backend/contracts/invoice_generation.py:67-80 | created + skipped_existing + skipped_no_revision is the number of due rows, and the created ids are exactly the new drafts |
| Generation.CreatedDraftsAreExact | backend/contracts/invoice_generation.py:235-305 | every draft a run creates belongs to one due period not claimed before, and its claim and draft carry that period's dates, year and month of its first covered day, the contract's parties, the run's author and the active revision's lines one by one |
| Generation.ClaimsAfterRun | backend/contracts/invoice_generation.py:235-311 | after a run the claimed periods are those claimed before, unchanged, and every due period with an agreed scope |
| Generation.RunContractCounts | backend/contracts/invoice_generation.py:235-311 | each counter is a count over the due rows: no agreed scope, claimed before, and the rest, which got a draft |
| Generation.OnlyActiveContractsBill | backend/contracts/invoice_generation.py:200-233 | a draft, cancelled or extra-work contract bills nothing and counts nothing |
| Generation.EarlierRunChangesNothing | backend/contracts/invoice_generation.py:235-311 | run(on1) then run(on2), on1 <= on2, leaves the same books as run(on2) alone |
| Generation.RerunCreatesNothing | backend/contracts/invoice_generation.py:197-199 | running again for the same or an earlier date, by anyone, creates and changes nothing |
| Generation.MissedDecemberIsNeverBilled | backend/contracts/invoice_generation.py:161-164 | that December row has an agreed scope and is billed by no run, on any date, by anyone, over any books |
| Generation.DeleteKeepsConsistent | backend/contracts/models.py:850-860 | deleting an invoice with its claim releases exactly that period and keeps the bijection |
| Generation.RerunAfterCut | backend/contracts/models.py:854-859 | from any books that hold every due bill, deleting one of them and running again creates one draft, for that period, and keeps all other entries |
| Generation.DeletedPeriodIsRecreated | backend/contracts/models.py:854-859 | after a run over any books, deleting any due period and running again, by anyone, bills exactly that period as its row says and changes nothing else; a period that run had billed itself comes back as it was |
| Generation.OldPeriodsKeepTheirBills | backend/contracts/invoice_generation.py:235-283 | adding a revision leaves the bills of all periods that start before it as they were |
| Generation.CatchUpBillsAtOldPrices | backend/contracts/invoice_generation.py:235-311 | a late run after the revision was added still bills those periods at the old price, over any books |
| Generation.Database.WriteDraft | backend/contracts/invoice_generation.py:253-284 | the loop over the lines and the recompute store the finished draft and touch no other invoice |
| Generation.Database.BillPeriod | backend/contracts/invoice_generation.py:248-305 | the savepoint either commits the draft with its claim or, when the period is claimed already, leaves no trace but a drawn id |
| Generation.Database.ProcessRow | backend/contracts/invoice_generation.py:235-311 | one due row is skipped, billed or counted as existing, and nothing else changes |
| Generation.Database.GenerateForContract | backend/contracts/invoice_generation.py:176-313 | the whole run: refused without an actor, a no-op for a register or a contract that is not active, otherwise the specified pass over the due rows; every created draft is of one due period with its scope, and has no author exactly when the system runs |
| Generation.Database.GenerateInvoices | backend/contracts/invoice_generation.py:316-336 | the daily run goes through the active contracts, optionally of one company, and adds up their counters |
| Generation.DailyRunBills | backend/contracts/invoice_generation.py:316-336 | the daily run adds exactly the chosen contracts' due bills to the books |
| Generation.DailyRunIsExact | backend/contracts/invoice_generation.py:316-336 | after the daily run the claimed periods are those claimed before and every due period with a scope of an active standard contract of the company asked for |
| Generation.DailyRunIsReported | backend/contracts/invoice_generation.py:316-336 | its counters cover every due row of those contracts once, those without a scope apart, and the created ids are exactly the new drafts |
| GenerationRuns.EveryInterleavingIsSafe | backend/contracts/models.py:886-892 | in every interleaving of drafting, claiming, committing, refusals, crashes and deletes, no period is claimed twice, drafts and claims stay in bijection, and every entry is the original one or exactly what its row bills |
| GenerationRuns.FinishedRunHasBilled | backend/contracts/invoice_generation.py:235-311 | a run that got through its rows has every billable one claimed, unless deleted since, and has counted each due row once, whatever ran beside it |
| GenerationRuns.InterleavedEqualsSequential | backend/contracts/invoice_generation.py:31-46 | once one run for the latest date has finished, every period of its contract that was never deleted stands in the books as that run alone leaves it, authors aside; a deleted one is absent or as its row bills |
| GenerationRuns.EveryInterleavingFinishes | backend/contracts/invoice_generation.py:248-305 | from any reachable state, without further starts, crashes and deletes, at most a stated number of moves remain in whatever order, and they stop only when every run has got through its rows |
| GenerationRuns.NoDeadlock | backend/contracts/models.py:886-892 | some run can move exactly when some run is not finished: a run that waits for a claim waits for one whose holder can commit |
| GenerationRuns.CommitKeepsInv | backend/contracts/invoice_generation.py:248-296 | committing a draft with its claim keeps every other open savepoint's draft and key distinct from the committed ones |
| GenerationRuns.CommitIsExact | backend/contracts/invoice_generation.py:248-305 | a commit adds one claim and its draft, with the run's author, the contract's parties, the period's label and the agreed scope |
| GenerationRuns.CountersAreExact | backend/contracts/invoice_generation.py:67-80 | in every interleaving a run counts one created draft per commit, one existing claim per refusal, and the rows it passed without an agreed scope |
| GenerationRuns.ClaimsAreCommitsLessDeletes | backend/contracts/models.py:886-892 | in every interleaving the number of claims is the initial one plus the commits minus the deletes |
| GenerationRuns.AnythingMayHappen | backend/contracts/invoice_generation.py:31-46 | in every state a run may start or crash and a claimed invoice be deleted |
| Numbering.RenderingRoundTrips | backend/contracts/numbering.py:37-41 | a rendered number parses back to its year and sequence, past 9999 too |
| Numbering.RenderingIsInjective | backend/contracts/extra_work_register.py:102-111 | different (year, sequence) pairs render differently, and never as a register's EW- number |
| Numbering.SequencePartLength | backend/contracts/numbering.py:37-41 | the sequence part has exactly four digits up to 9999, and above only as many as needed, without a leading zero |
| Numbering.RenderedExamples | backend/contracts/extra_work_register.py:102-111 | CNT-2026-0007 and EW-000123 |
| Numbering.SequenceTable.Allocate | backend/contracts/numbering.py:44-64 | allocation returns last_number + 1, stores it, touches no other counter, and returns a number that parses back |
| Numbering.NumbersAreGapless | backend/contracts/numbering.py:44-64 | over every interleaving of commits and aborts the numbers committed for a (company, year) are 1, 2, ..., last_number in order |
| Numbering.CommittedAreTheCreated | backend/contracts/numbering.py:44-64 | over every interleaving the committed numbers of a key are as many as the contracts created for it in transactions that committed |
| Numbering.WaitsForTheHolder | backend/contracts/numbering.py:50-60 | an allocation waits exactly while another open transaction has allocated from the same counter |
| Numbering.CommittedNumbersAreUnique | backend/contracts/models.py:414-417 | no two committed contracts of a company carry the same rendered number |
| Register.FirstTicketIsLowest | backend/contracts/extra_work_register.py:114-127 | of a job's live tickets the one with the lowest id is used |
| Register.TicketMap | backend/contracts/extra_work_register.py:114-127 | one pass with setdefault finds that ticket for every listed job |
| Register.BlendedVatIsNearest | backend/contracts/extra_work_register.py:298-307 | the blended percentage, with both roundings of the code, is the nearest hundredth of a percent, ties to even, and nothing else is |
| Register.StripTrims | backend/contracts/extra_work_register.py:262 | the title loses Unicode white space at both ends and nothing in between, and is empty exactly when it was blank |
| Register.WhiteSpace | backend/contracts/extra_work_register.py:262 | white space is the 29 characters Unicode calls so for stripping |
| Register.SyncProjects | backend/contracts/extra_work_register.py:226-295 | a sync leaves exactly one line per live job with its current values, none for any other job, and the lines without a job unchanged |
| Register.SyncedLineIsExact | backend/contracts/extra_work_register.py:258-288 | each live job's one line has the total the pricing rule gives the job and its lowest-id live ticket (0 when missing), the job's building and place, no hours, the stripped title or the numbered fallback, and the blended percentage; no line is left for any other job |
| Register.RegisterHoldsTheMoney | backend/contracts/extra_work_register.py:226-295 | money is conserved: the mirrored lines' amounts add up to the pricing rule's totals over all live jobs |
| Register.SecondSyncIdleIff | backend/contracts/extra_work_register.py:230-233 | an immediate second sync removes nothing, and adds and updates nothing and leaves the same rows if and only if every live job's last line stays last at its new place or the last of its other lines is up to date |
| Register.SecondSyncUpdatesAgain | backend/contracts/extra_work_register.py:251-254 | two lines of one job at places 3 and 5: the first sync updates one, the second updates the other and changes the rows |
| Register.IdleWithDuplicates | backend/contracts/extra_work_register.py:276-287 | two lines of one job that both show its values: a sync changes nothing |
| Register.SecondSyncChangesNothing | backend/contracts/extra_work_register.py:239-246 | on a register with one line per job, as syncs alone make it, the second sync is always idle |
| Register.CountersAreExact | backend/contracts/extra_work_register.py:258-288 | added counts the live jobs that had no line, updated those whose line showed other values |
| Register.OneLinePerJobIff | backend/contracts/extra_work_register.py:239-254 | a sync ends with one line per job if and only if no live job had two lines before |
| Register.DuplicateSurvives | backend/contracts/extra_work_register.py:239-254 | two lines of one live job are both still there after one sync and after two |
| Register.RegisterTable.ExistingLines | backend/contracts/extra_work_register.py:251-254 | the dictionary built before the loop finds, for every mirrored job, the line that is last by sort order and id |
| Register.RegisterTable.SyncWith | backend/contracts/extra_work_register.py:226-295 | the imperative sync computes the projection, keeps jobs and ids distinct, and satisfies after = before + added - removed |
| AuditLog.TakeSnapshot | backend/audit/diff.py:113-120 | the loop over the fields gives the serialized value of every auditable field and of no other |
| AuditLog.SerializationIsFaithful | backend/audit/diff.py:75-102 | two values a field can hold serialize alike only when equal, and only None, bytes and an enum member that is None become null |
| AuditLog.SerializedForms | backend/audit/diff.py:75-102 | booleans, numbers and text are logged as they are, dates, identifiers and decimals as their text |
| AuditLog.AuditableExamples | backend/audit/diff.py:24-72 | password, token, secret, hash, otp and mfa fields in any case, time stamps, relations and computed fields are not logged; ordinary columns are |
| AuditLog.TokenAt | backend/audit/diff.py:41-43 | a field is sensitive as soon as one of the six tokens stands anywhere in its name, in any case |
| AuditLog.UpdateNamesTheChanges | backend/audit/signals.py:208-231 | saving an existing row logs an UPDATE exactly when some auditable field's value changed, and names exactly those fields |
| AuditLog.CreateAndDeleteNameAll | backend/audit/diff.py:123-130 | a CREATE names every auditable field from null and a DELETE every one to null, and the other side is not null for a value |
| AuditLog.SaveWrites | backend/audit/signals.py:193-231 | nothing is written with empty update_fields or for fields of a missing row; otherwise that row alone, whole or in the named fields |
| AuditLog.AuditedDatabase.DiffSnapshots | backend/audit/diff.py:133-145 | the diff names exactly the fields whose serialized value changed, with both values |
| AuditLog.AuditedDatabase.OnPreSave | backend/audit/signals.py:193-205 | the remembered snapshot is the stored row's, or a marker that there is none, under the right key |
| AuditLog.AuditedDatabase.OnPostSave | backend/audit/signals.py:208-231 | one CREATE entry for a new row, one UPDATE entry for a non-empty diff, nothing otherwise; exactly one remembered snapshot is dropped |
| AuditLog.AuditedDatabase.Save | backend/audit/signals.py:193-231 | a save through both handlers writes the row and logs exactly the specified entry, for an existing row exactly when an auditable field's value changed; a forced update of a missing row and empty update_fields do nothing |
| AuditLog.AuditedDatabase.DeleteRow | backend/audit/signals.py:234-238 | a delete removes the row and logs its snapshot |
| AuditLog.SaveReplays | backend/audit/signals.py:208-231 | after a save the replayed log shows the saved object's snapshot; an entry is written exactly when that differs from the stored one |
| AuditLog.ReplayMatchesIffClean | backend/audit/signals.py:208-231 | after any save the log replays to the tables if and only if no auditable field outside update_fields differs in memory from the stored row |
| AuditLog.ReplaysThroughoutIffClean | backend/audit/signals.py:193-238 | over a whole run the log replays to the tables after every step if and only if every save of the run was clean |
| AuditLog.WholeRowSavesReplay | backend/audit/signals.py:193-238 | any run of creates, whole-row saves and deletes replays to the tables, without a condition |
| AuditLog.UnnamedFieldIsLogged | backend/audit/signals.py:208-231 | a save that names one of two changed fields logs both, and the replay then differs from the table |
| AuditLog.CoherentIffOrderly | backend/audit/signals.py:193-238 | over any run of clean saves every before-value in the log equals the replayed one if and only if each delete was of an existing row and an instance that agrees with it |
| AuditLog.LogReplaysToTheState | backend/audit/signals.py:193-238 | over any run the log replays to the tables after every step with every before-value the replayed one, if and only if all saves are clean and all deletes up to date |
| AuditLog.StaleDeleteIsLogged | backend/audit/signals.py:234-238 | deleting an instance loaded before a rename logs the old name, and deleting a row that is gone is logged too |
| AuditLog.NothingSensitiveIsLogged | backend/audit/diff.py:41-72 | over any run at all, no sensitive or noisy field is ever named in the log |
| BulkLink.Deduplicate | backend/buildings/views_bulk.py:278-279 | the id list without repeats, with the same members, in the order of first occurrence |
| BulkLink.CollectPairs | backend/buildings/views_bulk.py:301-310 | the nested loop collects all N x M pairs once each, and fails exactly when one is illegal, which `Post` spells out |
| BulkLink.LinkTable.LinkAll | backend/buildings/views_bulk.py:318-332 | linking adds the pairs to the relation and counts the new and the old ones |
| BulkLink.LinkTable.UnlinkAll | backend/buildings/views_bulk.py:333-341 | unlinking removes the pairs, counts both kinds, and revokes exactly the access rows of the pairs that were linked |
| BulkLink.LinkTable.Post | backend/buildings/views_bulk.py:275-351 | accepted exactly when everything named is in reach, the buildings permitted and no pair of two companies; then each of the N x M pairs is joined or parted, no other is touched, the counters add up and only the access rows on parted pairs go; otherwise nothing changes |
| BulkLink.EffectByPairs | backend/buildings/views_bulk.py:275-351 | the same, pair by pair, for the request as a step |
| BulkLink.LinksStayWithinCompanies | backend/buildings/views_bulk.py:159-170 | over any run of requests on a relation that compares companies no link ever joins two companies |
| BulkLink.FirstReason | backend/buildings/views_bulk.py:281-299 | a refused request is told the first thing that is wrong with it |
| BulkLink.RepetitionAddsNothing | backend/buildings/views_bulk.py:262-271 | repeating a request, also after others that did not undo one of its pairs, changes nothing and counts all N x M pairs as already in place |
| BulkLink.AccessStaysLinked | backend/buildings/views_bulk.py:187-200 | over any run of requests on the customer relation every access row's pair stays linked |
| BulkLink.UnlinkWithoutCascade | backend/buildings/views_bulk.py:187-200 | without the cascade an unlink keeps that only if there was nothing to revoke |
| AccessRoles.BucketsPartition | backend/accounts/views_users.py:202-257 | the three role filters are disjoint and together hold exactly the users with an in-scope flag or an active in-scope grant |
| AccessRoles.RoleIsHighestVisible | backend/accounts/serializers_users.py:162-202 | the role is the highest of the flag and the active grants in memberships of the viewer's companies |
| AccessRoles.HiddenMembershipsDoNotMatter | backend/accounts/views_users.py:202-257 | memberships of companies the viewer does not see can be added, removed or altered without changing role or buckets |
| AccessRoles.GetCustomerAccessRole | backend/accounts/serializers_users.py:162-202 | the early-return max-rank loop returns the one role whose filter selects the user, for every viewer scope |

## Left out

- Dates outside years 1 to 9999, where Python's `date` raises an error: the model's calendar has no end.
- Sorting and filtering done by the database: an ordered query is an input in its documented order.
- Edits to a contract's dates, billing settings or past revisions between runs.
- Soft-deleted and reversed invoices: the books hold the live drafts raised from contracts, and a draft's soft delete releases its claim the way the modelled delete does.
- Invoices raised from extra work, invoice numbers, fees and sending.
- `due_date` arithmetic for a negative number of payment days: the field is a non-negative integer.
- `get_or_create_register` and `register_revision`: a unique index with a re-read by the loser, the same shape as the period claim.
- `register_summary`: three sums over the lines, without an invariant of their own.
- The pricing of a job (`_classify_extra_work`, `_amounts_for_state`): an arbitrary function of the job and its ticket.
- BlendedVatIsNearest: for a VAT figure below 10^23 cents; an amount column stores at most 12 digits.
- Deferred attributes of an instance: an attribute the model's instance lacks holds None, and a save without `update_fields` writes it so.
- The generator command's `--dry-run`, which holds all its claims in one outer transaction and rolls it back: in the model each period is its own transaction, as in the daily run.
- Bulk writes that send no signal (`QuerySet.update`, `bulk_create`): nothing logs them.
- Two syncs of one register at once: the register row's lock makes them follow one another.
- The audit handlers written by hand for single models, exception swallowing, the actor, request and severity columns.
- Values that the database normalises on writing, such as the scale of a decimal: the model stores what is in memory.
- Bulk deactivate and bulk update, error messages, the audit reason and the serializer's typing of ids.
- User visibility before the role filter, and the parsing of the query parameter.
- Permission matrices, ticket scoping, credential visibility, the frontend, and everything that is input or output.
