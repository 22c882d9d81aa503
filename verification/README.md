# Verified model of the recurring-jobs backend

This Dafny project models the parts of the backend in which state changes step by step under rules
that no single function shows, and proves what those rules keep. `dafny verify dfyconfig.toml`
checks everything.

**Scheduling.** A finished parser job is reported by a callback. It stores the job's end as the
property's "to" date, turns a HIGH property into REGULAR with CRS 30, and searches the earliest day
on which fewer than `capacity` other properties run. `PropertyTable` holds the table and its counts,
`RunDateCalculator` the search, `RecurringJobs` the job windows and the callback, `SchedulerRuns` what
whole runs keep, `JobTiling` how the windows of interleaved requests and callbacks tile the calendar.

**Dates.** `CivilDate` proves day numbers, Gregorian dates and YYYY-MM-DD texts equivalent,
`ParserJobDates` and `JobWindowTexts` carry the scheduler's results over to the texts really stored,
and `DateNormalizer` covers spreadsheet dates and their export. `Text` is the string layer.

**Export gate.** `ExportGate` is the concurrency gate as a protocol at microtask granularity:
arrivals, hand-over, the two resumptions of a queued caller, settling. `WorkerSettlement` is the
settle-once race around the worker thread.

**Tables and transformations.** `OrderedCatalog` (billing types, with frequencies, processors and
priorities as variants, and currencies), `Portfolios`, `QueryBuilder`, `RegexEscape`,
`ParallelProcessor`, `IdentifierBackfill` and `Dispatch`.

Classes stand for services whose methods change stored state. Each changing method is proved equal
to a function of the old state, and the lemmas speak about those functions.

## Assumptions

- A service call is one atomic step on in-memory tables. The code takes no locks, so two calls that
  interleave between a count and a write can break the capacity, order and portfolio invariants.
- Outcomes of the network, the database's failures, the password check and the configured URL are
  parameters. Generated ids are new.
- The gate's limits are numbers of at least 1, as the configuration clamps every numeric setting. A
  setting that is not a number passes the clamp as NaN; then no caller ever gets a slot
  (`ExportGate.NoSlotNoStart`).

## Where the code and its descriptions differ

- The run-date search is described as bounded by 365 days. It tests 365 days and then takes day 366
  untested, so the capacity invariant holds up to 366 times the capacity; `CapacityBoundTight` shows
  that it fails for one property more.
- The gate hands slots over in order of arrival, but a caller that finds a free slot starts one
  microtask after its arrival, and a caller handed a slot two microtasks after the hand-over. With two
  or more slots a later caller can therefore start first (`TwoSlotsCanOvertake`);
  `StartsInOrderExactly` says exactly when starts do keep the order.
- The `where` parts are spread over each other, so a later part replaces an earlier one on a key they
  share. The file listing has such a key: its scope and a search over several fields are both an
  `OR`, so a search replaces the scope (`FileListingScope`, with the exact condition in
  `ScopeKeptExactly`). The other listings have none (`KeyedBaseKept`).
- A request with a repeated property id is refused as "not found" with an empty list of ids
  (`LengthCheckExact`). The "CRS is invalid" rejection of the callback (lines 935-939) cannot occur.
- Creating and updating a portfolio refuse every spelling of the reserved name; the import does not
  (`ImportVariantsExact`, `ImportCreatesVariant`).
- Years 0 to 99 are exported but refused on the way back, because `Date.UTC` reads them as 19xx
  (section 21.4.1 of ECMA-262); `ExportRoundTrip` has the exact bound.
- Currencies number new items by count; after a removal two can share an order
  (`RemovalThenCreate` has the exact condition, `CountNumberingCollides` a run).

## Model

| member | source | states |
|---|---|---|
| SchedulerRuns.RunsKeepCapacity | src/modules/external-api/external-recurring-jobs.service.ts:874-973 | over every run of completion callbacks, property creations and non-HIGH edits that ends with at most 366 times the capacity of properties, no day ever exceeds its OTA's capacity if none did at the start |
| SchedulerRuns.CallbackCapacityExact | src/modules/external-api/external-recurring-jobs.service.ts:915-957 | one callback keeps the table within capacity if and only if the CRS is unusable or one of the 366 days the search can end on has room for this property |
| SchedulerRuns.CapacityBoundTight | src/common/services/run-date-calculator.service.ts:74-86 | the bound cannot be raised: for every capacity c > 0 there is a table of 366·c + 1 properties, within capacity, that one callback overfills |
| SchedulerRuns.CallbackIdempotent | src/modules/external-api/external-recurring-jobs.service.ts:915-957 | delivering a callback twice leaves the table as delivering it once, also when the first delivery turned HIGH into REGULAR with CRS 30 |
| SchedulerRuns.RecalculationAgrees | src/common/services/run-date-calculator.service.ts:107-226 | recalculating a property's run date right after its callback finds the stored date, and none if and only if the CRS that counts is unusable |
| SchedulerRuns.EditKeepsCapacity | src/modules/property/property.service.ts:1864-1912 | an update of CRS, priority (not HIGH) or "to" date with its recalculation keeps the table within capacity, in tables of at most 366 times the capacity |
| SchedulerRuns.CreateKeepsCapacity | src/modules/property/property.service.ts:659-697 | creating a property and calculating its run dates for all three OTAs keeps the table within capacity |
| SchedulerRuns.EditStores | src/modules/property/property.service.ts:1864-1912 | an update stores the merged fields and the run date by the rule for them, keeps the old run date when the rule gives none, and changes no other OTA and no other row |
| SchedulerRuns.CreateStores | src/modules/property/property.service.ts:659-697 | a creation appends the property as given with each OTA's run date by its rule, counted among the rows stored before |
| SchedulerRuns.SmallTableHasFreeDay | src/common/services/run-date-calculator.service.ts:74-86 | in such a table the search always has a day with room among the days it can reach |
| PropertyTable.FullDaysNeedProperties | src/common/services/run-date-calculator.service.ts:74-79 | pigeonhole: n full days need more than n times the capacity of properties, counting without the property itself |
| PropertyTable.UsedAfterSet | src/common/services/run-date-calculator.service.ts:75-78 | after a write the count of a day is the count without the property, plus one exactly for the written date |
| PropertyTable.FindAfterSet | src/modules/external-api/external-recurring-jobs.service.ts:954-957 | an update by id changes the one field group of the one row and nothing any other lookup sees |
| JobTiling.WindowsTileTheCalendar | src/modules/external-api/external-recurring-jobs.service.ts:503-540 | in every run of requests without start date, finished jobs, creations and CRS or priority edits, the finished windows of each property and OTA cover every day from the first "to" date to the current one, with strictly increasing ends; for Expedia and Booking they are pairwise disjoint, abut, and cover nothing else; without a first "to" date there are none |
| JobTiling.RunsHold | src/modules/external-api/external-recurring-jobs.service.ts:915-957 | the invariant behind it: finished windows continue one another up to the current "to" date, and every outstanding job continues from there |
| JobTiling.RequestSends | src/modules/external-api/external-recurring-jobs.service.ts:542-583 | an accepted request leaves exactly its jobs outstanding for their properties and OTA, and nothing else changes |
| JobTiling.FinishMeans | src/modules/external-api/external-recurring-jobs.service.ts:943-957 | a finished job's end becomes the "to" date of its property and OTA, and no other property or OTA is affected |
| RunDateCalculator.RunDateIsEarliest | src/common/services/run-date-calculator.service.ts:55-87 | a run date is given exactly when the CRS is usable, and a day is it if and only if every earlier day from the preliminary date on is full and it has room itself or lies 365 days out |
| RunDateCalculator.RunDateForMeans | src/common/services/run-date-calculator.service.ts:107-226 | per OTA: none without a "to" date, creation day + 1 for HIGH, else the earliest slot from to + CRS + 16 days on, and none for an unusable CRS |
| RunDateCalculator.RunDateCalculatorService.CalcRunDate | src/common/services/run-date-calculator.service.ts:55-87 | the bounded loop over the stored counts returns the earliest slot in that sense, and null exactly for an unusable CRS |
| RunDateCalculator.RunDateCalculatorService.CalcRunDatesForProperty | src/common/services/run-date-calculator.service.ts:107-226 | each OTA gets its rule: nothing without a "to" date, creation day + 1 for HIGH, else the capacity search |
| RecurringJobs.AcceptedRequest | src/modules/external-api/external-recurring-jobs.service.ts:418-561 | for every accepted request each requested property has exactly one entry in the summary, with its one window or the one reason it has none; the jobs are in order exactly the created windows; and every job carries the requested OTA, the billing type and OTP number of its property, priority 1 if and only if the priority reads HIGH, and a window that runs forward, keeps the requested dates, starts on the stated day and has the stated length (CRS, CRS + 365, 2·CRS) |
| RecurringJobs.SkipsExactly | src/modules/external-api/external-recurring-jobs.service.ts:473-527 | a property is skipped for a reason if and only if that reason applies, and gets a window if and only if none does |
| RecurringJobs.OutcomeExact | src/modules/external-api/external-recurring-jobs.service.ts:384-607 | each answer (gateway error, bad request, not found, rethrown error, relayed or default status) is given exactly under its condition on request, table and network |
| RecurringJobs.MissingExactly | src/modules/external-api/external-recurring-jobs.service.ts:411-415 | the missing ids are the requested ones that do not exist, repetitions kept |
| RecurringJobs.HighExactly | src/modules/external-api/external-recurring-jobs.service.ts:437-442 | a priority counts as HIGH if and only if it is the word in any letter case, perhaps padded |
| RecurringJobs.CallbackStores | src/modules/external-api/external-recurring-jobs.service.ts:874-957 | a callback stores the end date always; for a HIGH priority REGULAR, CRS 30 and the earliest slot from end + 46 days on; otherwise the same priority and CRS and the earliest slot from end + CRS + 16 days on, or the old run date for an unusable CRS; no other OTA and no other row changes |
| RecurringJobs.WindowShape | src/modules/external-api/external-recurring-jobs.service.ts:471-540 | every chosen window has start ≤ end, the fixed dates or the OTA's span, and without a fixed start continues from the "to" date |
| RecurringJobs.LengthCheckExact | src/modules/external-api/external-recurring-jobs.service.ts:410-416 | the length check passes if and only if the requested ids are distinct and all exist; a repeated id alone is answered NotFound with an empty list |
| RecurringJobs.JobsAreCreatedWindows | src/modules/external-api/external-recurring-jobs.service.ts:542-560 | jobs and summary tell the same windows in the same order |
| RecurringJobs.RecurringJobsService.BulkCreateParserJobs | src/modules/external-api/external-recurring-jobs.service.ts:380-608 | all outcomes with their conditions: gateway, date order, missing ids, relay status or error, else jobs and summary; the table is unchanged |
| RecurringJobs.RecurringJobsService.BuildJobs | src/modules/external-api/external-recurring-jobs.service.ts:418-561 | the loop that pushes to jobs and summary computes both lists for the selected properties in order |
| RecurringJobs.RecurringJobsService.UpdateHistoricalAndRunDate | src/modules/external-api/external-recurring-jobs.service.ts:874-973 | the whole new table and the reply of a callback; the rejection for an invalid CRS is unreachable |
| JobWindowTexts.WindowTextsDenoteDays | src/modules/external-api/external-recurring-jobs.service.ts:471-540 | the window computed on YYYY-MM-DD texts with `<` on strings denotes the window computed on days, and skips for the same reason, as long as years keep four digits |
| JobWindowTexts.CountsAgree | src/common/services/run-date-calculator.service.ts:75-78 | counting equal run-date texts is counting equal days |
| JobWindowTexts.SearchesAgree | src/common/services/run-date-calculator.service.ts:72-86 | the search on texts ends on the text of the day on which the search on days ends |
| ExportGate.PropertyExportRunner.Enter | src/common/services/property-export-runner.service.ts:50-73 | the synchronous part of run: rejection when the queue is full, a free slot, or the end of the queue; nothing else changes |
| ExportGate.ArrivalExact | src/common/services/property-export-runner.service.ts:50-73 | in a run, an unknown caller is rejected if and only if the queue is full; otherwise it takes a slot if and only if one is free, and else joins the end of the queue |
| ExportGate.PropertyExportRunner.Release | src/common/services/property-export-runner.service.ts:75-82 | hands the slot to the first waiter without touching active, or frees it |
| ExportGate.Replay | src/common/services/property-export-runner.service.ts:50-82 | the gate object, driven by the calls a run makes, has in every run the active count and the queue of the protocol state, so what is proved of the protocol holds of the object |
| ExportGate.RunKeepsInv | src/common/services/property-export-runner.service.ts:50-82 | every interleaving keeps active ≤ concurrency, a bounded queue, a non-empty queue only at full concurrency, active = running + handed over or granted but not started, and slots taken in order of arrival |
| ExportGate.SlotsConserved | src/common/services/property-export-runner.service.ts:55-82 | slots taken are slots held plus slots given back; a job gives back only once, whether it returned or threw; a rejected caller never takes a slot or starts |
| ExportGate.WaiterStarts | src/common/services/property-export-runner.service.ts:50-82 | the waiter at position p has started once p + 1 jobs have settled and 2·concurrency further microtasks have run, whatever else arrives, settles or resumes in between |
| ExportGate.BoundedWait | src/common/services/property-export-runner.service.ts:63-82 | the waiter at position p holds a slot once p + 1 more jobs have settled, and until then its position drops by one with each, in every continuation of the run |
| ExportGate.GrantedStarts | src/common/services/property-export-runner.service.ts:55-73 | a caller that holds a slot has started after 2·concurrency microtasks in every continuation |
| ExportGate.NoSlotNoStart | src/common/services/property-export-runner.service.ts:63-73 | with no slot to give, every accepted caller queues for ever; a limit that is not a number behaves so |
| ExportGate.NoDeadlock | src/common/services/property-export-runner.service.ts:50-82 | while an accepted job has not finished, a continuation is pending or a job is running |
| ExportGate.TickProgress | src/common/services/property-export-runner.service.ts:55-73 | each microtask lowers the number of microtasks that pending starts still need by one |
| ExportGate.StartsInOrderExactly | src/common/services/property-export-runner.service.ts:50-82 | slots are always taken in order of arrival; jobs start in that order if and only if no arrival took a free slot while a handed-over caller awaited its first resumption |
| ExportGate.OrderStepExact | src/common/services/property-export-runner.service.ts:50-82 | the same for one step from any reachable state |
| ExportGate.OneSlotKeepsOrder | src/common/services/property-export-runner.service.ts:63-82 | with concurrency 1 no arrival can overtake |
| ExportGate.TwoSlotsCanOvertake | src/common/services/property-export-runner.service.ts:63-82 | with concurrency 2 a later caller can start first: a concrete continuation |
| ExportGate.HandedOverReached | src/common/services/property-export-runner.service.ts:50-82 | the state that continuation starts from is reached from the initial one |
| WorkerSettlement.WorkerPromise.Handle | src/common/services/property-export-runner.service.ts:122-152 | one event settles an unsettled promise with its own decision and changes nothing afterwards; only the timeout terminates the worker |
| WorkerSettlement.HandleAll | src/common/services/property-export-runner.service.ts:122-152 | whatever events arrive, the promise settles at most once, with the first deciding event, and a clean exit decides nothing |
| CivilDate.DayFromYearIsEcma | src/common/utils/parser-job-date.util.ts:22-24 | counting years one by one agrees with the closed formula of ECMA-262 section 21.4.1 for every year |
| CivilDate.ToDayFromDay | src/common/utils/parser-job-date.util.ts:22-24 | day number to civil date and back is the identity, for every day |
| CivilDate.FromDayToDay | src/common/utils/parser-job-date.util.ts:22-24 | civil date to day number and back is the identity, for every date |
| CivilDate.CivilOrder | src/modules/external-api/external-recurring-jobs.service.ts:393-397 | comparing year, month, day compares the day numbers |
| CivilDate.StepIsAddition | src/common/utils/parser-job-date.util.ts:23 | setUTCDate(getUTCDate() + k) adds exactly k days, for every day and every k |
| CivilDate.ParsePrintedDay | src/common/utils/parser-job-date.util.ts:24 | reading a printed day gives it back if and only if its year has four digits; other years print to a text that is no date |
| CivilDate.PrintParsedText | src/common/utils/parser-job-date.util.ts:22-24 | printing a read date text gives the text back |
| CivilDate.TextEqualityIsSameDay | src/common/services/run-date-calculator.service.ts:75-78 | two date texts are equal if and only if they denote the same day |
| CivilDate.CivilTextOrder | src/modules/external-api/external-recurring-jobs.service.ts:393 | `<` on the texts of two civil dates compares them field by field |
| CivilDate.TextOrderIsChronological | src/modules/external-api/external-recurring-jobs.service.ts:513 | `<` on YYYY-MM-DD texts is chronological order, as the window checks assume |
| Text.StrLessPad | src/modules/external-api/external-recurring-jobs.service.ts:393 | zero-padded numerals of one width compare as the numbers do, ties being decided by what follows |
| Text.SpaceCodePoints | src/common/utils/parser-job-date.util.ts:182 | the code points that trimming takes for white space |
| Text.TrimExactly | src/common/utils/parser-job-date.util.ts:182 | trimming takes white space and only white space off both ends, and leaves none there |
| ParserJobDates.StepTextAdds | src/common/utils/parser-job-date.util.ts:21-25 | a step on texts is addition on days while years keep four digits, and an error or no date beyond |
| ParserJobDates.StepTextComposes | src/common/utils/parser-job-date.util.ts:21-25 | stepping by a, then by b, is stepping by a + b |
| ParserJobDates.TextFunctionsPrintDays | src/common/utils/parser-job-date.util.ts:21-122 | start, end, Agoda start and end, and preliminary run date print to + 1, start + CRS (+ 365), to − CRS + 1, to + CRS + 1 and end + CRS + 16 |
| ParserJobDates.LastDayOfLastMonthPrecedesMonth | src/common/utils/parser-job-date.util.ts:97-102 | day 0 of the month is the day before its first and lies in another month, from year 100 on |
| ParserJobDates.LastDayOfLastMonthEarly | src/common/utils/parser-job-date.util.ts:97-102 | for the years 0 to 99 Date.UTC reads the year as 1900 to 1999, so the day belongs there |
| ParserJobDates.ParseCrsDaysReadsNumber | src/common/utils/parser-job-date.util.ts:53-57 | a decimal numeral is read as its number, whatever white space surrounds it and whatever text not beginning with a digit follows, and zero is refused |
| ParserJobDates.ParseCrsDaysExactly | src/common/utils/parser-job-date.util.ts:53-57 | a CRS is usable if and only if the trimmed text begins with digits of a positive number, perhaps after a plus, and is that number |
| DateNormalizer.ExportRoundTrip | src/common/utils/property-excel.util.ts:405-412 | normalising the exported MM/DD/YYYY text gives the stored date back for every date from year 100 to 9999, and is refused for years 0 to 99 |
| DateNormalizer.ExportedForm | src/common/utils/property-excel.util.ts:405-412 | a text that normalises is exported as MM/DD/YYYY, and any other as it is |
| DateNormalizer.SlashTextAcceptance | src/common/utils/parser-job-date.util.ts:185-213 | slash or dash text, however padded, is accepted if and only if the triple, day first when the first number exceeds 12, is a real Gregorian date from year 100 on |
| DateNormalizer.MonthNameTextAcceptance | src/common/utils/parser-job-date.util.ts:215-238 | text with a written month, however padded, with optional dot, any white space and optional comma is accepted if and only if some month starts with the word and the triple is a real date from year 100 on |
| DateNormalizer.AcceptsExactlyRealDates | src/common/utils/parser-job-date.util.ts:204-212 | comparing the three UTC getters accepts exactly the real dates of the years 100 to 9999 |
| DateNormalizer.MonthPrefixUnique | src/common/utils/parser-job-date.util.ts:152-155 | three or more letters name at most one month, so findIndex finds it whatever the order of the list |
| DateNormalizer.NormalizedIsFixed | src/common/utils/parser-job-date.util.ts:158-248 | every result in the form YYYY-MM-DD is normalised to itself |
| DateNormalizer.ExcelSerialDate | src/common/utils/parser-job-date.util.ts:165-180 | serial n plus a fraction is 1899-12-30 plus n days, and prints as a date if and only if the year has four digits (−693959 ≤ n ≤ 2958465) |
| DateNormalizer.EpochMillisDate | src/common/utils/parser-job-date.util.ts:173-180 | a number of 3,000,000 or more in size is epoch milliseconds and normalises to the day its whole millisecond falls in, up to the range of a Date |
| DateNormalizer.DateObjectDate | src/common/utils/parser-job-date.util.ts:161-164 | a Date normalises to its UTC day, an invalid one raises, an absent value gives nothing |
| DateNormalizer.SlashPatternExact | src/common/utils/parser-job-date.util.ts:185 | the slash pattern matches exactly the texts of one or two digits, one or two digits and four digits between slashes or dashes |
| DateNormalizer.LetterExactly | src/common/utils/parser-job-date.util.ts:217-219 | the letters of the pattern are those whose lower case is a to z |
| DateNormalizer.MonthNamePatternExact | src/common/utils/parser-job-date.util.ts:217-219 | the month-name pattern matches exactly the texts with its parts |
| DateNormalizer.OtherTextExact | src/common/utils/parser-job-date.util.ts:240-247 | any other text is read by the engine if and only if it holds a T or begins like YYYY-MM-DD, and refused otherwise |
| QueryBuilder.QueryMeans | src/common/utils/query-builder.util.ts:505-521 | with keys that do not overlap and filter paths none of which is a prefix of another, the built where holds of a record if and only if the base does, every filter of the request that is neither ignored nor unknown passes at its path, and the search matches or demands nothing |
| QueryBuilder.WhereMeansExactly | src/common/utils/query-builder.util.ts:517-521 | for any keys: a later part replaces what an earlier one demanded of a shared key |
| QueryBuilder.ScopeKeptExactly | src/common/utils/query-builder.util.ts:505-521 | a base condition in OR form is implied by the built where, for all records and all meanings of the tests, if and only if the term is ignored, at most one search field survives, or the filters alone demand one of its alternatives |
| QueryBuilder.FileListingScope | src/modules/file-upload/file-upload.service.ts:190-315 | the file listing, which searches three fields over such a scope, keeps the scope if and only if the term is ignored or the request's own filters send every test of one of its alternatives |
| QueryBuilder.KeyedBaseKept | src/modules/subportfolio/subportfolio.service.ts:92-109 | a base on keys that no filter or search field begins with, such as the id list of the portfolio, user and subportfolio listings, is always kept |
| QueryBuilder.SearchMeans | src/common/utils/query-builder.util.ts:199-248 | the search object holds if and only if some surviving field matches, or the term is ignored, or no field survives |
| QueryBuilder.NestMeans | src/common/utils/query-builder.util.ts:254-279 | a nested condition is its test at the end of the path, at any depth |
| QueryBuilder.BuildNestedSearchCondition | src/common/utils/query-builder.util.ts:254-279 | the loop from the inside out builds the nested object of the path |
| QueryBuilder.BuildFilterWhere | src/common/utils/query-builder.util.ts:285-326 | the object built by the loop holds of a record if and only if every filter of the request that is neither ignored nor unknown passes at its own path, as long as no such path continues another |
| QueryBuilder.RequestMeans | src/common/utils/query-builder.util.ts:285-345 | the same of the function the loop computes: filters that are ignored or unknown demand nothing |
| QueryBuilder.SplitJoins | src/common/utils/query-builder.util.ts:333 | the parts of a path have no dots and joined by dots are the path |
| QueryBuilder.IdFieldExactly | src/common/utils/query-builder.util.ts:159-163 | id fields are id and every name that ends in _id |
| QueryBuilder.ObjectIdExactly | src/common/utils/query-builder.util.ts:147-153 | an ObjectId is a text of exactly 24 hexadecimal digits |
| QueryBuilder.IgnoredExactly | src/common/utils/query-builder.util.ts:133-141 | a search term is ignored if and only if it is absent, empty, or the word all in one of its eight spellings |
| QueryBuilder.FiltersMean | src/common/utils/query-builder.util.ts:294-345 | filters on paths none of which is a prefix of another demand exactly each filter's test at its own path |
| QueryBuilder.SetNestedMeans | src/common/utils/query-builder.util.ts:332-345 | assigning along a free path adds exactly the test at that path |
| QueryBuilder.SetNestedKeepsFree | src/common/utils/query-builder.util.ts:332-345 | assigning along one path leaves every path that is not comparable with it free |
| QueryBuilder.SpreadMeans | src/common/utils/query-builder.util.ts:517-521 | a spread means the second object and the keys of the first it does not overwrite |
| QueryBuilder.PagesConcatenate | src/common/utils/query-builder.util.ts:533-564 | pages 1 to totalPages are the whole result in order, and one page fewer is not |
| OrderedCatalog.RunsStaySound | src/modules/billing-type/billing-type.service.ts:17-105 | every run of create (max + 1), reorder and remove keeps ids, names and orders distinct and every reference on an existing row |
| OrderedCatalog.ReorderMeans | src/modules/billing-type/billing-type.service.ts:55-80 | the operation: not found, unchanged exactly when the order was already the new one, else the item ends with newOrder, the others keep their relative order and move by at most one place between the two positions, and references, ids and names stay |
| OrderedCatalog.ReorderInserts | src/modules/billing-type/billing-type.service.ts:55-80 | the operation on orders 1..n takes the item out of the sorted list and inserts it at the target |
| OrderedCatalog.ReorderUndone | src/modules/billing-type/billing-type.service.ts:55-80 | the operation applied back to the old order restores the whole catalog |
| OrderedCatalog.ReorderWithRepeats | src/modules/currency/currency.service.ts:136-177 | what becomes of items that share the old or the new order, as currencies can |
| OrderedCatalog.RemoveMeans | src/modules/billing-type/billing-type.service.ts:82-105 | every refusal leaves the catalog alone; otherwise exactly the one row is gone, in each column every reference to it and no other names the replacement, and the shown counts add up |
| OrderedCatalog.CreateMeans | src/modules/billing-type/billing-type.service.ts:17-21 | a taken name is refused; otherwise one row is appended, numbered one past the last order or one past the count |
| OrderedCatalog.CountRefsExactly | src/modules/billing-type/billing-type.repository.ts:15-23 | a count is the number of times the row stands in the column |
| OrderedCatalog.ReorderedKeepsOrder | src/modules/billing-type/billing-type.service.ts:63-76 | with distinct orders: they stay distinct, the item gets newOrder, any two others keep their relative order |
| OrderedCatalog.ReorderIsRemoveInsert | src/modules/billing-type/billing-type.service.ts:63-76 | on orders 1..n reordering is taking the item out of the sorted list and inserting it at the target |
| OrderedCatalog.ReorderBack | src/modules/billing-type/billing-type.service.ts:63-76 | moving the item back to its old order restores every order |
| OrderedCatalog.ReorderByIdIsShift | src/modules/currency/currency.service.ts:151-174 | with distinct ids and orders, recognising the item by id is recognising it by order |
| OrderedCatalog.CatalogService.ReorderItem | src/modules/billing-type/billing-type.service.ts:55-80 | the whole new table: not found, unchanged, or every order shifted as specified |
| OrderedCatalog.CatalogService.PlanUpdates | src/modules/billing-type/billing-type.service.ts:63-76 | the scan plans exactly the orders that change |
| OrderedCatalog.CatalogService.ApplyUpdates | src/modules/billing-type/billing-type.repository.ts:76-81 | applying the planned updates gives every item its new order and changes nothing else |
| OrderedCatalog.CatalogService.RemoveItem | src/modules/billing-type/billing-type.service.ts:82-105 | all replies in the order of the checks, else three redirected columns and the row gone |
| OrderedCatalog.CatalogService.Redirect | src/modules/billing-type/billing-type.service.ts:98-100 | updateMany on one column replaces the references to the one id and touches nothing else |
| OrderedCatalog.RedirectionConserves | src/modules/billing-type/billing-type.service.ts:97-102 | no reference to the deleted row stays in any column, its counts go to the replacement column by column, and no other reference or count changes |
| OrderedCatalog.RemovalMovesCount | src/modules/billing-type/billing-type.repository.ts:15-23 | the count shown with the replacement grows by the count shown with the removed row |
| OrderedCatalog.CreateKeepsOrders | src/modules/currency/currency.repository.ts:10-18 | a new item's order is free always with max + 1, and with count + 1 if and only if nobody has that order |
| OrderedCatalog.CatalogService.CreateItem | src/modules/billing-type/billing-type.repository.ts:10-13 | a taken name is a conflict; otherwise one item is added with the next order of the catalog's numbering |
| OrderedCatalog.RunsStayDense | src/modules/currency/currency.repository.ts:10-18 | orders stay 1..n under either numbering in every run without removal and with targets in range |
| OrderedCatalog.DenseMax | src/modules/currency/currency.repository.ts:10-18 | on orders 1..n both numberings continue with n + 1 |
| OrderedCatalog.RemovalThenCreate | src/modules/currency/currency.service.ts:128-131 | from orders 1..n, after the item with order k is removed the next creation keeps orders distinct under count + 1 if and only if k = n, and under max + 1 always |
| OrderedCatalog.CountNumberingCollides | src/modules/currency/currency.repository.ts:10-18 | a concrete run in which two currencies end with the same order |
| IdentifierBackfill.ApplyKeepsUnique | scripts/sync-property-identifier-expedia-id.js:46-116 | if no two rows share a trimmed lower-case identifier, none do after any part of the plan was applied |
| IdentifierBackfill.SecondPlanIsEmpty | scripts/sync-property-identifier-expedia-id.js:46-116 | planning again after a full apply plans nothing and blocks the same rows |
| IdentifierBackfill.PlanIsFaithful | scripts/sync-property-identifier-expedia-id.js:69-115 | each change fills the one missing field of its row, with a printed id nobody had or the number the identifier spells, at most 2^31 − 1 |
| IdentifierBackfill.PlanChanges | scripts/sync-property-identifier-expedia-id.js:46-116 | the loop computes the verdict of every row against the identifiers taken so far, and the four outcomes partition the rows |
| IdentifierBackfill.VerdictMeans | scripts/sync-property-identifier-expedia-id.js:57-115 | each row is both-present, both-missing or blocked if and only if its fields, the identifiers existing and those planned for earlier rows, and the 32-bit bound say so |
| IdentifierBackfill.WritesReachTheirRows | scripts/sync-property-identifier-expedia-id.js:160-188 | writing the plan by id, with any of the writes failing, writes each planned row's own change and no other row |
| IdentifierBackfill.ApplyChanges | scripts/sync-property-identifier-expedia-id.js:157-190 | the apply loop writes exactly the changes whose update succeeds and counts each as updated or failed |
| ParallelProcessor.ProcessWithWorkers | src/common/utils/parallel-processor.util.ts:68-94 | the result is that of the sequential loop in the same order; a failure happens only above the threshold with a crashed worker, and never when none crashes |
| ParallelProcessor.SplitIntoChunks | src/common/utils/parallel-processor.util.ts:168-177 | chunks are non-empty, at most numChunks in number, all but the last full, and concatenate to the items |
| ParallelProcessor.ProcessInBatches | src/common/utils/parallel-processor.util.ts:104-134 | the batched loop gives the sequential result for every positive batch size |
| ParallelProcessor.ProcessSequentially | src/common/utils/parallel-processor.util.ts:139-163 | non-null results in order, without items whose processing throws |
| ParallelProcessor.FilterMapExactly | src/common/utils/parallel-processor.util.ts:151-162 | the result has one entry for each item that yields a value, none for null or a throw, and each entry stands behind those of earlier items |
| ParallelProcessor.FilterMapConcat | src/common/utils/parallel-processor.util.ts:90-93 | the results of two lists concatenate to the result of the concatenation |
| RegexEscape.EscapeIsLiteral | src/common/utils/regex.util.ts:4-6 | read as a pattern, an escaped text is exactly the literal text, for every string |
| RegexEscape.InsensitiveEqualsExact | src/common/utils/regex.util.ts:17-19 | the filter matches exactly the texts equal up to case |
| RegexEscape.EqualFoldExactly | src/common/utils/regex.util.ts:17-19 | equality up to case compares every character: without folding it is equality, and two texts of one length differ only where folding tells two characters apart |
| RegexEscape.UnescapedIsLiteralIffPlain | src/modules/portfolio/portfolio.service.ts:121-123 | without escaping, a text reads as its own literal if and only if it has no syntax character, so the unescaped lookup of the constant OTA is exact |
| Portfolios.RunsKeepInv | src/modules/portfolio/portfolio.service.ts:150-949 | every run of create, update, remove and import keeps exactly one portfolio named "Internal Portfolio" with its id, every property in an existing portfolio, the number of properties, and service types distinct up to case |
| Portfolios.InitialisationHolds | src/modules/portfolio/portfolio.service.ts:111-148 | initialisation establishes this on any sound tables |
| Portfolios.CreateMeans | src/modules/portfolio/portfolio.service.ts:150-164 | creating: reserved or existing names are refused, any other adds one portfolio and nothing else |
| Portfolios.UpdateMeans | src/modules/portfolio/portfolio.service.ts:444-471 | updating: the refusals in order, each leaving the tables alone; otherwise the one portfolio has the new name, if given, and nothing else changes |
| Portfolios.RemoveMeans | src/modules/portfolio/portfolio.service.ts:584-600 | removing: the refusals in order; otherwise exactly the one portfolio is gone, its properties belong to the Internal Portfolio, and nothing else changes |
| Portfolios.UpdateUnknown | src/modules/portfolio/portfolio.service.ts:449-452 | an unknown portfolio is not found, for updates and removals |
| Portfolios.EnsureInternalMeans | src/modules/portfolio/portfolio.service.ts:115-148 | the reserved portfolio is left alone, or added with a service type named OTA in some letter case |
| Portfolios.FindOrCreateMeans | src/modules/portfolio/portfolio.service.ts:822-839 | find-or-create gives the first type of that name up to case and creates nothing, or, if and only if there is none, one type ordered behind all others |
| Portfolios.ImportedTypes | src/modules/portfolio/portfolio.service.ts:797-902 | every portfolio an import creates has the service type that the first row showing its name asks for, OTA when the cell is empty |
| Portfolios.ImportNamesPrefix | src/modules/portfolio/portfolio.service.ts:782-791 | the names of the first rows come first |
| Portfolios.RemoveKeepsInv | src/modules/portfolio/portfolio.service.ts:584-604 | removal moves exactly the removed portfolio's properties to the Internal Portfolio and keeps all others |
| Portfolios.TypesStayDistinct | src/modules/portfolio/portfolio.service.ts:820-844 | find-or-create never creates a service type equal to another up to case |
| Portfolios.ImportSplits | src/modules/portfolio/portfolio.service.ts:797-949 | created and skipped together are exactly the unique names, none lost or doubled |
| Portfolios.ImportAddsCreated | src/modules/portfolio/portfolio.service.ts:797-949 | an import adds exactly the portfolios it reports as created, and none of them existed |
| Portfolios.ImportNamesDistinct | src/modules/portfolio/portfolio.service.ts:782-791 | the names are pairwise distinct, and are exactly the non-blank trimmed cells |
| Portfolios.CreatedExactly | src/modules/portfolio/portfolio.service.ts:797-949 | the created names are exactly the names of the sheet that no portfolio had and the database does not refuse |
| Portfolios.ImportVariantsExact | src/modules/portfolio/portfolio.service.ts:782-902 | an import keeps spelling variants of the reserved name out if and only if every spelling of it in the sheet is the exact one or is refused by the database |
| Portfolios.ImportCreatesVariant | src/modules/portfolio/portfolio.service.ts:803-902 | an import can create "internal portfolio", since it does not check for the reserved name |
| Portfolios.NoVariantsWithoutImport | src/modules/portfolio/portfolio.service.ts:150-164 | creation, update and removal keep such variants out |
| Portfolios.PortfolioService.CreatePortfolio | src/modules/portfolio/portfolio.service.ts:150-164 | reserved or existing names conflict; otherwise one portfolio is added |
| Portfolios.PortfolioService.UpdatePortfolio | src/modules/portfolio/portfolio.service.ts:444-471 | all refusals in order, else the rename |
| Portfolios.PortfolioService.RemovePortfolio | src/modules/portfolio/portfolio.service.ts:584-604 | all refusals in order, else the reassigned properties, the count of moved ones, and the portfolio gone |
| Portfolios.PortfolioService.ReassignProperties | src/modules/portfolio/portfolio.repository.ts:18-30 | moves exactly the properties of the one portfolio and returns their number |
| Portfolios.PortfolioService.EnsureInternalPortfolio | src/modules/portfolio/portfolio.service.ts:115-148 | finds the reserved portfolio or creates it, with its service type |
| Portfolios.PortfolioService.FindOrCreateServiceType | src/modules/portfolio/portfolio.service.ts:822-839 | finds the first service type matching the pattern or creates one with order max + 1 |
| Portfolios.PortfolioService.ImportName | src/modules/portfolio/portfolio.service.ts:797-949 | one name: skipped when it exists or the write fails, else created with the row's or the default type |
| Portfolios.PortfolioService.ImportFromExcel | src/modules/portfolio/portfolio.service.ts:752-949 | the import loop over the unique names, with both report lists |
| Dispatch.GroupPairs | src/modules/property/property-booking-checker.service.ts:48-53 | the Map has the keys in order of first appearance and each key's values in input order |
| Dispatch.FirstSeenDistinct | src/modules/property/property-booking-checker.service.ts:48-53 | no key appears twice |
| Dispatch.FirstSeenPrefix | src/modules/property/property-booking-checker.service.ts:48-53 | the keys of a prefix of the input are a prefix of the keys |
| Dispatch.GroupIsSubsequence | src/modules/property/property-booking-checker.service.ts:48-53 | each item stands in its key's group at the place given by the earlier items of that key |
| Dispatch.SizesAddUp | src/modules/property/property-booking-checker.service.ts:48-53 | group sizes sum to the number of items |
| Dispatch.BuildMessages | src/modules/property/property-booking-checker.service.ts:61-73 | one message per account in order of first appearance, carrying exactly its items, with the first item's password and id |
| Dispatch.PushMessages | src/common/helpers/sqs.helper.ts:33-108 | batches hold 1 to 10 entries, all but the last exactly 10, and concatenate to the entries; a partial dispatch happens only when a send threw; the total counts what the queue accepted |
| Dispatch.EntryIdsDistinct | src/common/helpers/sqs.helper.ts:56-57 | all entries of a dispatch have different ids |

## Left out

- SchedulerRuns.RunsKeepCapacity: leaves out edits and creations with priority HIGH, which take the day after creation whatever its load, and run dates set by hand; an update of several OTAs is the sequence of its single-OTA edits, whose counts are independent.
- SchedulerRuns.EditKeepsCapacity: takes the CRS and priority after the merge; the filter that skips an OTA the request did not touch is not modelled, so the edit is one that does touch it.
- JobTiling.WindowsTileTheCalendar: leaves out requests that send a start date and edits that rewrite a "to" date, both of which may start a window anywhere; a callback reports the job last sent, so a late report of a job that a newer request superseded is left out.
- JobWindowTexts.WindowTextsDenoteDays: stored texts are calendar dates with four-digit years; what the engine makes of other texts (2024-02-30 at midnight, signed six-digit years) is not modelled.
- ParserJobDates.ParseCrsDaysReadsNumber: numbers are unbounded; numerals beyond 2^53 round in the original.
- DateNormalizer.NormalizedIsFixed: the last branch calls the engine's own date parser, which is a parameter; cells that are neither text, number nor Date, and `String(value)` of exported non-text cells, are not modelled; spreadsheet numbers are exact reals.
- RecurringJobs.RecurringJobsService.BulkCreateParserJobs: upper-casing a priority covers ASCII and the dotless i, the only characters that can produce HIGH; the log, the request and the response body are not modelled, nor is the OTA `expedia_db`, for which the stored property has no field group.
- RunDateCalculator.RunDateCalculatorService.CalcRunDate: capacities are integers; a non-numeric setting is not modelled.
- RunDateCalculator.RunDateCalculatorService.CalcRunDatesForProperty: every stored property has a valid creation time; the fallback to the current time is not modelled.
- ExportGate.RunKeepsInv: promise continuations of other parts of the process may run between any two events but are not steps of the model; the job itself is one step.
- ExportGate.NoDeadlock: holds for limits of at least 1; what happens without slots is `ExportGate.NoSlotNoStart`.
- QueryBuilder.FileListingScope: the scope's tests are on direct fields and their values are not interpreted, so a filter demands one only by the same value on the same field.
- QueryBuilder.SetNestedMeans: the nested object is a value, so assignment along the path rebuilds it instead of writing through a reference; a path through a value that is already set and not falsy (which throws or extends an operator object) is the outcome None.
- QueryBuilder.QueryMeans: parsed filter values and operator objects are opaque, their meaning being the database's; sorting, parsing the filter text and pages or limits that are not whole numbers are left out.
- OrderedCatalog.RunsStaySound: orders are unbounded integers, stored as 32 bits in the original; renaming and toggling, which keep orders and references, are left out.
- OrderedCatalog.CatalogService.RemoveItem: a catalog with one reference column (currencies, priorities) is the case in which the other two columns are empty.
- Portfolios.RunsKeepInv: other columns, attached files, subportfolios, caches and the synchronisation with the dashboard are left out, as are service types created or removed elsewhere; the case-insensitive lookup compares character by character under any folding.
- Portfolios.PortfolioService.ImportFromExcel: the column search in the header and the row numbers of the report are left out.
- RegexEscape.InsensitiveEqualsExact: patterns with operators are not interpreted; no pattern the code builds contains one.
- IdentifierBackfill.PlanChanges: the console report with its samples and reasons is left out.
- ParallelProcessor.ProcessWithWorkers: workers finish in any order in the original, which the result does not depend on; copying values between threads is not modelled, and worker counts are positive.
- ParallelProcessor.ProcessInBatches: a batch size of 0, with which the original's loop never ends, is left out.
- Dispatch.PushMessages: deduplication ids, which contain the clock, and message bodies are left out.
- Grouping of access e-mails and of retrieval rows, which is the grouping of `Dispatch.GroupPairs` with other keys; clearing NULL cells, choosing export columns and attaching counts, which are short loops without an invariant across calls.
- Database, queue, cache, mail and worker-thread calls, permissions, controllers and encryption.
