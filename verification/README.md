# Harbormaster in Dafny

Harbormaster takes counterparty files in, works out whose they are and what business day
they cover, maps their columns, and issues reconciliation instructions. This project models
the parts where that can silently go wrong and proves what the design promises about them.

One module per component, in the form the component has: classes with loops where the
original updates state, functions and datatypes where it computes.

| file | what it models |
|---|---|
| Calendars.dfy | business-day stepping, distance, rolling |
| Slots.dfy | the slot table and the state machine over it |
| Berthmaster.dfy | handlers and sweeps over whole runs: supersession chains |
| Interruptions.dfy | what survives handlers that break off anywhere |
| Redelivery.dfy | what redelivery of their messages makes good, and when it comes too late |
| Alerts.dfy | missing-file alerts over whole runs, broken-off sweeps included |
| StaleWriters.dfy | racing workers with stale slots on one table |
| Projector.dfy | the board fed by unordered, repeated deliveries |
| Mappings.dfy, Scans.dfy | columns, claims, and one stage scanning a list of columns |
| Tier1.dfy, Tier1Laws.dfy | dictionary and price roles, and what they decide per column |
| Variation.dfy, PriceEvidence.dfy | how much price columns vary, and the first tier on a parsed table |
| Tier2.dfy | local matching |
| Ladder.dfy, Resolver.dfy | the escalation ladder, pure and in place, and its template cache |
| Adjudicator.dfy | the model adapter's retry loop and validation, and the stand-in |
| Scanner.dfy | write-completion detection |
| Arrivals.dfy | dedupe, and the store-check-record-publish protocol |
| Portwatch.dfy | scanner, processor and other instances together |
| Audit.dfy | the hash chains |
| Bus.dfy, BusRaces.dfy | the in-process bus, and publishers on it at once |
| ValueDates.dfy | value dates, splitting, sub-batches |
| Confidence.dfy | attribution, coverage, routing |
| Rounding.dfy, Basics.dfy | round-half-even; Option, Result and separators |

Dates are day numbers, times integers, scores exact rationals. The clock, the model, the
string scorer, parsers of dates and filenames, and hashes are parameters: every theorem
holds for all of them. Table headers are distinct, as
python/src/inspector/parsers/base.py:36-41 enforces.

Where the code falls short of its own comments or design, the code is modelled as it is, and
what happens is proved, with the exact condition where there is one to state:

- A crash between recording and publishing an arrival loses the file: the next check finds
  the row and suppresses it (`Arrivals.CrashBeforePublishLosesTheFile`,
  `Arrivals.PublishableExactlyWhenOpen`), although
  go/internal/arrival/processor.go:54-55 says a restart can re-publish.
- A failed or suppressed file is not seen by the next scan again, although
  go/cmd/portwatch/main.go:113-114 says so, nor is one that lost its insert to another
  instance: a path is returned again only after a completed pass missed it or a file handled
  under it was published with nothing failing after
  (`Portwatch.ReturnedAgainExactlyAfterAnEnd`, `Portwatch.PublishedExactlyWhenForgotten`). A published file left in place is returned
  once more and suppressed, and a correction then written over it is never returned
  (`Portwatch.CorrectionIsNeverReturned`). A pass that a failing stat breaks off returns
  nothing but marks what was ready (`Scanner.ReturnedExactlyWhen`); it ends the service
  (go/internal/arrival/scanner.go:177-180, go/cmd/portwatch/main.go:104-107), and a restart
  begins with an empty map.
- A redelivered message is not always handled as if once, as
  go/internal/bus/franz.go:132-133 relies on: while its date is accepted this takes that the
  failed handler had published nothing, afterwards that it had done everything
  (`Redelivery.RedeliveryIsAsOnceExactlyWhen`, `Redelivery.FillingIsAsOnceExactlyWhen`,
  `Redelivery.RefusedIsAsOnceExactlyWhen`). A retry that comes too late leaves a slot
  ASSIGNED that nobody was told of (`Redelivery.LateRetryStrandsTheSlot`,
  `Redelivery.UnannouncedExactlyWhen`, `Redelivery.AnnouncedExactlyBeforeMidnight`); a
  handler that failed between publishing and stamping leaves an assignment nobody ever
  voids (`Interruptions.OrphansAreExactlyTheUnstamped`,
  `Projector.BoardShowsExactlyTheOrphans`).
- Dedupe per content, rather than per content and name, holds one file at a time but not
  between racing instances (`Arrivals.SecondPublicationExactlyWhenOpen`,
  `Arrivals.ContentGoesOutTwice`).
- The cached second resolve repeats the first unless the adjudicator answered with the
  empty string, which settles a column on nothing and is not cached
  (`Ladder.SecondFileCostsNothing`); the live adjudicator never does
  (`Adjudicator.NeverAnswersBlank`).
- Of several price columns that hardly vary, settlement_price goes to the one that varies
  most, not least, unless they all vary alike
  (`Tier1.Prices.SettlementVariesLeastExactlyWhen`, `Tier1.Prices.ConstantColumnLoses`).
- Racing workers can un-assign a complete slot, exactly when the last to write it was a
  sweep, or an Apply that knew one side only (`StaleWriters.CompleteIsUnassignedExactlyWhen`,
  `StaleWriters.StaleSweepUnassigns`, `StaleWriters.SweepOfACompleteRowUnassigns`).
- A sweep that breaks off loses the alerts of exactly the slots it had marked and not yet
  alerted (`Alerts.InterruptedSweepLosesAlerts`): they are made up for only before midnight
  of the deadline day (`Alerts.AlertedAgainExactlyBeforeMidnight`).
- An agreeing semantic signal that is weak lowers a match, or loses it, below what no
  semantic signal would give (`Tier2.Matcher.CorroborationKeepsTheMatch`,
  `Tier2.Matcher.AgreementLosesTheMatchExactlyWhen`, `Tier2.Matcher.WeakAgreementLosesTheMatch`).
- One model reply can make the adjudicator raise instead of declining
  (`Adjudicator.RaisesExactlyWhen`).
- A late consumer misses or repeats messages unless its buffer got each topic's backlog once
  (`Bus.LateConsumer`), and a publish that is cancelled leaves consumers unserved
  (`Bus.Memory.Publish`).
- Messages of one key reach a live consumer out of order, contrary to
  go/internal/bus/memory.go:70-71, exactly when one publisher's send passes another's older
  one (`BusRaces.KeyOrderSurvivesExactlyWhen`, `BusRaces.SecondPublisherGoesFirst`), which
  is still to come exactly while a key waits with two publishers or a waiting message was
  overtaken (`BusRaces.OrderIsAtRiskExactlyWhen`).
- A clock that steps back makes an append break its own chain
  (`Audit.AppendNeedsTheLatest`); truncating a chain or rehashing its last record is not
  noticed (`Audit.DeletionShowsAt`, `Audit.RehashShowsAfter`).
- Two sub-batches of one file can land on the same slot (`ValueDates.SubBatchesShareASlot`).
- A file can be held without any reason (`Confidence.HeldInSilenceExactlyWhen`,
  `Confidence.SilenceAtTheDefaults`, `Confidence.HeldWithoutAReason`), and learning the client
  can turn a hold into a rejection (`Confidence.KnowingTheClientCanWorsen`,
  `Confidence.ReviewLostByKnowingTheClient`).

`dafny verify dfyconfig.toml` checks everything.

## Model

| member | source | states |
|---|---|---|
| `Calendars.Calendar.NextBusinessDay` | go/internal/registry/registry.go:198-206 | the loop lands on the one day that is the first open day after the date, or 30 days on if there is none |
| `Calendars.Calendar.PreviousBusinessDay` | go/internal/registry/registry.go:187-195 | the loop lands on the latest open day before the date, or 30 days back if there is none |
| `Calendars.Calendar.ForwardStepIsUnique` | go/internal/registry/registry.go:198-206 | exactly one day meets the description of a forward step, and it is the one the step function gives |
| `Calendars.Calendar.BackStepIsUnique` | go/internal/registry/registry.go:187-195 | the same for a backward step |
| `Calendars.Calendar.AddBusinessDays` | go/internal/registry/registry.go:210-223 | n steps in the direction of the sign of n |
| `Calendars.Calendar.StepAdjunction` | go/internal/registry/registry.go:187-206 | one step on from v reaches t exactly when v is not before one step back from t, with no assumption on the calendar |
| `Calendars.Calendar.Adjunction` | go/internal/registry/registry.go:210-223 | n business days after v is on or after t exactly when v is on or after n business days before t: every calendar, every n, long closures included |
| `Calendars.Calendar.BusinessDaysBetween` | go/internal/registry/registry.go:226-249 | the signed, capped loop returns the least number of steps from a that reaches b, at most 400 |
| `Calendars.Calendar.StepsUpIsLeast` | go/internal/registry/registry.go:226-249 | n steps from a reach b exactly when n is at least the step count |
| `Calendars.Calendar.DistanceIsAntisymmetric` | go/internal/registry/registry.go:226-249 | the distance from b to a is minus the distance from a to b, for all dates and calendars |
| `Calendars.Calendar.DistanceInvertsAdd` | go/internal/registry/registry.go:210-249 | the distance to the date n business days away is n, for n from -400 to 400 |
| `Calendars.Calendar.DistanceIsAdditive` | go/internal/registry/registry.go:226-249 | distances add up through an open midpoint, under the cap |
| `Calendars.Calendar.StepsUpCounts` | go/internal/registry/registry.go:226-249 | the step count is 1 plus the open days strictly between if and only if no 30 closed days in a row lie strictly between; otherwise it is greater |
| `Calendars.Calendar.DistanceCountsOpenDays` | go/internal/registry/registry.go:226-249 | without such a closure both directions give 1 plus the open days between, signed and capped |
| `Calendars.Calendar.Roll` | python/src/inspector/registry.py:142-156 | the latest open day on or before the date within 30 days; open if and only if there is one |
| `Slots.SqlStore.Upsert` | go/internal/slot/slot.go:337-354 | insert, or merge: state and deadline replaced, sides and assignment kept when the incoming value is blank, the rest never changed |
| `Slots.SqlStore.DueBefore` | go/internal/slot/slot.go:357-385 | every overdue row that is neither ASSIGNED nor MISSING, each once, in any order |
| `Slots.Machine.Accepts` | go/internal/slot/slot.go:137-151 | the loops compute the window around today |
| `Slots.Machine.DeadlineFor` | go/internal/slot/slot.go:271-285 | 23:59 of the day window business days after the value date |
| `Slots.Machine.Apply` | go/internal/slot/slot.go:154-222 | which arrivals are refused and as what, in terms of client, calendar, window, expectations and side; a slot it opens carries the first expectation of the domain and its deadline, a stored one keeps its own; the arrival takes its side, an assignment is due exactly when both sides are there; the table changes by one merge, and not at all on error, a failing write included |
| `Slots.RefusedExactlyWhen` | go/internal/slot/slot.go:125-172 | bad date, no calendar, outside the client's own, the machine's or the two-day window, no expectation of the domain, unknown side: each exactly when, read off the configuration |
| `Slots.AcceptedArrivalFills` | go/internal/slot/slot.go:174-222 | the expectation is the first of the domain; sides, state, superseded assignment, opening time and deadline of the slot in terms of the arrival and the stored row |
| `Slots.FirstForIsFirst` | go/internal/registry/registry.go:148-155 | the expectation found is the first of the domain, and none exactly if there is none |
| `Slots.AcceptedArrivalIsWritten` | go/internal/slot/slot.go:337-354 | after the write the row is the outcome's, but for a blank id, which leaves the stored side; no other row changes |
| `Slots.Machine.RecordAssignment` | go/internal/slot/slot.go:225-236 | stamps id and ASSIGNED on the stored row; without a row, or when the write fails, an error and no change |
| `Slots.Machine.Overdue` | go/internal/slot/slot.go:240-257 | marks exactly the overdue rows MISSING and returns them as marked; when the n-th write fails the n rows before it are marked and none is returned |
| `Slots.SweepMarksTheLate` | go/internal/slot/slot.go:240-257 | a sweep marks exactly the rows past their deadline that are OPEN, PARTIAL or SUPERSEDED, and changes nothing else |
| `Slots.AcceptanceSeenFromTheSlot` | go/internal/slot/slot.go:137-151 | acceptance is the slot-side interval: today lies between value date minus window and the deadline day |
| `Slots.OpenedSlotIsNotYetDue` | go/internal/slot/slot.go:179-186 | a slot Apply opens is due no earlier than 23:59 of that day |
| `Slots.ClosedAfterTheDeadlineDay` | go/internal/slot/slot.go:154-162 | once the deadline day is over every arrival for the slot is refused, in whatever state it is |
| `Berthmaster.Service.Handle` | go/cmd/berthmaster/main.go:96-159 | one message under a failure of any of its writes: nothing unless dispatched; otherwise the applied row, then void, assignment and stamp up to the failure; an error exactly when a step fails, outside-window being none |
| `Berthmaster.Service.Assign` | go/cmd/berthmaster/main.go:166-230 | the void is on the log before the assignment that replaces it, the slot is stamped after both, and a failing step stops what follows it |
| `Berthmaster.Service.Sweep` | go/cmd/berthmaster/main.go:247-283 | overdue slots become MISSING and each is alerted once with the side it lacks; a failing read, write or publish stops there with what was done so far in place |
| `Berthmaster.NoErrorMeansDone` | go/cmd/berthmaster/main.go:96-230 | a handler that ends without an error has done nothing for a file that is not dispatched or outside the window, and otherwise stored the slot and, if that completes it, published the void of what it replaces, then the assignment with the slot's sides and expectation, and stamped the slot |
| `Berthmaster.RunsKeepTheInvariant` | go/cmd/berthmaster/main.go:96-283 | over every run whose handlers complete, redeliveries and broken-off sweeps included: a slot is ASSIGNED exactly when complete and exactly when something was published for it; what was published alternates assignment and void, the first superseding nothing, each later one its immediate predecessor; the last restates the row; an assignment is unvoided exactly while its slot carries its id |
| `Berthmaster.VoidedExactlyOnce` | go/cmd/berthmaster/main.go:171-211 | in the events of one slot each superseded assignment is voided by the next event and by no other |
| `Berthmaster.AssignedIsAbsorbing` | go/internal/slot/slot.go:202-216 | a slot that was ever ASSIGNED stays so to the end of the run |
| `Berthmaster.BlankArrivalBreaksExactlyTheAssigned` | go/internal/slot/slot.go:337-354 | ASSIGNED-exactly-when-complete survives an arrival if and only if its id is not blank or the slot was not ASSIGNED |
| `Interruptions.VoidsPrecedeReplacements` | go/cmd/berthmaster/main.go:161-212 | in every run, wherever handlers and sweeps break off, an assignment that replaces another comes after a void of it |
| `Interruptions.OrphansAreExactlyTheUnstamped` | go/cmd/berthmaster/main.go:190-215 | over every such run an assignment stays unvoided although its slot does not carry it if and only if its handler broke off between publishing and stamping |
| `Redelivery.RedeliveryIsAsOnceExactlyWhen` | go/cmd/berthmaster/main.go:96-230 | a message whose handler broke off anywhere on an arrival that completes its slot, redelivered at any later time: the outcome is that of one handling if and only if, the value date being still accepted, nothing had been published, or, being no longer accepted, everything had been done |
| `Redelivery.FillingIsAsOnceExactlyWhen` | go/cmd/berthmaster/main.go:96-156 | the same for an arrival that leaves its slot incomplete, but for when a new slot was opened: if and only if it was stored the first time, is still accepted, or has nothing to change |
| `Redelivery.RefusedIsAsOnceExactlyWhen` | go/cmd/berthmaster/main.go:120-136 | the same for an arrival that was refused: if and only if it is refused again or has nothing to change |
| `Redelivery.LateRetryStrandsTheSlot` | go/cmd/berthmaster/main.go:120-149 | when the handler stored the completed slot, published nothing, and the retry comes after the deadline day, the retry is refused without an error, the row says ASSIGNED and shows the arrival, and nothing was published for it |
| `Redelivery.UnannouncedExactlyWhen` | go/internal/slot/slot.go:202-220 | over every run with any failures: the last published assignment of a slot names what the last publishing handler stored; a slot is ASSIGNED exactly if some handler stored a completing arrival for it and shows what the last of these stored; that is unpublished if and only if that handler broke off before publishing and had not stored again what the last publishing one had |
| `Redelivery.AnnouncedExactlyBeforeMidnight` | go/internal/slot/slot.go:137-162 | such a slot of any run can still be published in some continuation if and only if it is not yet midnight of its deadline day |
| `Alerts.AlertsNameTheGap` | go/internal/slot/slot.go:260-269 | each alert of a sweep is for a slot past its deadline and names its key, expectation, deadline and a side it lacks |
| `Alerts.AlertsAreRationed` | go/internal/slot/slot.go:240-257 | over every run, failures included, alerts for a slot never exceed one if it is MISSING plus one per arrival for it in the last minute of the deadline day |
| `Alerts.TwoAlertsNeedALastMinuteArrival` | go/internal/slot/slot.go:240-257 | two alerts for one slot need a dispatched arrival for it between 23:59 and midnight of its deadline day |
| `Alerts.SweepAlertsExactly` | go/cmd/berthmaster/main.go:247-283 | in a sweep that breaks off, overdue slot i is marked exactly if no read failed and no write up to its own did, and alerted exactly if every slot was marked and no publish up to its own failed |
| `Alerts.InterruptedSweepLosesAlerts` | go/internal/slot/slot.go:238-257 | a broken-off sweep leaves a slot marked and not alerted exactly for those before the failed write or from the failed publish on, and over every continuation such a slot has at most one alert per last-minute arrival, none while it stays MISSING |
| `Alerts.LostAlertsStayLost` | go/internal/slot/slot.go:238-257 | the same from any world with a MISSING slot past its deadline, for every continuation on a clock that does not run back |
| `Alerts.AlertedAgainExactlyBeforeMidnight` | go/internal/slot/slot.go:238-257 | a MISSING, incomplete slot past its deadline is alerted in some continuation if and only if it is not yet midnight of its deadline day |
| `StaleWriters.MergeSurvives` | go/internal/slot/slot.go:342-347 | merging any slot with the same deadline blanks no side and no assignment and changes neither opening time nor expectation |
| `StaleWriters.RowsSurviveEveryInterleaving` | go/internal/slot/slot.go:225-257 | any workers holding any stale slots, reading, editing and writing in any order: recorded sides and ids are never blanked, opening time, expectation and deadline never change |
| `StaleWriters.StateIsTheLastWriters` | go/internal/slot/slot.go:342-347 | through any interleaving of any changes the state of a row is what its last writer said, and a row nobody wrote is unchanged |
| `StaleWriters.CompleteIsUnassignedExactlyWhen` | go/internal/slot/slot.go:188-257 | any workers doing in any order what Apply, Overdue and RecordAssignment do, from an empty table: a complete row is un-assigned if and only if its last write was a sweep's mark, or an Apply that knew one side only |
| `StaleWriters.StaleSweepUnassigns` | go/internal/slot/slot.go:240-257 | it happens: a sweep that read before the second side arrived turns a complete ASSIGNED slot MISSING |
| `StaleWriters.SweepOfACompleteRowUnassigns` | go/internal/slot/slot.go:202-257 | and with a last writer that saw both sides: two first arrivals race and each stores PARTIAL, and past the deadline a sweep lists the complete row and marks it MISSING |
| `Projector.Store.ProjectAssignment` | go/internal/web/projector.go:67-84 | insert if absent |
| `Projector.Store.ProjectSuperseded` | go/internal/web/projector.go:91-100 | voided once, and only if the row is there |
| `Projector.Store.ProjectAlert` | go/internal/web/projector.go:103-122 | insert if absent under the derived id |
| `Projector.BoardIsFaithful` | go/internal/web/projector.go:67-122 | after any deliveries: a row per assignment delivered, copied from it, voided exactly when some void of it came after it, by a successor such a void named; a row per alert id delivered, copied from the first |
| `Projector.BoardMatchesSlots` | go/internal/web/projector.go:67-100 | after any delivery of a whole run in which every void comes at least once after its assignment, unvoided rows are in bijection with ASSIGNED slots and carry their ids and sides |
| `Projector.RedeliveryIsIdempotent` | go/internal/web/projector.go:67-122 | redelivering a message changes nothing, if and only if it is not a void that has only ever come before its assignment |
| `Projector.PublishOrderDelivers` | go/cmd/berthmaster/main.go:166-215 | the order Berthmaster publishes in is such a delivery, broken-off handlers included |
| `Projector.BoardShowsExactlyTheOrphans` | go/internal/web/projector.go:67-100 | over every run with any failures and any such delivery, the board shows as valid an assignment its slot does not carry if and only if its handler broke off before stamping |
| `Projector.AlertIdIsInjective` | go/internal/web/projector.go:106-108 | two slots and sides never share an alert id, colons in the client id included |
| `Tier1.MapTable` | python/src/inspector/mapping/tier1.py:147-194 | the loops compute the first tier, whose columns Tier1Laws decides in terms of vocabulary and headers |
| `Tier1Laws.FirstTierDecides` | python/src/inspector/mapping/tier1.py:147-194 | column by column: HUMAN at 1.0 exactly if overridden; to the price pass exactly if its alias is a price field, or the dictionary passes and it looks like a price; ALIAS at 1.0 on a field exactly if its alias is that field, mappable, no price, and no earlier column holds it; otherwise unresolved at 0.0 |
| `Tier1Laws.PricePassIs` | python/src/inspector/mapping/tier1.py:196-227 | the price pass gets exactly those columns in table order, and groups rows by the first column on an instrument id unless its header is blank |
| `Tier1Laws.PricesDecide` | python/src/inspector/mapping/tier1.py:229-294 | a header that names one role gets it at 0.98 exactly if preferred over all that do, the first on ties; of the rest the most varying gets trade_price if it varies in at least half and no header names a trade price, the most varying under half settlement_price if no header names one |
| `Tier1.ResolvePrices` | python/src/inspector/mapping/tier1.py:196-294 | every price column gets exactly its role |
| `Tier1.ByName` | python/src/inspector/mapping/tier1.py:232-252 | the stable sort picks the greatest preference, the earliest on ties; the others stay open |
| `Tier1.ByStructure` | python/src/inspector/mapping/tier1.py:257-293 | scanning in falling order of variation gives trade_price to the most varying column if at least one half, settlement_price to the most varying of those under one half |
| `Tier1.SortFindsGreatest` | python/src/inspector/mapping/tier1.py:238-239 | first under a cut in descending stable order is the greatest under the cut |
| `Tier1.Prices.RolesAreExclusive` | python/src/inspector/mapping/tier1.py:229-294 | each price role goes to at most one column |
| `Tier1.Prices.StructuralWinners` | python/src/inspector/mapping/tier1.py:257-283 | a structural trade_price varies at least as much as every undecided column; a structural settlement_price at least as much as every one under one half |
| `Tier1.Prices.SettlementVariesLeastExactlyWhen` | python/src/inspector/mapping/tier1.py:254-283 | the structural settlement_price is a least varying of the columns under one half if and only if these all vary alike |
| `Tier1.Prices.ConstantColumnLoses` | python/src/inspector/mapping/tier1.py:254-283 | of a constant column and one that varies a little, in either order, the varying one becomes settlement_price and the constant one stays unassigned |
| `Tier1.InSourceOrder` | python/src/inspector/mapping/tier1.py:296-298 | one mapping per header, in header order |
| `Tier1.SharingNeedsAnOverride` | python/src/inspector/mapping/tier1.py:153-185 | two columns hold the same field only if a client override put one there |
| `Tier1.Tier1IsSafe` | python/src/inspector/mapping/tier1.py:147-194 | one mapping per header in order, no model tier, and no field held twice but override targets |
| `Tier1.StructureNeverOutranksAName` | python/src/inspector/mapping/tier1.py:330-332 | structural confidence grows with the evidence and stays within 0.55 and 0.90 |
| `Tier1.StructureEarns` | python/src/inspector/mapping/tier1.py:330-332 | structural confidence is 0.55 plus 0.35 of the strength to three decimals, and 0.90 from full strength on |
| `PriceEvidence.Table.Map` | python/src/inspector/mapping/tier1.py:147-194 | the whole first tier on a parsed table, its structural evidence being the variation ratio of the columns and its score the capped one |
| `PriceEvidence.Table.StructureReadsTheTable` | python/src/inspector/mapping/tier1.py:254-283 | on a parsed table, a column whose header names neither role, or both, that structure makes the trade price varies in at least half of the comparable instruments, the settlement price in fewer; a column constant in every instrument never becomes the trade price by structure, one that varies in all never the settlement price; the score lies between 0.55 and 0.90 |
| `Variation.VariationRatio` | python/src/inspector/mapping/tier1.py:103-135 | the share of comparable groups that vary, or overall distinctness when no group is comparable |
| `Variation.Tally` | python/src/inspector/mapping/tier1.py:128-135 | counts exactly the groups with more than one filled row, and those of them holding two values |
| `Variation.Column.ShareMeansVariation` | python/src/inspector/mapping/tier1.py:106-110 | the ratio is 0 exactly when every group is constant and 1 exactly when every comparable group varies |
| `Variation.Column.InformativeHasTwoRows` | python/src/inspector/mapping/tier1.py:118-130 | a group is comparable exactly when it has two filled rows |
| `Variation.DistinctnessMeansDifference` | python/src/inspector/mapping/tier1.py:103-135 | without comparable groups the ratio is 0 exactly without filled cells, and 1 exactly when no two filled cells are alike |
| `Tier2.Matcher.MatchIsFreshAndBounded` | python/src/inspector/mapping/tier2.py:193-259 | a local match is never an excluded field and has confidence between 0.72 and 0.88 |
| `Tier2.Matcher.FuzzyIsTheBest` | python/src/inspector/mapping/tier2.py:261-277 | the fuzzy signal is the field of a free alias that no free one scores above, the earliest of those, and silent exactly for a header that normalises to nothing or when no alias is free |
| `Tier2.Matcher.DisagreementFollowsTheStronger` | python/src/inspector/mapping/tier2.py:203-259 | a lone signal, or the higher-scoring of two that disagree, the fuzzy one on ties, is followed exactly when 0.92 of its score reaches 0.72, at that confidence capped at 0.88 |
| `Tier2.Matcher.AgreementIsFollowedExactlyWhen` | python/src/inspector/mapping/tier2.py:226-231 | two that agree are followed exactly when 0.55 fuzzy + 0.45 semantic reaches 0.66, at 0.06 more capped at 0.88 |
| `Tier2.Matcher.CorroborationKeepsTheMatch` | python/src/inspector/mapping/tier2.py:203-259 | against having no semantic model, an agreeing signal costs neither the match nor confidence if and only if fuzzy alone was below the threshold, or both together reach it and round to no less |
| `Tier2.Matcher.AgreementLosesTheMatchExactlyWhen` | python/src/inspector/mapping/tier2.py:203-259 | an agreeing signal loses the match if and only if fuzzy alone was accepted and 0.55 fuzzy + 0.45 semantic is under 0.66 |
| `Tier2.Matcher.WeakAgreementLosesTheMatch` | python/src/inspector/mapping/tier2.py:203-259 | fuzzy 0.85 is accepted at 0.782 alone and declined with an agreeing semantic 0.30 |
| `Tier2.Matcher.WinnerSurvives` | python/src/inspector/mapping/tier2.py:261-277 | excluding other fields leaves the fuzzy winner and its score |
| `Tier2.Matcher.ScoreNeverRises` | python/src/inspector/mapping/tier2.py:261-277 | excluding more fields never raises the best score |
| `Tier2.Matcher.MatchIsStable` | python/src/inspector/mapping/tier2.py:193-223 | without the semantic signal a match, or a decline, is unmoved by excluding fields it did not choose |
| `Scans.ScanIsSafe` | python/src/inspector/mapping/resolver.py:107-122 | a stage that proposes only unclaimed fields keeps every settled column and never gives a field twice |
| `Scans.ScanReplays` | python/src/inspector/mapping/resolver.py:107-122 | a stable stage runs beside extra claims exactly as without them, as long as it chose none of them |
| `Ladder.EveryStageIsSafe` | python/src/inspector/mapping/resolver.py:71-103 | for every scorer, cached entry and adjudicator: columns keep their place, no stage touches what an earlier one settled, no field goes to a second column |
| `Ladder.EveryStageDecides` | python/src/inspector/mapping/resolver.py:61-210 | which columns each stage settles, on what and with what confidence: a cached field, a local match, the last answer for the header, if its field is unclaimed by then; when the cache counts, when the adjudicator is asked, and the counters |
| `Ladder.TheRequestNamesWhatIsOpen` | python/src/inspector/mapping/resolver.py:137-152 | the request lists the sources of exactly the open columns, in column order, and maps a header to a field exactly if its column is settled on it |
| `Ladder.SecondFileCostsNothing` | python/src/inspector/mapping/resolver.py:71-182 | semantic matcher unavailable, first resolve settled a column through the adjudicator: the second makes no call and agrees on field and tier everywhere, if and only if no column was answered with the empty string |
| `Resolver.TemplateCache.Get` | python/src/inspector/mapping/tier3.py:188-194 | the stored entry and the hit and miss counters |
| `Resolver.TemplateCache.Put` | python/src/inspector/mapping/tier3.py:196-205 | replaces the entry for the fingerprint and client |
| `Resolver.TieredResolver.ApplyCached` | python/src/inspector/mapping/resolver.py:192-210 | the in-place loop with a carried taken set is the cache stage |
| `Resolver.TieredResolver.RunTier2` | python/src/inspector/mapping/resolver.py:107-122 | the in-place loop over open columns is the local stage, counting what it settled |
| `Resolver.TieredResolver.SettleAnswers` | python/src/inspector/mapping/resolver.py:156-171 | the in-place loop over open columns is the adjudicated stage, counting what it settled |
| `Resolver.TieredResolver.RunTier3` | python/src/inspector/mapping/resolver.py:124-182 | one request, naming exactly the open columns in order and the fields settled, the last answer for each open header applied unless its field is claimed, and the learned columns cached when the call was keyed and something was settled |
| `Resolver.TieredResolver.Resolve` | python/src/inspector/mapping/resolver.py:61-103 | the whole resolve refines the pure ladder: mappings, counters, cache hit, the requests sent to the adjudicator and the cache left behind |
| `Resolver.OneRequestAboutWhatIsOpen` | python/src/inspector/mapping/resolver.py:94-103 | at most one request per resolve, sent exactly if an adjudicator is there, columns are open after the local stage and the cache did not count, and about exactly these |
| `Resolver.NextRound` | python/src/inspector/mapping/resolver.py:110-111 | looping over the open columns alone skips nothing that a scan over all columns would change |
| `Resolver.ResolvedTableIsSafe` | python/src/inspector/mapping/resolver.py:71-210 | one mapping per header in header order, the dictionary result untouched, no field held twice but override targets |
| `Resolver.SameLayoutAgain` | python/src/inspector/mapping/resolver.py:71-182 | the second-file law for whole tables, first tier included |
| `Adjudicator.ClampIsBounded` | python/src/inspector/mapping/tier3_llm.py:306-311 | any stated confidence, unparseable, NaN and infinite ones included, ends between 0 and 0.85, except an integer beyond float range, which raises |
| `Adjudicator.ClampSays` | python/src/inspector/mapping/tier3_llm.py:306-311 | a stated number counts to three decimals between 0 and 0.85; a missing or unreadable one as 0.7, NaN as 0, an infinite one as the bound |
| `Adjudicator.ParsedIsTrustworthy` | python/src/inspector/mapping/tier3_llm.py:202-271 | for every list of items that does not make it raise: proposals are mappable candidates, pairwise distinct, disjoint from what is resolved, between 0 and 0.85, and every requested header has an answer |
| `Adjudicator.ParsedIsWhatWasProposed` | python/src/inspector/mapping/tier3_llm.py:215-271 | a reply is unusable exactly if no item is about a requested header; otherwise the fields answered are exactly those proposed, each for the header and with the confidence of the first item to propose it |
| `Adjudicator.RaisesExactlyWhen` | python/src/inspector/mapping/tier3_llm.py:215-254 | reading a reply raises if and only if its text does, as with fields that cannot be iterated, or the first item to propose some free field states an integer beyond float range |
| `Adjudicator.ClaudeAdjudicator.Parse` | python/src/inspector/mapping/tier3_llm.py:210-271 | the validation loop and the completion loop compute the validated answers, nothing if none was usable, or raise |
| `Adjudicator.ClaudeAdjudicator.Adjudicate` | python/src/inspector/mapping/tier3_llm.py:120-163 | the answer of the first usable reply within max_attempts, or a decline for every header, or an error if a reply raises first; one counter step per attempt; no attempt without headers or attempts to make |
| `Adjudicator.AdjudicationIsSound` | python/src/inspector/mapping/tier3_llm.py:120-163 | whatever the model says and however often it fails: at least one and at most max_attempts attempts; it raises exactly when the reply it stops at does; otherwise every header is answered and every proposal trustworthy |
| `Adjudicator.Usage.AttemptsAreCounted` | python/src/inspector/mapping/tier3_llm.py:145-155 | every attempt is counted once, as a call or as a failure |
| `Adjudicator.NeverAnswersBlank` | python/src/inspector/mapping/tier3_llm.py:225-227 | its answers never contain the empty string, which is the condition of the second-file law |
| `Adjudicator.EveryHeaderIsOnRecord` | python/src/inspector/mapping/tier3.py:70-71 | the resolver finds an answer for each header it asked about |
| `Adjudicator.Rulebook.Adjudicate` | python/src/inspector/mapping/tier3.py:111-140 | the deterministic stand-in answers each header once, in order, with the first rule's field that is neither resolved nor given to a header before it, whatever candidates the request lists |
| `Scanner.Scanner.Scan` | go/internal/arrival/scanner.go:104-165 | a pass keeps the map equal to what each path's history adds up to, and returns a path, once, exactly when that history says so; an unreadable directory changes nothing; a stat that fails returns nothing but keeps what was seen before it |
| `Scanner.Scanner.Observe` | go/internal/arrival/scanner.go:130-154 | one file of a pass: first sight, emitted, changed, or one interval more |
| `Scanner.Scanner.Forget` | go/internal/arrival/scanner.go:98 | forgetting a path ends its sighting |
| `Scanner.SightIs` | go/internal/arrival/scanner.go:114-130 | a pass sees a path exactly if it comes to an entry of it that is no directory, not hidden, without an ignored suffix and that it can stat; it then sees its size, time and whether the sentinel file is there |
| `Scanner.ReachIs` | go/internal/arrival/scanner.go:114-127 | a pass comes to the first such file whose stat fails for another reason than having vanished, or to the end |
| `Scanner.EmitsAtFirstReady` | go/internal/arrival/scanner.go:130-154 | a path is marked as emitted exactly at the first scan of its current sighting at which its last k+1 observations, k at least 1, are equal and either the sentinel exists or k intervals reach the quiet window |
| `Scanner.ReturnedExactlyWhen` | go/internal/arrival/scanner.go:114-164 | a pass returns a path if and only if it does not break off and is the first of the current sighting at which the path is ready |
| `Scanner.OneEmissionPerSighting` | go/internal/arrival/scanner.go:135-137 | between two emissions of a path lies a scan that did not see it or a Forget, whatever became of the file |
| `Scanner.NeverMidWrite` | go/internal/arrival/scanner.go:139-145 | a file that changed since the last scan is not returned |
| `Scanner.EmittedOnceQuiet` | go/internal/arrival/scanner.go:146-154 | a sighting that ends in enough equal observations has had its path marked |
| `Scanner.ReturnedOnceQuiet` | go/internal/arrival/scanner.go:146-183 | in a service that still runs, a failing pass having ended it otherwise, a sighting that ends in enough equal observations has had its path returned |
| `Portwatch.ReturnedAgainExactlyAfterAnEnd` | go/internal/arrival/processor.go:87-147 | passes, handlings and other instances in any order, also between the check and the insert of a handling: a path once returned is returned again if and only if a completed pass misses it, or a file handled under it is published with nothing failing after, and it turns ready after that |
| `Portwatch.PublishedExactlyWhenForgotten` | go/internal/arrival/processor.go:87-147 | a handling without a failure publishes its file exactly when it forgets the path: not when the check suppresses it, and not when its insert loses to another instance |
| `Portwatch.CorrectionIsNeverReturned` | go/internal/arrival/processor.go:91-102 | a file is returned, published and forgotten; left in place it is returned again and suppressed; from then on, whatever is written over it, the path is never returned while it stays in sight |
| `Arrivals.SQLDeduper.Check` | go/internal/arrival/dedupe.go:59-103 | DUPLICATE exactly if content and name are there together, NEW exactly if the content is not, REDELIVERY otherwise, with the earliest prior arrival and how many there were |
| `Arrivals.SQLDeduper.Record` | go/internal/arrival/dedupe.go:107-125 | inserts unless content and name are already there together |
| `Arrivals.PublishedOncePerKey` | go/internal/arrival/processor.go:87-135 | any interleaving of any instances and crashes: at most one arrival published per content and filename, each stored and recorded before |
| `Arrivals.NoInterleavingPublishesTwice` | go/internal/arrival/processor.go:87-135 | the same from an empty system |
| `Arrivals.SequentiallyOncePerContent` | go/internal/arrival/processor.go:87-135 | one file at a time, each attempt breaking off anywhere: at most one published per content |
| `Arrivals.SecondPublicationExactlyWhenOpen` | go/internal/arrival/processor.go:87-135 | content published once is published a second time in some continuation if and only if some instance holding it is past its check and would not be rejected by its insert |
| `Arrivals.TwoNamesRace` | go/internal/arrival/dedupe.go:105-124 | interleaved, the same content does go out under two names once both checks have passed |
| `Arrivals.ContentGoesOutTwice` | go/internal/arrival/processor.go:87-135 | from an empty system some run publishes the same content under any two names |
| `Arrivals.ClosedForGood` | go/internal/arrival/processor.go:87-114 | once content is recorded and no instance holding it could still insert or publish it, nothing with that content is ever published again |
| `Arrivals.PublishableExactlyWhenOpen` | go/internal/arrival/processor.go:87-135 | recorded content can still be published in some continuation if and only if some instance holding it is past its check and would not be rejected by its insert |
| `Arrivals.CrashBeforePublishLosesTheFile` | go/internal/arrival/processor.go:46-55 | a crash between record and publish loses the file under every continuation, contrary to the comment that a restart can re-publish |
| `Arrivals.Processor.Handle` | go/internal/arrival/processor.go:70-153 | the step order and the returned error under every fault, with other instances recording between check and insert, and Forget only after everything went through |
| `Audit.Hasher.ComputeHash` | go/internal/audit/audit.go:70-87 | hash of the nine fields, each closed by 0x1f |
| `Audit.EncodeIsInjective` | go/internal/audit/audit.go:72-85 | the encoding determines the fields when none contains the separator |
| `Audit.VerifyRecords` | go/internal/audit/audit.go:196-210 | nothing if and only if every record links and hashes; otherwise the first record that does not, and which check failed |
| `Audit.Chain.Append` | go/internal/audit/audit.go:95-146 | one record saying what the entry does, to the microsecond and with the actor or "system", linked to the latest of its arrival and hashed |
| `Audit.Chain.Verify` | go/internal/audit/audit.go:183-189 | the first break of the stored chain, or nothing |
| `Audit.Chain.VerifyAll` | go/internal/audit/audit.go:213-244 | a break for every chain that does not verify and for no other |
| `Audit.HeadDeterminesTheChain` | go/internal/audit/audit.go:65-87 | two verifying chains that end in the same hash are identical |
| `Audit.EditShowsAt` | go/internal/audit/audit.go:196-210 | editing any hashed field of record p of a chain is reported at p |
| `Audit.StoredEditShows` | go/internal/audit/audit.go:149-210 | editing any hashed field of any stored row, time, id and arrival included, leaves the chain it is then read in not verifying |
| `Audit.RehashShowsAfter` | go/internal/audit/audit.go:196-210 | editing and rehashing record p is reported at p+1, and not at all if p was the last |
| `Audit.DeletionShowsAt` | go/internal/audit/audit.go:196-210 | deleting a block from p is reported at p, and not at all if it ended the chain |
| `Audit.AppendNeedsTheLatest` | go/internal/audit/audit.go:115-137 | an append leaves its chain verifying if and only if no record of the chain is later in (time, id) |
| `Audit.EveryChainVerifies` | go/internal/audit/audit.go:95-172 | any appends interleaved over any arrivals with increasing (time, id) leave every chain verifying |
| `Bus.Memory.Publish` | go/internal/bus/memory.go:47-80 | every partition holds its share of what was published in order with offsets 0, 1, 2, …; every subscriber is sent exactly the messages of its topics, in publish order, up to the send at which the context is cancelled; one call at a time |
| `BusRaces.KeyOrderSurvivesExactlyWhen` | go/internal/bus/memory.go:68-79 | publishers at once, each storing under the lock and delivering on its own: once all is delivered, a consumer has every key in the order stored if and only if no send ever passed an older waiting message of its key |
| `BusRaces.OrderIsAtRiskExactlyWhen` | go/internal/bus/memory.go:68-79 | from any reachable state still in order, some sends break the order of a key if and only if a key waits with two publishers, or a waiting message was overtaken already |
| `BusRaces.KeepingOffKeepsOrder` | go/internal/bus/memory.go:68-79 | if a batch is stored only when nothing of its keys waits with another publisher, every key is received in the order stored at all times |
| `BusRaces.SecondPublisherGoesFirst` | go/internal/bus/memory.go:68-79 | two publishers with one message each under one key: delivered in the opposite order |
| `Bus.Memory.NewConsumer` | go/internal/bus/memory.go:90-116 | the replay is the first 1024 messages of the stored history of its topics |
| `Bus.Memory.Messages` | go/internal/bus/memory.go:120-128 | the whole topic by partition and offset; per key exactly what was published, in order |
| `Bus.Router.KeysKeepPublishOrder` | go/internal/bus/memory.go:37-80 | per key, a topic's messages are exactly those published, in publish order |
| `Bus.ForTargets` | go/internal/bus/memory.go:53-78 | fan-out sends each subscriber exactly what it asked for |
| `Bus.LateConsumer` | go/internal/bus/memory.go:87-116 | a late consumer is told of every key completely, once and in order if and only if its buffer got the backlog of each topic once: for topics named once, if and only if the backlog fitted |
| `ValueDates.Resolve` | python/src/inspector/valuedate.py:190-258 | explicit column, trade dates plus settlement, filename, or the business day before arrival, in that order: what that means is ResolvedFollowsTheEvidence |
| `ValueDates.ResolvedFollowsTheEvidence` | python/src/inspector/valuedate.py:190-329 | method, day, confidence and flag in terms of the dates read: the first non-empty of explicit dates, trade dates moved on by the offset, filename date, open day before arrival; rolled from the most frequent, first seen on ties; less 10 percent when they differ and 0.10 on a closed day; listed ascending, once each |
| `ValueDates.ColumnIsRead` | python/src/inspector/valuedate.py:261-269 | the dates read are what the column's readable cells say, in row order, and none without a column |
| `ValueDates.CountIsHowMany` | python/src/inspector/valuedate.py:282-284 | the count of a date is the number of places it stands at |
| `ValueDates.Finish` | python/src/inspector/valuedate.py:272-329 | the dominant date rolled onto a business day, with its confidence and flag |
| `ValueDates.MostCommon` | python/src/inspector/valuedate.py:282-284 | the most frequent date |
| `ValueDates.DominantIsUnique` | python/src/inspector/valuedate.py:282-284 | exactly one place holds the most frequent date first seen, and it is the one chosen |
| `ValueDates.Split` | python/src/inspector/valuedate.py:341-350 | one group per date that occurs, holding that date's rows in source order |
| `ValueDates.RowsOnAreTheRows` | python/src/inspector/valuedate.py:344-350 | the group of a date is exactly the rows whose cell says it, in source order |
| `ValueDates.SplitByValueDate` | python/src/inspector/valuedate.py:332-350 | no column or one date only: no groups; otherwise the whole split |
| `ValueDates.Context.Classify` | python/src/inspector/main.py:199-273 | one date or none: the whole file once, as batch 0 of 1; otherwise one batch per date in date order, numbered 0 to n-1 of n, holding that date's rows in source order and resolved on them alone |
| `ValueDates.SplitDates` | python/src/inspector/valuedate.py:341-350 | the split returns groups exactly when more than one date occurs, one for each date |
| `ValueDates.SubBatchesConserveRows` | python/src/inspector/valuedate.py:344-350 | every row with a readable date is in exactly one sub-batch: sizes sum to the dated rows |
| `ValueDates.SubBatchIsItsDay` | python/src/inspector/main.py:233-243 | the sub-batch of day d resolves to the latest business day on or before d by explicit content, flagged exactly when the filename says another day |
| `ValueDates.ResolutionIsABusinessDay` | python/src/inspector/valuedate.py:190-258 | on a calendar that opens at least once in 30 days every resolution is a business day, flagged exactly when a filename date differs |
| `ValueDates.SubBatchesShareASlot` | python/src/inspector/main.py:197-199 | two sub-batches resolve to the same day, and so to one slot, if and only if the market is shut from after the first date through the second and opened in the 30 days up to the second |
| `ValueDates.ResolvedIsGraded` | python/src/inspector/valuedate.py:286-322 | the confidence of a resolution is one of the grades its method allows, with the penalties for spanning and rolling |
| `Confidence.Scan.FindAccountIds` | python/src/inspector/attribution.py:87-117 | the loops compute the identifiers of the cells in order |
| `Confidence.Scan.FoundExactly` | python/src/inspector/attribution.py:87-117 | those are known identifiers, each once, in the order the cells bring them: exactly those that are a cell, or a part of a cell that is not itself a new identifier |
| `Confidence.Attribute` | python/src/inspector/attribution.py:120-229 | a conflict exactly if two witnesses, account clients or the filename's, differ; the confidence by which kinds of witness there are; nobody's exactly without a witness or when accounts differ, otherwise the first account's client, else the filename's |
| `Confidence.MappingCoverage` | python/src/inspector/confidence.py:75-100 | weighted coverage and the missing fields in order |
| `Confidence.CoverageIsAShare` | python/src/inspector/confidence.py:75-100 | coverage lies between 0 and 1, and a field is missing exactly when no column holds it |
| `Confidence.CoverageLosesTheMissingWeight` | python/src/inspector/confidence.py:85-100 | columns of one confidence cover that confidence of the required weight less the weight of the missing fields |
| `Confidence.HolderIsTheLast` | python/src/inspector/confidence.py:85 | of several columns on one field the last one counts |
| `Confidence.Scorer.Compose` | python/src/inspector/confidence.py:103-176 | score, disposition, missing fields and reasons; a dispatched file keeps only its date disagreement |
| `Confidence.ConcernsNameTheirCauses` | python/src/inspector/confidence.py:118-160 | each reason is noted exactly when the file calls for it: no client or a conflict, no date, a disagreement or weak date, each required field no column holds, each held at under 0.7, each open column with price evidence |
| `Confidence.DispatchedShowsOnlyTheDates` | python/src/inspector/confidence.py:162-166 | a dispatched file is shown with its date disagreement if there is one and nothing else |
| `Confidence.RaisingConfidenceNeverHurts` | python/src/inspector/confidence.py:103-197 | for all thresholds, raising the client's, the date's or any column's confidence never worsens the disposition |
| `Confidence.KnowingTheClientCanWorsen` | python/src/inspector/confidence.py:189-197 | learning the client, and with it perhaps the domain, worsens the disposition if and only if no field is missing and the score, at least half the quarantine threshold before, is under both thresholds after |
| `Confidence.ReviewLostByKnowingTheClient` | python/src/inspector/attribution.py:222-266 | a file of unknown client scoring 0.4925 is quarantined; named a cash file by its filename, with three columns mapped at 0.39, it scores 0.5895 and is rejected |
| `Confidence.DispatchNeedsEnoughEvidence` | python/src/inspector/confidence.py:179-197 | at the default thresholds, in terms of what filename and accounts say: never when two witnesses differ, on arrival time alone, or on the filename alone for client and date; and sufficient evidence does dispatch at full coverage |
| `Confidence.GradesThatSuffice` | python/src/inspector/attribution.py:37-41 | which combinations of client evidence and date evidence reach the threshold at full coverage |
| `Confidence.HeldInSilenceExactlyWhen` | python/src/inspector/confidence.py:118-166 | a file is held and shown without a reason if and only if client, date, required fields and every column are beyond question and the score is under the dispatch threshold |
| `Confidence.SilenceAtTheDefaults` | python/src/inspector/confidence.py:118-197 | at the default thresholds and full coverage an unquestionable file is held exactly when only its filename names the client and the date is not explicit in the contents nor inferred from them unpenalised |
| `Confidence.HeldWithoutAReason` | python/src/inspector/confidence.py:16-20 | in a domain without required fields, whatever its columns, a file named and dated only by its filename is quarantined with an empty reason list unless a price column is open |
| `Rounding.RoundingIsMonotone` | python/src/inspector/confidence.py:100 | rounding to three or four places keeps order |
| `Rounding.NearestIsNearest` | python/src/inspector/confidence.py:100 | no integer is nearer, and of two equally near the even one is taken |

## Left out

- Calls into Postgres, Kafka, the object store, the model API, rapidfuzz and embeddings: statements are atomic maps, scorers and replies arbitrary functions.
- Evidence strings, notes, log lines, sample rows in prompts, audit appends inside handlers: they do not feed back into decisions (price evidence in routing is an arbitrary predicate).
- The clock is read once per call; Apply and its callers read it up to three times.
- Berthmaster.RunsKeepTheInvariant: for handlers that complete or store nothing; what remains of it when they break off half-way is stated in Interruptions.dfy. Steps are atomic: a sweep that interleaves inside Apply is covered only by the stale-writer theorems.
- Berthmaster.Service.Handle: a read that fails counts with the write after it, since neither changes anything; a message that does not decode is an error before anything happens.
- Delivery order across the void and assignment topics, which the bus does not promise: only publish order and the projector's tolerance of any order are stated.
- ProjectClassified and the rest of the web read model: plain column updates keyed by arrival.
- Ladder.SecondFileCostsNothing: requires the semantic matcher to be unavailable in both resolves, because excluding a field can change which of two signals wins.
- The embedding model failing in the middle of a table: availability is fixed per resolve.
- Tier1.Tier1IsSafe: override targets are exempt from exclusivity; overrides are applied without a check on what is already claimed.
- Header normalisation, the alias dictionary, price-header vocabularies, embedding arithmetic and sample-based price detection: parameters of the vocabulary and the matcher.
- Bus.Memory.Publish: one call at a time; publishers at once are in BusRaces.dfy, for one consumer and without cancellation.
- The scanner's map is shared between its own goroutine and the one that forgets paths without a lock; passes and handlings alternate here.
- Which texts raise on being parsed, and field names that are not strings, which count as their text.
- Resolver.TieredResolver.RunTier3: for adjudicators that return; one that raises aborts the resolve.
- Scanner.Scanner.Scan: the directory listing names each path once.
- The order in which a listing's candidates reach the channel, and the channel's capacity.
- The bus's consumers are entries of the subscriber list rather than objects of their own, and everything put on a channel counts as received.
- The FNV hash of keys, SHA-256 and the text forms of times and record ids: arbitrary functions, injective where the chain needs it; fields are assumed free of the 0x1f separator.
- Table locking and retries of serializable transactions: appends are atomic.
- Date, filename and cell parsing, masking, file-format parsers, Parquet output, protobuf: string plumbing.
- Rows whose date cannot be read take no part in a split, as in the code, so group sizes sum to the dated rows only.
- The tables of required fields and weights per domain: results hold for every table with positive weights.
- Floating-point rounding error: scores are exact rationals, rounded half to even where Python rounds.
- cross_check_amount and promotable: single-pass filters that decide nothing here.
