# Budget reallocation engine

A model of the reallocation engine of `ProcessadorOrcamento`, the budget
processor that reads a spreadsheet of budget units (UGs) and their natures
(expense lines), and moves money from natures with a surplus to natures in
deficit.

In the source the ledger is a list of unit dictionaries, each holding the
dictionaries of its natures. The engine mutates them in place and appends
transfer records to a list. The model keeps that form:

- `Processing.Processor` is a class whose fields `units` and `transfers`
  the methods reassign.
- Every method is proved to leave the object in the state a function of
  the model describes (`Now() == F(old(Now()), ...)`).
- What those functions guarantee is proved once, as lemmas, in the module
  that defines them.

A nature is addressed by a pair `Loc(unit, nature)` of positions in the
ledger. This is how the source's donor and deficit lists, which hold
references to nature dictionaries, are represented.

The engine's rules, as the source applies them:

- **Prohibited fund and prohibited codes.** A unit or nature on the
  prohibited fund (`FONTE_PROIBIDA`) takes no part in a pass. A nature
  whose code, with dots and spaces removed and surrounding whitespace
  stripped, is in the prohibited set (`NATUREZAS_PROIBIDAS`) neither gives
  nor receives.
- **Donation capacity.** A donor keeps at least 20% of its original
  balance (`PERCENTUAL_RESERVA_MINIMA`). It gives at most 40% of its
  original balance in one operation (`PERCENTUAL_DOACAO_MAXIMA_POR_VEZ`).
  It never gives more than 80% of the original in total.
- **Deficit scan.** Every originally negative nature outside the
  exclusions gets a need (`necessidade_total`) equal to the size of its
  original balance. The scan returns how many it counted.
- **Internal pass.** Inside each unit, each nature with a negative balance
  is covered from the unit's own donors, in this order:
  1. The first donor that can cover the whole need alone, when single
     donors are preferred (`PRIORIZAR_DOACAO_UNICA`).
  2. Otherwise, donors with the deficit's two-digit prefix, richest first.
  3. Then the other donors, richest first.

  Every donor whose capacity is above the 0.01 threshold is offered the
  smaller of the need and its capacity.
- **External pass.** Units still in deficit are helped by the other units
  of their fund:
  - Donor units are ranked by total surplus, largest first. The sort is
    stable.
  - Inside a donor unit, same-prefix natures give first, then the others,
    each group richest first.
- **Commit primitive.** `registrar_transferencia` applies six guards in
  order. When all pass, it moves the amount and appends a record whose
  value is rounded to cents. When its own fund is unknown, the record
  takes the fund of the first unit with the source unit's code.
- **Checker.** `validar_resultado` flags every nature that moved by more
  than the threshold, was originally negative, and is still below minus
  the threshold.
- **Consolidated sheet.** The transfer sheet merges records that share a
  fund, a source and a destination, adding their values, in order of
  first occurrence.
- **Run.** A run (`processar_arquivo`) stops when no unit was read.
  Otherwise it scans the deficits, runs both passes and the checker, and
  returns these counters: the number of units, the deficits the scan
  counted, and the same-unit and cross-unit transfer counts. It also
  returns the list of originally negative natures.

Behaviour reproduced as written:

- **The secondary-loop decrement.** In the internal pass the decrement
  after the loop over the other donors (line 491) sits outside that loop.
  That loop does not lower the need while it runs. After it, the need
  drops once, by the last amount offered anywhere before, which may be an
  amount offered for an earlier deficit or unit. `Internal.SharedDonors`
  states the need left as exactly that.
- **The unset last amount.** When no amount has been offered yet in the
  run, that read fails and the run stops. `Runs.RunResult.UnboundAmount`
  models this, and `Internal.UnboundFirst` gives a case that reaches it.
- **Rejected transfers.** A transfer the guards reject still lowers the
  need in the source's loops. The model does the same. `Sweeps.OfferAccepted`
  proves that no offer the passes make is ever rejected.
- **The checker's blind spot.** A deficit that received nothing is never
  flagged, however negative it stays (`Validation.UntouchedDeficit`).
  `somas_conferem` compares no sums: it holds exactly when at least one
  record exists (`Validation.ValidatedSpec`).
- **Two deficit counts.** The run reports two different deficit counts:
  - the scan's counter, which excludes the prohibited fund and prohibited
    codes;
  - the returned deficit list, which includes every originally negative
    nature.

  `Statistics.ScanCountRows` relates the two.

## Model

| member | source | states |
|---|---|---|
| Rounding.Round2 | src/processador_orcamento.py:709 | the recorded value is a whole number of cents within half a cent of the amount, and an amount already in cents is kept |
| Rounding.Round2Idempotent | src/processador_orcamento.py:709 | rounding a rounded value again changes nothing |
| Rounding.Round2Positive | src/processador_orcamento.py:709 | an amount above half a cent is recorded as a positive value |
| Prohibition.NormaliseClean | src/processador_orcamento.py:281 | a cleaned code holds no dot and no space and has no surrounding whitespace |
| Prohibition.NormaliseIdempotent | src/processador_orcamento.py:281 | cleaning a cleaned code changes nothing |
| Prohibition.IgnoresDotsAndSpaces | src/processador_orcamento.py:275-282 | inserting a dot or a space anywhere in a code changes neither its cleaned form nor whether it is prohibited |
| Donation.Capacity | src/processador_orcamento.py:284-321 | capacity is never negative; it is zero when the current or the original balance is not positive; a positive capacity is within 40% of the original, leaves at least 20% of the original, and keeps the total given within 80% of the original |
| Donation.CapacityClosedForm | src/processador_orcamento.py:297-321 | for a positive current balance the capacity is max(0, min(current - 20% of original, 40% of original)) |
| Donation.CapacityIsLargestSafe | src/processador_orcamento.py:284-321 | every amount within the per-operation cap that keeps the reserve is at most the capacity, so the capacity is the largest such amount |
| Donation.FreshDonorCapacity | src/processador_orcamento.py:307-316 | a donor that has given nothing yet can give exactly 40% of its original balance |
| Transfer.Check | src/processador_orcamento.py:657-686 | a transfer is accepted exactly when the source was originally positive, the destination originally negative, the amount within the current balance, the reserve kept and neither code prohibited; the first guard fails exactly when the source was not originally positive; an accepted transfer joins two different natures |
| Transfer.FirstUnitWith | src/processador_orcamento.py:695-698 | the position found is the first unit with the code; none is found only when no unit has it |
| Transfer.RecordFundFallback | src/processador_orcamento.py:691-698 | a record's fund is the source nature's own fund, else that of the first unit with the source unit's code |
| Transfer.MakeRecord | src/processador_orcamento.py:700-712 | the record carries the kind given, the amount rounded to cents, and the codes and names of both units and natures |
| Transfer.Apply | src/processador_orcamento.py:717-718 | the amount leaves the source and reaches the destination, every other nature is unchanged and the ledger total is kept |
| Books.Committed | src/processador_orcamento.py:655-718 | the commit keeps the shape of the ledger and only appends records and moves |
| Books.CommitRejected | src/processador_orcamento.py:657-686 | a commit changes nothing exactly when one of its guards fails |
| Books.CommitEffect | src/processador_orcamento.py:700-718 | an accepted commit moves exactly the amount between the two natures, leaves every other nature and the total as they were, and appends one record describing the move |
| Books.CommitSteady | src/processador_orcamento.py:655-718 | an allowed commit keeps the books balanced, every record describing its move, every nature sound and every move allowed |
| Books.WithNeed | src/processador_orcamento.py:494 | writing a need changes that nature's need and nothing else |
| Ledger.DonorLifetime | src/processador_orcamento.py:284-321 | over a whole run a donor never receives, and what it gave is its original less its current balance, at most 80% of the original |
| Ledger.ReceiverLifetime | src/processador_orcamento.py:657-664 | a nature not originally positive never gives, and its balance is its original plus what it received |
| Ordering.SortDesc | src/processador_orcamento.py:433-434 | the sort keeps the length and orders by non-increasing key |
| Ordering.SortDescPermutes | src/processador_orcamento.py:433-434 | the sort is a permutation of its input |
| Ordering.SortDescStable | src/processador_orcamento.py:577 | entries with equal keys keep their input order, as Python's sort does |
| Ordering.DonorOrderSpec | src/processador_orcamento.py:429-434 | the donor order is a permutation of the donors: the same-prefix donors first, then the others, each group by descending current balance |
| Ordering.FirstCovering | src/processador_orcamento.py:439-444 | the donor chosen is the first in donor order whose capacity covers the need; none is chosen only when no donor covers it |
| Ordering.FindSingleDonor | src/processador_orcamento.py:439-444 | the loop finds exactly the first donor whose capacity covers the need |
| Selection.SelectAll | src/processador_orcamento.py:388-396 | a nature is listed exactly when it passes the filter: eligible and with a positive balance (donors), a negative balance (deficits), or a residual need (external pass) |
| Selection.SelectAllOrdered | src/processador_orcamento.py:388-396 | the lists keep sheet order |
| Selection.DonorsAndDeficitsDisjoint | src/processador_orcamento.py:388-396 | no nature is both a donor and an open deficit |
| Sweeps.OfferAccepted | src/processador_orcamento.py:465-468 | offering a donor with capacity above the threshold the smaller of the need and its capacity always passes the commit's guards, and the move is allowed |
| Sweeps.Step | src/processador_orcamento.py:454-471 | one turn of a donor loop only appends records and moves |
| Sweeps.Swept | src/processador_orcamento.py:454-491 | a donor loop only appends records and moves |
| Sweeps.SweptOutcome | src/processador_orcamento.py:454-491 | a donor loop's moves go to the deficit from the donors in the order given, each above the threshold and recorded with the loop's kind; the need drops by their total, or, for the loop that does not lower it, stays above each amount; the last amount offered is the last move's |
| Sweeps.SweptSteady | src/processador_orcamento.py:454-491 | a donor loop over eligible donors keeps the books steady |
| Sweeps.Planned | src/processador_orcamento.py:454-471 | the loop as the rules state it, on the ledger alone: while the need is above the threshold, a donor whose capacity is within it gives nothing and any other gives exactly the smaller of the need and its capacity, the need dropping by it; the loop ends at the end of the order or once the need is within the threshold; the ledger keeps its shape |
| Sweeps.PlannedExample | src/processador_orcamento.py:454-471 | a need of 500 against donors of 1000 and 300 takes 400 (the first donor's cap) and then the 100 still needed |
| Sweeps.PlannedPair | src/processador_orcamento.py:452-491 | the same-prefix loop and then the other loop, the second starting from the ledger and need the first leaves |
| Sweeps.SweptPlanned | src/processador_orcamento.py:454-491 | over eligible donors a donor loop leaves exactly the ledger, the moves in order and the need of its plan `Sweeps.Planned`: no donor above the threshold is skipped and none within it gives |
| Internal.CoveredInternal | src/processador_orcamento.py:417-494 | handling one deficit only appends records and moves, keeps the books steady and records only internal transfers |
| Internal.SharedInternal | src/processador_orcamento.py:452-494 | without a single donor, the moves go to the deficit from its unit's donors in donor order, each above the threshold; the need left is the start need less the same-prefix amounts and less the last amount offered, floored at zero |
| Internal.SingleDonor | src/processador_orcamento.py:436-450 | with a single donor, exactly the need moves from the first donor that covers it, in one single-donor record, and the need becomes zero |
| Internal.SharedDonors | src/processador_orcamento.py:452-494 | otherwise the moves follow donor order, are exactly those of the two loops' plan `Sweeps.PlannedPair` (each donor above the threshold giving the smaller of its capacity and the need at its turn), and the need left is the start need less the same-prefix amounts and less the last amount offered, floored at zero |
| Internal.SharedPlanned | src/processador_orcamento.py:452-491 | the two loops of a deficit append exactly the moves of `Sweeps.PlannedPair`, where the second loop does not lower the need |
| Internal.UnboundFirst | src/processador_orcamento.py:474-491 | a deficit met before any amount was offered, in a unit whose donors all lack capacity, stops the run |
| Internal.InternalDeficits | src/processador_orcamento.py:417-497 | the deficits of a unit, one after another, keep the books steady and record only internal transfers |
| Internal.InternalUnit | src/processador_orcamento.py:379-405 | a unit on the prohibited fund, without an open deficit or without a donor is left alone; any unit keeps the books steady |
| Internal.InternalPass | src/processador_orcamento.py:374-497 | the internal pass keeps the books steady and records only internal transfers |
| Internal.InternalPassNext | src/processador_orcamento.py:379 | the pass stops where a unit stops, else goes on from the next unit with the last amount offered |
| External.Receivers | src/processador_orcamento.py:509-529 | every listed receiver is a unit off the prohibited fund with its eligible residual deficits |
| External.ReceiversExact | src/processador_orcamento.py:509-529 | a unit is listed exactly when it is off the prohibited fund and has an originally negative, eligible nature with a need above the threshold |
| External.ReceiversAscending | src/processador_orcamento.py:509-529 | receivers come in sheet order, each unit once |
| External.Candidates | src/processador_orcamento.py:541-568 | every candidate is a unit of the receiver's fund, off the prohibited fund, under another code, with donor natures, keyed by its total surplus |
| External.CandidatesExact | src/processador_orcamento.py:541-568 | a unit is a candidate exactly when it can help the receiver |
| External.Ranked | src/processador_orcamento.py:577 | every ranked unit can help the receiver |
| External.RankedSpec | src/processador_orcamento.py:577 | the ranking is a permutation of the candidates by descending total surplus |
| External.RankedStable | src/processador_orcamento.py:577 | candidates with equal surplus keep sheet order |
| External.FromUnit | src/processador_orcamento.py:596-648 | one donor unit helping a deficit only appends records and moves |
| External.FromUnitOutcome | src/processador_orcamento.py:596-648 | what one donor unit gives goes to the deficit in external records, from that unit's natures in donor order, each above the threshold, exactly the moves of `External.UnitPlan`, and the need drops by the total |
| External.UnitPlan | src/processador_orcamento.py:599-646 | one donor unit's plan: its same-prefix natures and then the others, both loops lowering the need |
| External.FromUnitPlanned | src/processador_orcamento.py:599-646 | one donor unit leaves exactly the ledger, moves and need of `External.UnitPlan` |
| External.PlannedAcross | src/processador_orcamento.py:593-648 | the donor units' plans one after another, stopping once the need is within the threshold |
| External.AcrossPlanned | src/processador_orcamento.py:593-648 | the donor units, tried in rank order, leave exactly the ledger, moves and need of `External.PlannedAcross` |
| External.CoveredExternalPlanned | src/processador_orcamento.py:584-650 | the moves one residual deficit receives are exactly those of `External.PlannedAcross` from its start need |
| External.Across | src/processador_orcamento.py:593-648 | the donor units, tried in rank order, only append records and moves |
| External.CoveredExternal | src/processador_orcamento.py:584-650 | handling one residual deficit only appends records and moves |
| External.CoveredExternalSpec | src/processador_orcamento.py:584-650 | a deficit with need within the threshold is left alone; otherwise its moves come from the donor units in rank order, all to it, above the threshold and in external records, exactly those of `External.PlannedAcross`, and the need recorded is the start need less their total, floored at zero |
| External.ExternalDeficits | src/processador_orcamento.py:584-652 | the residual deficits of a receiver, one after another, only append records and moves |
| External.ExternalReceiver | src/processador_orcamento.py:537-574 | one receiver, with its donor units ranked when its turn comes, only appends records and moves |
| External.ExternalReceivers | src/processador_orcamento.py:537-653 | the receivers, one after another, only append records and moves |
| External.ExternalPass | src/processador_orcamento.py:499-653 | the external pass only appends records and moves |
| External.ExternalPassSteady | src/processador_orcamento.py:499-653 | the external pass keeps the books steady and records only external transfers |
| Scan.Flagged | src/processador_orcamento.py:340-358 | a counted deficit gets the size of its original balance as its need; any other nature is unchanged |
| Scan.ScanNatures | src/processador_orcamento.py:340-361 | scanning a unit changes each nature as `Flagged` says and nothing else |
| Scan.ScanUnits | src/processador_orcamento.py:329-361 | scanning the ledger changes each unit as `ScanNatures` says |
| Scan.ScannedSpec | src/processador_orcamento.py:323-372 | the scan changes no balance and no static field, writes the need of exactly the counted deficits, and leaves every other nature as it was |
| Scan.SkippedUnit | src/processador_orcamento.py:331-336 | a unit on the prohibited fund contributes nothing to the count |
| Scan.UnitUnscanned | src/processador_orcamento.py:331-336 | the scan leaves a unit on the prohibited fund as it was |
| Scan.CountedNatures | src/processador_orcamento.py:352-361 | the count is the number of natures whose need the scan writes |
| Validation.ValidatedSpec | src/processador_orcamento.py:723-770 | `nenhum_saldo_negativo` holds exactly when no nature is flagged; `somas_conferem` holds exactly when there is a record |
| Validation.UntouchedDeficit | src/processador_orcamento.py:736-741 | a deficit that received at most the threshold is never flagged, even when its balance is still below minus the threshold |
| Validation.FlaggedReceived | src/processador_orcamento.py:736-741 | a flagged nature received more than the threshold and is still short |
| Consolidation.Position | src/processador_orcamento.py:851-853 | the entry found carries the key; none is found only when no entry has it |
| Consolidation.IndexedMerge | src/processador_orcamento.py:851-866 | the dictionary finds the entry with a record's key; folding the record in adds to that entry's value or opens a new one at the end, and the dictionary still indexes the entries |
| Consolidation.ConsolidatedSpec | src/processador_orcamento.py:842-866 | the sheet has one entry per key of the records and no other; each entry is the first record with its key, carrying the sum of their values; the keys are distinct and in order of first occurrence |
| Consolidation.ConsolidatedSize | src/processador_orcamento.py:827-866 | the sheet is no longer than the records, and empty exactly when there is none |
| Statistics.Report | src/processador_orcamento.py:112-117 | the counters hold the number of units and the deficits the scan counted, and the two transfer counts add up to the number of records |
| Statistics.UnitRows | src/processador_orcamento.py:118-129 | each line of a unit names that unit and a positive deficit |
| Statistics.DeficitRows | src/processador_orcamento.py:118-129 | each line of the deficit list shows a positive deficit |
| Statistics.UnitRowsExact | src/processador_orcamento.py:118-129 | a unit's lines are exactly its originally negative natures in sheet order: one per such nature, at the position counted by the negative natures before it, with its unit, codes, names and the size of its original balance, and no other line |
| Statistics.DeficitRowsExact | src/processador_orcamento.py:118-129 | the deficit list has exactly one line per originally negative nature of the ledger, prohibited or not, at its place in sheet order, and no other line |
| Statistics.RowIndexOrdered | src/processador_orcamento.py:125-127 | a negative nature earlier in the sheet has an earlier line |
| Statistics.CountsSplit | src/processador_orcamento.py:115-116 | every record is counted once, as within one unit or across units |
| Statistics.SameUnitIsInternal | src/processador_orcamento.py:115-116 | in a steady run the count of same-unit records is the count of internal transfers |
| Statistics.UnitCountRows | src/processador_orcamento.py:338-361 | the scan counts at most a unit's deficit lines, and exactly them when nothing in the unit is excluded |
| Statistics.ScanCountRows | src/processador_orcamento.py:111-129 | the reported deficit count never exceeds the deficit list, and equals its length when no unit or nature is on the prohibited fund and no code is prohibited |
| Processing.Processor.constructor | src/processador_orcamento.py:15-41 | a processor starts with its configuration, the ledger read, and no record |
| Processing.Processor.Commit | src/processador_orcamento.py:655-718 | returns the first failing guard, if any, and leaves the state `Books.Committed` describes |
| Processing.Processor.SetNeed | src/processador_orcamento.py:494 | writes one nature's need and nothing else |
| Processing.Processor.IdentifyDeficits | src/processador_orcamento.py:323-372 | leaves the ledger as `Scan.Scanned` describes, adds no record, and returns the scan's count |
| Processing.Processor.ScanUnit | src/processador_orcamento.py:339-361 | scans one unit as `Scan.ScanNatures` describes and returns its count |
| Processing.Processor.Sweep | src/processador_orcamento.py:454-491 | the donor loop leaves the state, need and last amount offered that `Sweeps.Swept` describes |
| Processing.Processor.Turn | src/processador_orcamento.py:457-471 | one turn leaves the state that `Sweeps.Step` describes |
| Processing.Processor.CoverInternal | src/processador_orcamento.py:417-494 | handles one deficit as `Internal.CoveredInternal` describes, reporting when the run stops |
| Processing.Processor.CoverShared | src/processador_orcamento.py:452-494 | runs both loops and settles the need as `Internal.SharedInternal` describes |
| Processing.Processor.CoverInternalDeficits | src/processador_orcamento.py:417-497 | handles the deficits of one unit as `Internal.InternalDeficits` describes |
| Processing.Processor.RunInternalUnit | src/processador_orcamento.py:379-497 | handles one unit as `Internal.InternalUnit` describes |
| Processing.Processor.AdvanceInternal | src/processador_orcamento.py:379-497 | one unit is one step of the whole internal pass |
| Processing.Processor.RunInternalPass | src/processador_orcamento.py:374-497 | leaves the state `Internal.InternalPass` describes, and reports whether the run stopped |
| Processing.Processor.ListReceivers | src/processador_orcamento.py:509-529 | returns the receivers `External.Receivers` lists |
| Processing.Processor.Offer | src/processador_orcamento.py:544-568 | one unit's entry in a receiver's candidate list |
| Processing.Processor.RankDonors | src/processador_orcamento.py:541-577 | returns the ranking `External.Ranked` describes |
| Processing.Processor.TakeFromUnit | src/processador_orcamento.py:596-648 | one donor unit helps one deficit as `External.FromUnit` describes |
| Processing.Processor.TakeFromUnits | src/processador_orcamento.py:593-648 | the donor units help one deficit as `External.Across` describes |
| Processing.Processor.CoverExternal | src/processador_orcamento.py:584-650 | handles one residual deficit as `External.CoveredExternal` describes |
| Processing.Processor.CoverExternalDeficits | src/processador_orcamento.py:584-652 | handles a receiver's deficits as `External.ExternalDeficits` describes |
| Processing.Processor.ServeReceiver | src/processador_orcamento.py:537-652 | handles one receiver as `External.ExternalReceiver` describes |
| Processing.Processor.RunExternalPass | src/processador_orcamento.py:499-653 | leaves the state `External.ExternalPass` describes |
| Processing.Processor.Validate | src/processador_orcamento.py:723-770 | returns the checker's answers, as `Validation.ValidatedSpec` characterises them |
| Processing.Processor.Consolidate | src/processador_orcamento.py:825-866 | returns the consolidated sheet that `Consolidation.ConsolidatedSpec` characterises |
| Runs.Processed | src/processador_orcamento.py:48-134 | a run stops for lack of units exactly when no unit was read; a finished run keeps the ledger's shape and counts every unit |
| Runs.Process | src/processador_orcamento.py:83-130 | the processor runs the scan, both passes, the checker and the consolidation, and returns what `Runs.Processed` describes |
| Runs.ScannedSteady | src/processador_orcamento.py:323-372 | the scan of a freshly read ledger leaves the books steady |
| Runs.PassesSteady | src/processador_orcamento.py:88-97 | both passes keep the books steady, with every internal record before every external one |
| Runs.FinalSteady | src/processador_orcamento.py:83-97 | a run from a freshly read ledger leaves the books steady, with the internal pass's records first |
| Runs.SteadyReport | src/processador_orcamento.py:111-117 | steady books conserve the ledger total, keep every nature sound, count same-unit records as internal transfers, and name no prohibited code in any record; every record joins two natures off the prohibited fund, within one unit when internal and across two differently coded units of one fund when external |
| Runs.RunGuarantees | src/processador_orcamento.py:83-130 | a finished run conserves the total balance and keeps every nature sound; its internal counter is the number of internal transfers and the counters add up to the records; no record names a prohibited code or touches a unit or nature on the prohibited fund; an internal record stays within one unit and an external one joins two differently coded units of the same fund; internal records precede external ones; `somas_conferem` holds exactly when a record exists |

## Left out

- Reading the spreadsheet, locating the balance column by its header, classifying rows into units and natures, parsing numbers and extracting the fund and the two-digit prefix: the model starts from the ledger already read.
- Writing the output workbook, its styling and its other sheets, the logging and the per-unit diagnostics: none of them changes the ledger or the records.
- The web front end: it only passes the prohibited fund and codes to the processor.
- Binary floating point: balances and amounts are exact reals, so a sum the source would round differently is not modelled.
- The consolidated sheet's empty case: an empty table with fixed columns stands for no record, and the model returns the empty sequence.
- The column selection of the consolidated sheet: a merged record keeps the fields of the first record with its key, and the table layout is not modelled.
- Rounding.Round2: ties go to the even cent, as Python's `round` does on exact halves; the decimal value of a binary float, which can make a tie round the other way, is not modelled.
- Runs.RunGuarantees: it assumes a freshly read ledger, with every current balance equal to the original one, as reading the sheet leaves it.
- Runs.Processed: for a run that stops, it does not describe the partial state the processor is left in.
