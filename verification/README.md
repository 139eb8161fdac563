# Verified model of share-tracker

share-tracker keeps a share investor's records and prepares the Australian tax figures that follow
from them. This project models the parts of it whose correctness is hardest to see from the code,
and proves what those parts promise, for all inputs.

Tax and holdings:

- `Calendar`, `CgtDiscount`: the twelve-month ownership rule on the Gregorian calendar, against an
  independent count of owned days (section 115-25 of the ITAA 1997).
- `Netting`, `NetYears`: netting capital losses against gains year after year, to the cent.
- `Lots`, `SplitSearch`, `ClassPicks`, `MinGain`: the parcel optimiser's minimum-gain strategy, which
  tries a handful of breakpoints, proved to sell at the least assessable gain of every allocation of
  the parcels in the quantities' own smallest unit.
- `FinerSplits`, `FineAllocations`: allocations in parts of that unit, and exactly when none of them
  does better either.
- `LargestRemainder`, `RoundingLaws`, `RoundingOrder`, `RoundingStability`, `HoldingRounding`,
  `ParcelRounding`, `RegistryRounding`, `LateParcels`: rounding a re-based holding the way a share registry does, by
  largest remainder, keeping the counts an earlier rounding put on the register, and which of them
  a parcel entered or deleted afterwards moves.
- `Disposals`, `ReductionWalks`, `CostBase`: the counters an AMMA statement carries about a parcel,
  rehearsing a sale on them, how a statement's reduction is spread over a parcel's units, and the
  walk that applies reductions to a cost base floored at nil.
- `Payments`, `CostedUnits`: which return-of-capital payments reach which units, and the cost base
  that statements and payments leave, in the two reports that walk them and before a sale.
- `Franking`, `FrankingLaws`, `FrankingSplits`, `FrankingLevels`, `FrankingHistories`: the at-risk
  holding-period rule behind franking credits, a last-in first-out walk, with a closed form that
  needs no stack.
- `Deductions`: which question of the return an expense is claimed at.

The interface description and the tools around it:

- `Json`, `SchemaRefs`, `Reachability`, `Slicing`, `SliceMeaning`: cutting the OpenAPI document down
  to some of its operations and the schemas they reach through `$ref`, and what such a slice is.
- `Pointers`, `WholeSlices`, `SliceSamples`: references read as JSON pointers (RFC 6901), and whether
  any of them dangles in a slice.
- `Routes`, `OperationIds`, `Completion`: filing a path under its section, the route index, the
  spelling of an operation's id, and completing a generated operation in place.
- `JsonText`, `JsonRoundTrip`, `JsLiteral`: the literal encoder of the browser driver, over UTF-16
  code units, against a reader of RFC 8259 and section 25.5.2 of ECMA-262.
- `CdpProtocol`, `Cdp`: the DevTools client, a request and reply multiplexer.
- `Headings`, `Sections`: heading anchors and section slicing of the documentation checks.
- `BlockScanner`: the one-pass scanner that finds parse functions by their enclosing block.
- `FieldInsertion`: the script that inserts missing struct fields from the bottom of a file up.

`Common`, `Sorting` and `PathSegments` hold what several modules share. Code that loops or updates
state in place is modelled by methods and classes proved against specification functions; the lemmas
about those functions carry the properties. What an operation promises is stated of its inputs
themselves, of parcels, years, operations of a document, or lines of text, and not only of the pieces
it builds on the way. Amounts are exact rationals (`real`), and counts that the source keeps on a grid
are whole numbers of grid steps.

Where the code does less than its own documentation says, the model follows the code, a lemma gives
an input that shows it, and another states exactly when the documentation holds:

- An object with a property named `__proto__` does not survive the literal encoder
  (`JsLiteral.LiteralEvaluatesIff`, `JsLiteral.ProtoIsLost`). The driver itself encodes only strings
  and a list of property names, which always do (`JsLiteral.StringsSurvive`).
- Headings can be fewer in anchors than in number: `a`, `a`, `a-1` have two
  (`Headings.OneAnchorEachIff`, `Headings.SharedAnchor`).
- A comment line in a fenced block ends a section of the documentation before its next heading
  (`Sections.ReachesNextHeadingIff`, `Sections.FencedCommentCuts`).
- A request whose message could not be sent stays in the pending map
  (`CdpProtocol.PendingIsUnsettledIff`, `CdpProtocol.UnsentStaysPending`).
- Under a statement's own figure the cash-in-lieu "fraction" can exceed a whole step
  (`HoldingRounding.FractionOfAStepIff`, `RegistryRounding.WholeStepsInLieu`).
- A parcel deleted from a rounded holding need not leave the other stored counts where they were,
  however large it is (`LateParcels.DroppedParcelMovesNothingIff`,
  `LateParcels.DroppedParcelCanMoveAnother`). A parcel entered afterwards does if its share rounded
  down is a unit or the total grows (`LateParcels.LateParcelMovesNothingIff`). "Too small to round
  to a unit of its own" is true to the code read so: under `Up` a parcel that only rounds up to a
  unit may move a stored count (`LateParcels.RoundedUpLateParcelMovesAnother`).

In a slice of the document the server publishes, every reference leads to a schema the slice holds
(`WholeSlices.PublishedSlicesAreWhole`). In a slice of an arbitrary OpenAPI document no reference
dangles exactly when each one it carries leads to a part of the document that stays: that can fail
for a reference outside the operations and schemas, and for one to a part of a schema
(`WholeSlices.WholeDocumentIff`, `SliceSamples.ExtensionCanDangle`,
`SliceSamples.DeeperReferenceCanDangle`).

The comment at `scripts/add-missing-fields.py:43` says two spaces of indent; the code adds four, and
so does the model.

## Model

| member | source | states |
|---|---|---|
| `Calendar.SuccIsNextOrdinal` | src/domain/cgt_discount.rs:76-99 | The day ordinals the owned days are counted in step by exactly one from each Gregorian date to the next, leap years and century years included. |
| `Calendar.OrdinalOrder` | src/domain/cgt_discount.rs:76-99 | Comparing dates field by field is comparing their day ordinals, so the rule may be stated in either. |
| `Calendar.MonthLengths` | src/domain/cgt_discount.rs:76-99 | The months have the lengths of the Gregorian calendar. |
| `CgtDiscount.EligibleFromAnniversary` | src/domain/cgt_discount.rs:70-99 | Eligible exactly from the anniversary of the first owned day, 1 March for one of 29 February. |
| `CgtDiscount.EligibleIffOwnedTwelveMonths` | src/domain/cgt_discount.rs:33-35 | For every pair of dates, subtracting twelve clamped months and comparing strictly agrees with counting the owned days out. |
| `CgtDiscount.ForwardDiffersOnlyOnTheLeapDay` | src/domain/cgt_discount.rs:19-23 | The rejected forward form differs on exactly the pairs 28 February to 29 February a year on, and is the generous one there. |
| `CgtDiscount.EligibilityMonotone` | src/domain/cgt_discount.rs:33-35 | Waiting longer or having bought earlier never loses the discount. |
| `CgtDiscount.TwelveMonthsInDays` | src/domain/cgt_discount.rs:33-35 | The clamped subtraction goes back 365 or 366 days. |
| `CgtDiscount.EligibilityInDays` | src/domain/cgt_discount.rs:33-35 | Eligible pairs are at least 366 days apart, 367 days always suffice, and 366 suffice exactly when the year back has 365. |
| `Netting.ToCents` | src/infra/decimal.rs:320-331 | Rounds to a whole cent within half a cent, halves away from zero, and leaves whole cents alone. |
| `Netting.ToCentsIsOdd` | src/infra/decimal.rs:320-331 | A negative amount rounds as its size does. |
| `NetYears.NetRowIsLeast` | src/reports/net_capital_gain.rs:1011-1046 | No other lawful split of a year's losses assesses less, the discount's rounding included, or carries a different loss. |
| `NetYears.ChainReportsEveryBalance` | src/reports/net_capital_gain.rs:957-1055 | A year has a row exactly when it has facts or a loss carried into it, and the row nets the balance an independent recurrence gives. |
| `NetYears.ChainWithin` | src/reports/net_capital_gain.rs:973-975 | Rows are within the years of the series, each year once, in ascending order. |
| `NetYears.LossesConserved` | src/reports/net_capital_gain.rs:1011-1051 | Over any run of years the loss brought in plus the losses made equal what was applied plus what is still carried. |
| `NetYears.ChainAtTheCent` | src/reports/net_capital_gain.rs:916-924 | Every figure of every row is at the cent, the CGT event lines too, though only the inputs and the discount are rounded. |
| `NetYears.PoliciesCarryAlike` | src/reports/net_capital_gain.rs:1011-1018 | Whatever lawful splits were chosen in earlier years, the same loss is carried into every year. |
| `NetYears.NoPolicyDoesBetter` | src/reports/net_capital_gain.rs:1006-1046 | Over a whole run of years no lawful choice of splits assesses less in any year. |
| `NetYears.YearBounds` | src/reports/net_capital_gain.rs:962-972 | The series runs from the first year with facts to the later of the last one and the year in progress. |
| `NetYears.NetEveryYear` | src/reports/net_capital_gain.rs:957-1055 | The walk yields, in ascending years, a row exactly for each year with facts or a loss carried in. Its columns are the facts at the cent, the discount is half of what is left of the discount-eligible gains to the cent, and the gain is the netting of those columns and of the independent balance, less at most half a cent. |
| `NetYears.ChainReports` | src/reports/net_capital_gain.rs:1011-1046 | So do the rows of the specification, whatever the opening loss at the cent. |
| `Netting.AssessableClosedForm` | src/reports/parcel_optimiser.rs:341-346 | Netting losses in the report's order gives the formula the optimiser minimises. |
| `Lots.TakeInOrder` | src/reports/parcel_optimiser.rs:384-392 | The loop over a ranked class takes its first units, sums their gain and leaves the rest. |
| `Lots.PrefixIsLeast` | src/reports/parcel_optimiser.rs:348-349 | Taking a class cheapest first makes no more gain than any allocation of as many of its units. |
| `Lots.GreedyAllocates` | src/reports/parcel_optimiser.rs:453-462 | The picks take the units asked for, none beyond a parcel's quantity and none outside the class. |
| `SplitSearch.StraightBetweenOtherPoints` | src/reports/parcel_optimiser.rs:420-435 | Between the breakpoints listed for the non-discountable lots their gain is a straight line on one side of the losses. |
| `SplitSearch.SomeCornerIsNoDearer` | src/reports/parcel_optimiser.rs:349-354 | From any split, sliding downhill ends on a breakpoint that costs no more. |
| `SplitSearch.Breakpoints` | src/reports/parcel_optimiser.rs:418-440 | The loops collect the bounds, both lots' boundaries and the crossing rounded either way. |
| `SplitSearch.CheapestSplit` | src/reports/parcel_optimiser.rs:445-451 | The filter and minimum pick a cheapest point in range, the smallest of equals. |
| `SplitSearch.BreakpointsSuffice` | src/reports/parcel_optimiser.rs:349-354 | The cheapest breakpoint is the cheapest of all splits. |
| `ClassPicks.SomeSplitIsNoWorse` | src/reports/parcel_optimiser.rs:348-354 | Any allocation can be replaced, at no more gain, by every loss unit and some split of cheapest-first units. |
| `ClassPicks.BestPicksAreOptimal` | src/reports/parcel_optimiser.rs:331-354 | The losses first and then a best split beat every allocation of the same units, in the quantities' smallest unit. |
| `MinGain.MinGainPicks` | src/reports/parcel_optimiser.rs:355-464 | The picks sell exactly the units asked for, each from a parcel and within it. No allocation of the same units sums, off the parcels' proceeds, cost bases and owned days, to a smaller assessable gain; of equals none sells fewer short-held units at a gain; and within a class a parcel is sold out before a dearer, later or higher-numbered one. |
| `MinGain.OptimalOnParcels` | src/reports/parcel_optimiser.rs:341-371 | The best allocation of the lots is the best of the parcels: a gain counts as discounted exactly when the parcel was owned twelve months by the count of days. |
| `MinGain.WholeParcelGain` | src/reports/parcel_optimiser.rs:361-371 | A whole parcel sold gains its proceeds less its whole cost base. |
| `FinerSplits.FinerSplitIsCheaperIff` | src/reports/parcel_optimiser.rs:349-354 | A split between the quantities' own units is cheaper than the best whole one exactly when it splits the unit at the crossing, and a discount-eligible unit there gains more than the other but less than twice as much. |
| `FinerSplits.OneThirdIsCheaper` | src/reports/parcel_optimiser.rs:349-354 | A sale of one unit for which a third of it is such a split. |
| `FinerSplits.CrossingIsCheapest` | src/reports/parcel_optimiser.rs:349-354 | Then the split at the exact crossing is the cheapest of all splits. |
| `FineAllocations.SomeFineSplitIsNoWorse` | src/reports/parcel_optimiser.rs:348-354 | Any allocation in parts of units can be replaced, at no more gain, by every loss unit and some split in parts. |
| `FineAllocations.OptimalInPartsIff` | src/reports/parcel_optimiser.rs:331-354 | The picks are no worse than any allocation in parts of units exactly when no unit overtakes the losses so. |
| `FineAllocations.CrossingIsBestInParts` | src/reports/parcel_optimiser.rs:349-354 | When one does, every loss unit and the split at the crossing are the best of all allocations. |
| `RoundingLaws.ReleasingWidens` | src/domain/entitlement_rounding.rs:183-185 | Giving up a kept count never narrows what the free parcels can absorb. |
| `RoundingLaws.ReleasedFitsIff` | src/domain/entitlement_rounding.rs:183-187 | The release loop ends on a fit exactly when the total gives every parcel a step. |
| `RoundingLaws.CountWithinAStep` | src/domain/entitlement_rounding.rs:158-160 | Every count is its share rounded down, or one step more where the share is off the grid. |
| `RoundingLaws.CountsSumToTotal` | src/domain/entitlement_rounding.rs:160-161 | The counts sum to the rounded total exactly. |
| `RoundingLaws.NoneEmptied` | src/domain/entitlement_rounding.rs:186-187 | A total that gives every parcel a step leaves none without units. |
| `RoundingLaws.RefusedIff` | src/domain/entitlement_rounding.rs:593-596 | A holding is refused exactly when more parcels would be emptied than there are steps, one fewer where a fraction stands in, whatever its earlier counts. |
| `RoundingOrder.StepsGoToTheStrongerClaim` | src/domain/entitlement_rounding.rs:188-190 | Extra steps go to parcels about to be emptied, then the larger remainder, the earlier acquisition, the lower trade id. |
| `RoundingOrder.CountsGoByTheStrongerDuty` | src/domain/entitlement_rounding.rs:180-183 | Kept counts are given up changed parcels first, then the later acquisition, then the higher trade id. |
| `RoundingStability.MovesOnlyWhenForced` | src/domain/entitlement_rounding.rs:163-187 | An unchanged parcel's count moves only when keeping every unchanged count leaves the rest unable to absorb the total. |
| `LateParcels.RoundedGrowth` | src/domain/entitlement_rounding.rs:401-431 | Under every rule more units raise the total by what they come to alone, rounded down or up. |
| `LateParcels.LateParcelMovesNothing` | docs/API.md:876 | A parcel entered afterwards that comes to a unit of its own fits beside the stored counts: none moves, and it takes what the total grows by. |
| `LateParcels.LateParcelMovesNothingIff` | docs/API.md:876 | In every accepted holding no stored count moves exactly when the late parcel comes to a whole unit, the total grows, or it is the one a missing step leaves to a cash-in-lieu fraction. |
| `LateParcels.RoundedUpLateParcelMovesAnother` | docs/API.md:876 | Three late units beside six, one for five and rounded up: they round up to a unit, and the stored count moves. |
| `LateParcels.DroppedParcelMovesNothingIff` | docs/API.md:876 | Deleting a parcel moves no other stored count exactly when the total falls by the count it had. |
| `LateParcels.DroppedParcelCanMoveAnother` | docs/API.md:876 | Three equal parcels of which deleting the second moves the first's count. |
| `RoundingStability.RoundingAgainMovesNothing` | src/domain/entitlement_rounding.rs:163-187 | Rounding a holding again from the counts it was given changes nothing, refusals and the fraction included. |
| `HoldingRounding.FloorOnGrid` | src/domain/entitlement_rounding.rs:130-148 | Whatever quotient the division guesses, the corrected floor and remainder are exact. |
| `HoldingRounding.RoundToMeans` | src/domain/entitlement_rounding.rs:401-431 | Each rule rounds to the step below, above, or nearest with halves up. |
| `HoldingRounding.RoundedTotal` | src/domain/entitlement_rounding.rs:401-431 | The rounding loop computes that total. |
| `HoldingRounding.RoundedIsShareable` | src/domain/entitlement_rounding.rs:153-161 | Any total the exact count rounds to lies between the shares all rounded down and all rounded up. |
| `HoldingRounding.FractionIsCarried` | src/domain/entitlement_rounding.rs:197-200 | A fraction to carry always finds a parcel at its floor when the total is no more than the exact count. |
| `HoldingRounding.FractionOfAStepIff` | src/domain/entitlement_rounding.rs:436-457 | What is carried in lieu is less than a step exactly when the total is not below the exact count rounded down. |
| `HoldingRounding.InLieuIsTheRest` | src/domain/entitlement_rounding.rs:436-457 | The fraction is what the total leaves of the exact count, cut to twelve places beyond the grid, and nothing under another rule. |
| `ParcelRounding.UnchangedStays` | src/domain/entitlement_rounding.rs:163-187 | A parcel of unchanged units keeps its stored count, if that is still valid, whenever any counts the parcels may have keep every such count and come to the total. |
| `ParcelRounding.CountsSettle` | src/domain/entitlement_rounding.rs:180-200 | Of any parcels of distinct trades: a stored count moves only if no counts keep it and those given up after it, extra steps go by claim, and the fraction rides on the first by claim not rounded up. |
| `ParcelRounding.RefusedNamesOne` | src/domain/entitlement_rounding.rs:593-596 | A refusal names a parcel of less than a step, behind every such one listed before it. |
| `RegistryRounding.TotalMeans` | src/domain/entitlement_rounding.rs:213-239 | The registered total is the statement's figure, or the exact count rounded as the rule says. |
| `RegistryRounding.WholeStepsInLieu` | src/domain/entitlement_rounding.rs:436-457 | A holding that is accepted with a statement's figure two steps short, its parcel carrying two whole steps in lieu. |
| `RegistryRounding.DistributeTotal` | src/domain/entitlement_rounding.rs:464-597 | The loops of the distribution compute it: release, base counts, extra steps, the fraction and the refusal. |
| `RegistryRounding.ShareOut` | src/domain/entitlement_rounding.rs:464-597 | From the parcels' exact counts: refused exactly when steps run short, naming a parcel about to be emptied, otherwise within a step each, none empty, summing to the total and to the fraction, and moved, stepped and carried in the order of the parcels' own units, dates and trades. |
| `RegistryRounding.RoundHolding` | src/domain/entitlement_rounding.rs:201-239 | A whole holding by the rule or by a statement's figure: which figures are refused, and otherwise that distribution, told of the parcels. |
| `RegistryRounding.LessDelivered` | src/domain/entitlement_rounding.rs:362-366 | Each settlement obligation is rounded on its own and taken off the register's total. |
| `RegistryRounding.DeliveredMeans` | src/domain/entitlement_rounding.rs:362-366 | Each obligation's count is its own exact count rounded as the rule says. |
| `RegistryRounding.RoundRegisteredHolding` | src/domain/entitlement_rounding.rs:309-372 | With obligations outstanding the rest is distributed as above, and the parcels' counts and the deliveries add up to the register's rounded total. |
| `Disposals.RehearsingIsRecording` | src/domain/contemplated_disposal.rs:128-152 | The counters adjusted for a contemplated sale are those of the ledger with the sale recorded, wherever it is entered. |
| `Disposals.DisposalsCommute` | src/domain/contemplated_disposal.rs:134-152 | Two contemplated sales in either order agree, and two on one date are one of their sum. |
| `Disposals.YearsMeet` | src/domain/cost_base.rs:1350-1362 | Disposed before a year starts is disposed by the last year's end, and never more than by its own. |
| `Disposals.YearsFollow` | src/domain/cost_base.rs:1350-1362 | A financial year is the twelve months to 30 June, the next one starts the day after, and every date is in the one it is said to be in. |
| `Disposals.InItsYearOnly` | src/domain/cost_base.rs:1350-1362 | A disposal falls in the window of its own financial year and no other. |
| `Disposals.YearsTelescope` | src/domain/cost_base.rs:1350-1362 | Over any run of years the in-year figures sum to the disposals of the whole run. |
| `ReductionWalks.WalkConserves` | src/domain/cost_base.rs:1119-1140 | The balance left is the start less every reduction in full plus the gains they ran past nil by. |
| `ReductionWalks.ExcessIsOverrun` | src/reports/net_capital_gain.rs:666-674 | The gains of a walk come to the furthest its reductions ever overran the cost base, upward adjustments included. |
| `ReductionWalks.NettingAgreesIff` | src/domain/cost_base.rs:1024-1031 | Netting the reductions first gives the same balance exactly when none overran or nothing is left. |
| `ReductionWalks.ReductionWalk` | src/domain/cost_base.rs:1128-1141 | The worksheet's loop leaves that balance and flags exactly the rows that ran past nil. |
| `ReductionWalks.ExcessWalk` | src/reports/net_capital_gain.rs:620-727 | The report's own loop leaves the same balance, each gain translated at its reduction's and its parcel's own rates and never a loss, a payment on units already sold in whole. |
| `ReductionWalks.GainsAtOneRate` | src/reports/net_capital_gain.rs:674-727 | At one rate its gains sum to the overrun and those payments at that rate. |
| `ReductionWalks.GainsPastNil` | src/reports/net_capital_gain.rs:674-727 | At differing rates the reduction that exhausts the cost base gains itself at its own rate less what was left at the parcel's, never a loss, and every later one gains in whole at its own rate. |
| `ReductionWalks.NoGainWhileItLasts` | src/reports/net_capital_gain.rs:666-674 | Until then there is no gain. |
| `CostBase.CoveragesAddUp` | src/domain/cost_base.rs:743-762 | The three groups' coverages sum to the units covered, up to the units held in the year. |
| `CostBase.CoverageFillsInOrder` | src/domain/cost_base.rs:694-702 | Held units are covered before carried ones, and both before those sold in the year. |
| `CostBase.ReductionSeen` | src/domain/cost_base.rs:752-766 | A consumption's reduction is the rate of the group the statement sees it in, times its units. |
| `CostBase.ReductionConserved` | src/domain/cost_base.rs:712-716 | However a parcel was split up and sold, a statement takes off exactly its figure on the units it covers that were held in its year. |
| `Payments.PaymentCountsOnce` | src/reports/net_capital_gain.rs:622-665 | A payment never both reduces a cost base and is a gain in whole, and is neither exactly for units gone before it that left the register by its record date, that a rollover took, or without one. |
| `Payments.PaymentTakes` | src/reports/net_capital_gain.rs:622-665 | What a payment takes off the cost base of some units, and what of it is a gain in whole, by the days they left the parcel and the register. |
| `Payments.PaidOnUnitsThen` | src/domain/adjustments.rs:121-125 | What a payment comes to per unit acquired is what it comes to on the units those have become. |
| `Payments.RatioSplits` | src/domain/adjustments.rs:670-690 | Re-basing in two legs is re-basing in one: a split on a boundary falls in one leg only. |
| `Payments.ReachedIff` | src/domain/adjustments.rs:134-180 | Which payments reach a parcel and which are refused for their currency, by the register, the record date, the day looked back from and the rollover. |
| `Payments.RatioOfOne` | src/domain/adjustments.rs:670-690 | One split re-bases the units of every earlier day by its terms, up to and on the day looked at. |
| `CostedUnits.CostUnits` | src/domain/cost_base.rs:1032-1141 | The loops over statements and payments, sorted by date and kind, leave the specified balance, and refuse a payment in another currency. |
| `CostedUnits.UntouchedCost` | src/domain/cost_base.rs:863-880 | Units no event reached cost their share of the initial cost base. |
| `CostedUnits.PartsCostTheWhole` | src/domain/cost_base.rs:863-880 | However a parcel is divided, its parts together cost what it cost. |
| `CostedUnits.CostMeans` | src/domain/cost_base.rs:1032-1141 | The cost is that share walked down by its rows from the earliest day on, statements before payments on one day and otherwise as given. |
| `CostedUnits.CostReconciles` | src/domain/cost_base.rs:1128-1141 | The cost is that share less every reduction in full, plus gains that are never negative. |
| `CostedUnits.StatementReachesAll` | src/domain/cost_base.rs:1047-1053 | Over the units still in the parcel and every lot that left it, one statement's rows take off its figure on each unit it covers, once. |
| `CostedUnits.EachPaymentOnce` | src/domain/cost_base.rs:1068-1084 | One row for each payment due while the units were held, on its day and re-based to units acquired, and none at all when one is in another currency. |
| `CostedUnits.EstimateIsReported` | src/domain/contemplated_disposal.rs:96-126 | The rehearsed cost base of a sale is the one reported once the sale is in the ledger: statements, payments, splits and refusals included. |
| `CostedUnits.SaleIsADisposal` | src/domain/contemplated_disposal.rs:96-126 | Units about to be sold stand where the ledger's entry for them will, and re-based to the day of sale they are the units stated. |
| `CostedUnits.WalksAgree` | src/domain/cost_base.rs:1020-1022 | The gains report's walk of a group of units ends on the balance they are costed at. |
| `Franking.PartitionPoint` | src/reports/franking.rs:206-212 | The leading trades dated on or before a day. |
| `Franking.SellFromTop` | src/reports/franking.rs:255-273 | The sale loop takes the newest parcels first and counts what is lost too soon. |
| `Franking.WalkTrades` | src/reports/franking.rs:228-293 | The loop over restated trades is the walk of the specification. |
| `Franking.TestWithSale` | src/reports/franking.rs:186-294 | The test with its window, its contemplated sale and its re-basing, for every listing. |
| `FrankingLaws.EntitledWasHeld` | src/reports/franking.rs:244-253 | Entitled are exactly the units held at the end of the day before the ex-day. |
| `FrankingLaws.HeldIsNet` | src/reports/franking.rs:255-282 | A history that never sells short holds its purchases less its sales. |
| `FrankingLaws.DisqualifiedIsBounded` | src/reports/franking.rs:1209-1212 | No more units are disqualified than were entitled, nor than were sold from the ex-day on. |
| `FrankingLaws.DeniedIsAPart` | src/reports/franking.rs:53-61 | The credits denied are never negative and never more than the credits. |
| `FrankingLaws.DeniedIsTheShare` | src/reports/franking.rs:53-61 | The credits denied are to the credits as the units disqualified to the units entitled. |
| `FrankingLaws.DaysAtRisk` | src/reports/franking.rs:186-282 | One purchase before the ex-day and a sale from it on: what is sold is disqualified when fewer than 45 whole days lie between, or 90 for a preference share, within as many days of the ex-day. |
| `FrankingLaws.LaterTradesCannotMatter` | src/reports/franking.rs:202-207 | Trades after the qualification window do not change the test. |
| `FrankingLaws.RehearsedSaleIsRecorded` | src/reports/franking.rs:179-185 | A contemplated sale tests as it would recorded, after its day's trades, in or out of the window. |
| `FrankingSplits.ScaledOutcome` | src/reports/franking.rs:235-240 | Trades in another unit basis test to the same counts in that basis. |
| `FrankingSplits.SplitChangesOnlyTheUnits` | src/reports/franking.rs:1213-1215 | A split anywhere changes the counts by its ratio, or not at all after the window, a contemplated sale included. |
| `FrankingSplits.SplitDeniesTheSame` | src/reports/franking.rs:53-61 | The credits denied are the same in any basis. |
| `FrankingLevels.SellIsCut` | src/reports/franking.rs:255-273 | Selling from the stack of parcels takes units off its top one by one. |
| `FrankingLevels.WalkCountsLevels` | src/reports/franking.rs:186-294 | The whole walk in closed form, with no stack: entitled is the height held, disqualified the levels that fall too soon after they rose. |
| `FrankingHistories.HistoryCountsLevels` | src/reports/franking.rs:186-294 | Every history of rational quantities is counted in some common step, so that closed form is its test. |
| `FrankingHistories.TestCountsLevels` | src/reports/franking.rs:186-294 | The test of a dividend as it is put, with its window, splits and contemplated sale, is that closed form. |
| `Deductions.Load` | src/domain/deduction_destination.rs:102-142 | The fold over income rows records of each listing exactly whether such rows exist. |
| `Deductions.RowsAreASet` | src/domain/deduction_destination.rs:128-140 | Neither the order nor the repetition of income rows matters. |
| `Deductions.YearDoesNotMatter` | src/domain/deduction_destination.rs:181-193 | A destination is the same in every tax year. |
| `Deductions.RowsOnlyClimbBut` | src/domain/deduction_destination.rs:171-203 | One more row lowers a destination exactly when it is the first, bare row of a listing quoted abroad that is no AMIT. |
| `Deductions.HistoryClimbs` | src/domain/deduction_destination.rs:171-203 | Once some row exists a destination only ever climbs. |
| `Deductions.WhereItGoes` | src/domain/deduction_destination.rs:171-203 | Each of the four destinations exactly by the listing and its income rows: trust first, then foreign income or a foreign quotation with no income, debt apart, else dividends and interest. |
| `SchemaRefs.PushRefs` | src/api_spec.rs:475-497 | Pushes exactly the schema names a value refers to at any depth, on top of what was pending. |
| `Reachability.ClosureIsLeast` | src/api_spec.rs:530-542 | The names chains of references lead to are the least set closed under references. |
| `Reachability.Reach` | src/api_spec.rs:530-542 | The worklist ends, cycles and dangling names included, holding exactly the schemas reached. |
| `Slicing.SliceWhere` | src/api_spec.rs:469-558 | The slice of the specification, and none exactly where it has none. |
| `SliceMeaning.SliceMeans` | src/api_spec.rs:463-558 | The slice has an operation exactly where the document has one that is accepted, the same one, and no path without one; the tags they list, in order; the schemas chains of references lead to from them; and everything else as it was. |
| `SliceMeaning.OnlySlice` | src/api_spec.rs:463-558 | Only one document is that. |
| `SliceMeaning.SliceIff` | src/api_spec.rs:469-515 | There is a slice exactly when the document has the expected shape and some operation is accepted. |
| `SliceMeaning.IdSliceHolds` | src/api_spec.rs:568-574 | An id's slice has exactly the operations with that id. |
| `SliceMeaning.TagSliceHolds` | src/api_spec.rs:560-567 | A tag's slice has exactly the operations that list it. |
| `Slicing.CarriesExactlyTheReachable` | src/api_spec.rs:463-468 | A slice carries a schema exactly when a chain of references leads to it from a kept operation. |
| `Slicing.ReferencesStillResolve` | src/api_spec.rs:463-468 | A schema that a kept operation or carried schema names is in the slice as it was. |
| `Slicing.SlicingAbsorbs` | src/api_spec.rs:469-558 | Slicing a slice by a narrower predicate is slicing the document by it. |
| `Slicing.SlicingIsIdempotent` | src/api_spec.rs:469-558 | Slicing twice is slicing once. |
| `Slicing.OperationSliceFromTagSlice` | src/api_spec.rs:560-574 | An operation's slice can be taken from its tag's slice. |
| `WholeSlices.SliceHolds` | src/api_spec.rs:463-468 | Every reference a slice holds is read off the document beforehand. |
| `WholeSlices.PlaceStandsIff` | src/api_spec.rs:499-558 | A place of the document is in the slice exactly when it is in no operation, tag or schema that goes. |
| `WholeSlices.WholeDocumentIff` | src/api_spec.rs:463-468 | Of any document, no reference dangles in a slice that did not before exactly when each one it carries leads to such a place. |
| `WholeSlices.PublishedSlicesAreWhole` | src/api_spec.rs:463-468 | In a slice of a document of the published shape every reference, wherever it stands, leads to the schema it led to. |
| `WholeSlices.SlicesArePublished` | src/api_spec.rs:560-574 | Such a slice has the published shape itself. |
| `SliceSamples.ExtensionCanDangle` | src/api_spec.rs:543-558 | In a document the server does not publish, an extension that names a schema no operation reaches dangles. |
| `SliceSamples.DeeperReferenceCanDangle` | src/api_spec.rs:475-497 | So does an operation's reference to a part of a schema, which is not followed. |
| `Routes.TagIsTheFurthestMatch` | src/api_spec.rs:320-337 | The tag is that of the one longest prefix matching on a segment boundary. |
| `Routes.MatchesIff` | src/api_spec.rs:326-334 | A prefix matches itself and, unless it is the root, whatever goes on from it with a slash. |
| `Routes.TagIgnoresOrder` | src/api_spec.rs:326-337 | The order of the table does not matter. |
| `Routes.RouteIndex` | src/api_spec.rs:432-459 | The loop over the table yields its sections once each, in the order they first appear. |
| `Routes.GroupsAreSections` | src/api_spec.rs:433-444 | Each group is one whole section, none repeated and none empty. |
| `Routes.FiledIsListed` | src/api_spec.rs:409-461 | An operation is listed as often as the document has it when its path is filed, and otherwise never. |
| `Routes.AllListedIff` | src/api_spec.rs:418-461 | The lines are as many as the header counts exactly when every path is filed. |
| `Completion.CompletingTwice` | src/api_spec.rs:670-736 | Completing a completed operation changes nothing, whatever its naming. |
| `PathSegments.SplitUndoesJoin` | src/api_spec.rs:1010-1015 | Splitting a path gives back the segments it is made of. |
| `Completion.ParametersAreTheRoutes` | src/api_spec.rs:689-698 | The path parameters are exactly the route's braced segments in order, required strings, whatever was generated; the others follow as they were. |
| `Completion.RespondsWith` | src/api_spec.rs:751-816 | Every response of a completed operation: which failure stands under which status for which verbs, routes and bodies, and otherwise what was there. |
| `Completion.BodyReads` | src/api_spec.rs:699-728 | Only what is neither JSON nor a form loses its schema, and the description says which of four kinds of body it is. |
| `Completion.NamedAfterTheRoute` | src/api_spec.rs:675-688 | The id follows the route, whether a 201 is answered and whether a 200 answers with a list; the tag follows the path. |
| `Completion.StatusIff` | src/api_spec.rs:675-680 | A response key is a status exactly when it writes a number of 16 bits in digits, with or without a plus sign. |
| `Completion.FailuresAreNoSuccess` | src/api_spec.rs:751-816 | No failure it documents reads as a creation or as the answer to a read. |
| `Completion.ClearSchemas` | src/api_spec.rs:705-712 | The loop clears the schemas of raw media only. |
| `Completion.Operation.Complete` | src/api_spec.rs:670-736 | Completing in place gives the operation the specification describes, its id spelt out. |
| `OperationIds.Spell` | src/api_spec.rs:351-388 | The loops spell the id from the verb's word, the literals and the parameters. |
| `OperationIds.IdReads` | src/api_spec.rs:339-388 | The verb's word for each verb and answer, then the literals, then By and And before the parameters. |
| `OperationIds.WordsAreThose` | src/api_spec.rs:360-372 | A segment's words are what stands between what is no letter and no digit. |
| `OperationIds.HumpsOfId` | src/api_spec.rs:339-350 | Cutting an id before its capitals gives back the words it was spelt from, where each starts with a letter and has no capital. |
| `OperationIds.SameIdIff` | src/api_spec.rs:349-350 | Two such operations share an id exactly when their verbs read alike and their paths have the same words in order. |
| `OperationIds.DigitsRunOn` | src/api_spec.rs:349-350 | Words that start with a digit run on: two paths of different words with one id. |
| `JsonRoundTrip.ParseUndoesPrint` | scripts/ui-drive.js:144-147 | What JSON.stringify prints reads back as the value, lone surrogates and every escape included. |
| `JsonText.PrintsWellFormed` | scripts/ui-drive.js:144-147 | What is printed of any string is well-formed UTF-16 without control characters. |
| `JsonText.StandsForItselfIff` | scripts/ui-drive.js:144-147 | A unit is printed as itself unless it is a quotation mark, a backslash, a control character or a lone half of a surrogate pair. |
| `JsLiteral.ReplacementKeepsMeaning` | scripts/ui-drive.js:139-147 | Replacing the four characters changes the meaning of no text that reads: no escape is split or misaligned. |
| `JsLiteral.LiteralParses` | scripts/ui-drive.js:135-148 | The encoder's text reads back as the value. |
| `JsLiteral.LiteralEvaluatesIff` | scripts/ui-drive.js:135-148 | Evaluated as a literal it gives the argument back exactly when no object has a property named `__proto__`. |
| `JsLiteral.ProtoIsLost` | scripts/ui-drive.js:144-148 | An object with such a property evaluates to one without it. |
| `JsLiteral.StringsSurvive` | scripts/ui-drive.js:410-416 | A string or a list of strings, all the driver encodes, always survives. |
| `JsLiteral.LiteralIsInert` | scripts/ui-drive.js:136-142 | The text holds no angle bracket and no line end of any kind. |
| `CdpProtocol.PendingExactly` | scripts/ui-drive.js:86-109 | In every history the pending ids are exactly the requests made and not yet answered. |
| `CdpProtocol.AnsweredHasFirst` | scripts/ui-drive.js:87-93 | A request that has been answered has a first answer, which the next row speaks of. |
| `CdpProtocol.SettlesByFirstAnswer` | scripts/ui-drive.js:87-93 | A request settles with the first reply bearing its id after it was made, fulfilled with its result or failed with its error's message and data, and not before. |
| `CdpProtocol.OutcomesAreFinal` | scripts/ui-drive.js:87-93 | An outcome once given never changes. |
| `CdpProtocol.PendingIsUnsettledIff` | scripts/ui-drive.js:103-109 | Pending and unsettled are the same exactly for requests that were sent or have been answered. |
| `CdpProtocol.UnsentStaysPending` | scripts/ui-drive.js:103-109 | A first request that cannot be sent is rejected and stays pending. |
| `CdpProtocol.HalvesDoNotMeet` | scripts/ui-drive.js:86-109 | Events never touch a request, nor requests the handlers. |
| `CdpProtocol.RepliesCommute` | scripts/ui-drive.js:87-93 | Replies may arrive in either order, and repeats change nothing. |
| `CdpProtocol.WireAscends` | scripts/ui-drive.js:103-109 | What goes out is numbered strictly upwards, below the next id. |
| `CdpProtocol.WireGrows` | scripts/ui-drive.js:103-109 | A request that can be sent goes out once, under its number and as it was made, and nothing else does. |
| `CdpProtocol.NoticeCallsRegistered` | scripts/ui-drive.js:95-101 | An event calls the handlers added for it so far, once each and in order, with its parameters. |
| `CdpProtocol.OnlyNoticesCall` | scripts/ui-drive.js:86-101 | Nothing but an event calls a handler. |
| `Cdp.Cdp.constructor` | scripts/ui-drive.js:69-75 | A new client has made no request. |
| `Cdp.Cdp.Send` | scripts/ui-drive.js:103-109 | Takes the next id, enters a new promise and sends, as one protocol step. |
| `Cdp.Cdp.OnMessage` | scripts/ui-drive.js:86-96 | A message is one protocol step, settling only the promise it names. |
| `Cdp.Cdp.On` | scripts/ui-drive.js:98-101 | Adding a handler is one protocol step. |
| `Headings.MarkdownLines` | src/doc_checks.rs:5942-5957 | The fence state yields exactly the lines outside every block, a block running to the next fence of its own character. |
| `Headings.FenceIff` | src/doc_checks.rs:5942-5957 | A fence is three backticks or three tildes behind white space at most. |
| `Headings.HeadingReads` | src/doc_checks.rs:5918-5936 | A heading is one to six hashes and a space, whatever line it is put to. |
| `Headings.HeadingAnchors` | src/doc_checks.rs:5918-5936 | The anchors are exactly the base, base-1, … of each slug, as many as it has headings. |
| `Headings.OrderDoesNotMatter` | src/doc_checks.rs:5918-5936 | The anchors do not depend on the order of the headings. |
| `Headings.OneAnchorEachIff` | src/doc_checks.rs:5916-5936 | There are as many anchors as headings exactly when no heading's slug is the anchor of another's repetition. |
| `Headings.SharedAnchor` | src/doc_checks.rs:5916-5936 | Three headings with two anchors. |
| `Sections.FindHeading` | src/doc_checks.rs:54-64 | Matches taken without overlap miss no line that is the heading. |
| `Sections.Section` | src/doc_checks.rs:53-80 | The section runs from the first such line to the first later heading of its level or above. |
| `Sections.ReachesNextHeadingIff` | src/doc_checks.rs:43-45 | The section reaches the next heading exactly when no line before it starts with as few hashes without being a heading. |
| `Sections.FencedCommentCuts` | src/doc_checks.rs:68-76 | A document whose section a fenced comment cuts. |
| `Sections.SpansOnce` | src/doc_checks.rs:53-80 | Only one span is the section. |
| `Sections.InnerSection` | src/doc_checks.rs:66-79 | A deeper heading's section taken from the section it lies in is the document's. |
| `BlockScanner.InherentParseMethods` | src/app.rs:702-748 | The one-pass loop reports each declaration inside an inherent impl, in order, with its line. |
| `BlockScanner.ReportsAre` | src/app.rs:702-748 | The reports are, in order, those of exactly the offsets at which one is due, each with its name and line. |
| `BlockScanner.LineIs` | src/app.rs:740-742 | A line is one more than the line breaks before it. |
| `BlockScanner.KindMeans` | src/app.rs:710-721 | A header is an impl's when a word of it is `impl` or starts with `impl<` and none is `fn`, and for `FromStr` when it says so. |
| `BlockScanner.DeclaredIsSeen` | src/app.rs:728-743 | Every function `parse` or `from_str` whose first parameter is a reference to a type ending in `str` is seen. |
| `BlockScanner.SeenIsDeclared` | src/app.rs:728-743 | And nothing else is. |
| `BlockScanner.ScanAll` | src/app.rs:710-724 | A run of whole blocks and statements leaves the open blocks as they were. |
| `BlockScanner.ReportedByInnermostBlock` | src/app.rs:696-748 | In text rendered from a tree of blocks the stack mirrors the blocks around every offset, and the innermost decides. |
| `FieldInsertion.InsertFields` | scripts/add-missing-fields.py:36-49 | Inserting from the bottom up is inserting everywhere at once, and the total is the growth. |
| `FieldInsertion.AddsLines` | scripts/add-missing-fields.py:43-46 | Each missing field has its own line in order, indented four spaces past the opening line. |
| `FieldInsertion.NextSite` | scripts/add-missing-fields.py:40-46 | Each opening line read is the original one. |
| `FieldInsertion.OneOrder` | scripts/add-missing-fields.py:41 | Sites are taken in one order whatever order they were found in. |
| `FieldInsertion.OrderedAscends` | scripts/add-missing-fields.py:41 | That order has every site once, ascending. |
| `FieldInsertion.DeletingRestores` | scripts/add-missing-fields.py:46 | Deleting the inserted lines gives the file back. |
| `FieldInsertion.WovenGrows` | scripts/add-missing-fields.py:45-47 | The file grows by one line per missing field. |

## Left out

- Decimal arithmetic: amounts are exact rationals, so 28-digit rounding, overflow and the refusals for unrepresentable figures are not modelled; nor is the common denominator the registry's fractions are put over.
- `src/reports/parcel_optimiser.rs:355` for parcels of no units, two parcels of one trade and sales of more than is held, which its callers never hand it; and the residue of rounding that `adding_up_to` puts on the last pick.
- Parcels of no units in a registry's holding: the callers hand over only parcels that hold some. Who gets a step, moves or is named is said of parcels of distinct trades, the only ones a ledger has.
- Share splits inside a parcel's own ledger: its counters are in the parcel's as-acquired units, and the conversion of a full-precision figure back to a shorter count is not modelled.
- Percent-encoding in references: the pointers are read as they are spelt.
- ReductionWalks.ExcessWalk: rates come with the reductions; how they are looked up, and the tax year and discount of each gain, are not modelled.
- Completion.Operation.Complete: the wording of each documented failure is its kind.
- Routes.RouteIndex: the groups and their lines, not their text layout.
- MinGain.MinGainPicks: allocations in the quantities' own smallest unit, the only ones the code makes.
- Database reads, transactions, HTTP routing and middleware, sign-in, the user interface, the timing waits of the browser driver.
- Member order in the sliced document: objects are maps there. The literal encoder keeps member order.
- What `JSON.stringify` does before it prints: `toJSON`, functions and `undefined` inside a value, numbers that are not finite.
- White space between JSON tokens, and string escapes only a script knows, in the reader the encoder is proved against: the encoder prints neither. Numbers are held as their numerals.
- Handlers of the DevTools client that add handlers or send requests while an event is being delivered; `attach` and `close`.
- Unicode: letters, white space and lower-casing are the ASCII ones, and `slugify` with `heading_text` is a parameter of the heading anchors.
- `resolve`, `markdown_links`, `error_bodies_listed_codes` and the fixed text checks of `src/doc_checks.rs`: they would add only easy members.
