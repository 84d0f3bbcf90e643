# Price boards for a supermarket: a Dafny model

The system drives TV panels that show the prices of a supermarket's products.
Its backend (`BACKEND/app.py`) watches the text file exported by the butcher's
scale software and turns each line into a product record: a code, a name and a
price. The records of one run are aggregated by code, keeping the dearest.
They are then reconciled against the product table:
- a known code gets its new price, unless the change exceeds the configured
  limit, in which case it goes to quarantine;
- a new code gets the smallest free grid position.

Afterwards every department's default panel is resynchronised with the products
whose normalised names match its keywords. A command-line importer
(`BACKEND/tools/import_from_txt.py`) reads the same file format. The React
frontend (`sistema-paineis-tv/src`) adds helpers that are modelled here too:
- product, panel and action checks;
- the 24-slot butcher grid and its text export;
- position-conflict detection and position suggestions;
- input masks and form rules;
- error-message tables;
- search history and suggestions;
- role checks.

The model is written in Dafny, one module per concern:

| module | models |
|---|---|
| `LineParser` | the two line formats (monitor and importer) and the per-file loops |
| `NameFormat` | removal of the digit tail and of `kg`/`un` units, title-casing, the accent table, space collapsing |
| `Aggregation` | deduplication by code that keeps the first record with the highest price |
| `Reconcile` | the price reader, the record checks, the per-item decision (update, quarantine, create) and its counters |
| `Catalog` | product lookup by code and the smallest free grid position |
| `NameMatch` | `_norm_name` and the keyword test of the panel sync |
| `PanelSync` | `perform_sync_department_panel` as functions over the association table |
| `Store` | the database tables as a class whose methods run the loops of the reconciler, the sync and the file monitor, each proved equal to the functions above |
| `SuggestCode` | `generate_suggested_code` |
| frontend modules | `PanelService`, `ButcherService`, `ProductGrid`, `PositionConflict`, `ProductCode`, `FormValidation`, `InputMask`, `ErrorMessages`, `ActionService`, `DebouncedSearch`, `MessageHandling`, `Auth` |
| `Seqs`, `Text` | shared helpers over sequences and characters |

Three kinds of input are parameters of the model:
- Files, clocks and the database session are the arguments of the methods that
  use them.
- Unicode decomposition and the combining-mark test are a `UnicodeTables` value.
- The fuzzy name ratio and the butcher-name pattern are an `Oracles` value.

## Model

| member | source | states |
|---|---|---|
| `LineParser.DigitRun` | BACKEND/app.py:1750 | the digits after a marker form a run of digits |
| `LineParser.CodeAfter` | BACKEND/app.py:1750-1751 | a code read after a marker has 3 to the maximum number of digits, has no leading zero unless it is exactly 3 digits long, and keeps the value of the digit run |
| `LineParser.ZerosDropped` | BACKEND/tools/import_from_txt.py:33 | removing leading zeros while more than three digits remain keeps the value and leaves at least three digits |
| `LineParser.MarkerCode` | BACKEND/tools/import_from_txt.py:31 | a code found after a `kg`/`un` marker is all digits, is 3 to the maximum number of digits long and has no leading zero beyond the first three |
| `LineParser.LastKg` | BACKEND/app.py:1738 | the position returned is the last `kg` at or before the bound, or 0 if there is none |
| `LineParser.FindKg` | BACKEND/app.py:1765-1766 | the first `kg` in the line, or -1 if there is none |
| `LineParser.MonitorNameField` | BACKEND/app.py:1738 | a name field is only found on a line whose first 18 characters are digits |
| `LineParser.PriceFieldBound` | BACKEND/app.py:1738-1753 | in a matching line the price field (characters 9 to 15) is six digits, worth less than 1000000 cents |
| `LineParser.ParseMonitorLine` | BACKEND/app.py:1746-1766 | a line gives nothing exactly when it does not match the pattern and is shorter than 20 characters or its price slice is not an integer; a matching line gives the structured item, any other the fallback item priced by the slice |
| `LineParser.MonitorStructuredItem` | BACKEND/app.py:1749-1753 | the item is active, its name is tidy, its price is the six-digit field, and its code is the code after `kg` when there is one and characters 6 to 9 otherwise |
| `LineParser.MonitorFallbackItem` | BACKEND/app.py:1754-1766 | the item is active, its name is tidy, its price is the price given, and its code is the code after `kg` or characters 6 to 9 |
| `LineParser.ParseImporterLine` | BACKEND/tools/import_from_txt.py:12-33 | a line gives nothing exactly when it does not match the pattern and is shorter than 20 characters or its price slice is not an integer; a matching line gives the structured item priced by its six-digit field, any other the fallback item priced by the slice |
| `LineParser.FieldCode` | BACKEND/tools/import_from_txt.py:33 | `str(int(field))` of characters 2 to 9 gives digits with no leading zero and the same value |
| `LineParser.ImporterStructuredItem` | BACKEND/tools/import_from_txt.py:15-19 | the item is active, its name is tidy, its price is the six-digit field, and its code is the marker code or the numeric field code |
| `LineParser.ImporterFallbackItem` | BACKEND/tools/import_from_txt.py:20-29 | the item is active, its name is tidy, and it has the price given and the marker code or characters 6 to 9 |
| `LineParser.ParseLine` | BACKEND/tools/import_from_txt.py:45-50 | every parsed item is clean: active, with a tidy name and a code |
| `LineParser.ParsedClean` | BACKEND/tools/import_from_txt.py:45-50 | every item the per-line loop keeps is clean |
| `LineParser.ParseLines` | BACKEND/app.py:1746-1779 | the loop over the lines collects exactly the items the line parser accepts, in order |
| `LineParser.ParseFile` | BACKEND/tools/import_from_txt.py:52-58 | the items of a file are the parsed items aggregated by code: codes are unique, every parsed code is represented, each survivor is the first of the dearest for its code, and every item is clean |
| `NameFormat.TailStart` | BACKEND/tools/import_from_txt.py:34 | the tail that is cut is the longest suffix made of digit groups |
| `NameFormat.StripDigitTail` | BACKEND/app.py:1768 | the result is a prefix of the name, and what is cut is a run of digit groups |
| `NameFormat.StripDigitTailIdempotent` | BACKEND/app.py:1768 | stripping the digit tail twice changes nothing more |
| `NameFormat.StripDigitTailEnds` | BACKEND/app.py:1768 | the stripped name neither starts nor ends with white space |
| `NameFormat.TitleSpacing` | BACKEND/app.py:1770 | `title()` keeps the whitespace layout: the result is empty exactly when the input is, has whitespace at each end exactly where the input does, stays all-space when the input was, and gains no doubled space; a character such as ß may grow into several, so positions are not kept |
| `NameFormat.ReplaceWordSpacing` | BACKEND/app.py:1771-1778 | a whole-word replacement in the accent table keeps the spacing of the name |
| `NameFormat.ApplyTableSpacing` | BACKEND/tools/import_from_txt.py:37-44 | the whole accent table keeps the spacing of the name |
| `NameFormat.AccentTableWellFormed` | BACKEND/app.py:1771-1778 | no entry of the accent table contains a space |
| `NameFormat.FormatName` | BACKEND/app.py:1768-1778 | a formatted name is tidy: no leading, trailing or doubled white space |
| `NameFormat.CollapseTidy` | BACKEND/tools/import_from_txt.py:35 | collapsing the white-space runs of a name without white space at its ends leaves a tidy name |
| `NameFormat.RemoveUnitsFrom` | BACKEND/tools/import_from_txt.py:19 | removing `kg`/`un` units never lengthens the name |
| `NameFormat.RemoveUnitsComplete` | BACKEND/tools/import_from_txt.py:29 | after removal no unit word remains in the name |
| `Aggregation.IndexOfCode` | BACKEND/app.py:1660-1667 | the index of the record with a code in the aggregate, or -1 when no record has it |
| `Aggregation.AggregateShape` | BACKEND/tools/import_from_txt.py:52-58 | aggregation leaves one record per code and represents every code |
| `Aggregation.AggregateWinners` | BACKEND/app.py:1660-1667 | each surviving record is the first record of the highest price for its code |
| `Aggregation.AggregateSnoc` | BACKEND/app.py:1660-1667 | aggregating one more record merges it into the earlier aggregate |
| `Aggregation.FindCode` | BACKEND/app.py:1662 | the search loop finds the index `IndexOfCode` defines |
| `Aggregation.MergeInto` | BACKEND/app.py:1662-1667 | one loop step replaces a record with a dearer one of the same code, or appends a new code |
| `Aggregation.AggregateByCode` | BACKEND/app.py:1660-1667 | the loop gives the aggregate: codes are unique, every input code is represented, and the dearest (first on ties) survives |
| `Catalog.ProductAt` | BACKEND/app.py:1676 | the product with a code, or none when no product has it |
| `Catalog.Pigeonhole` | BACKEND/app.py:1711-1716 | k distinct positions below k+1 need at least k entries, so the scan for a free position stops |
| `Catalog.SmallestFree` | BACKEND/app.py:1711-1716 | the position chosen is free and every smaller positive position is taken |
| `Catalog.SmallestFreeUnique` | BACKEND/app.py:1711-1716 | the smallest free position is the only free position with every smaller one taken |
| `Catalog.FreePosition` | BACKEND/app.py:1712-1714 | the counting loop returns the smallest free position |
| `Reconcile.RemoveChar` | BACKEND/app.py:1655 | `replace(c, '')` leaves no `c` and never lengthens the text |
| `Reconcile.ReplaceChar` | BACKEND/app.py:1655 | `replace(',', '.')` changes exactly the commas |
| `Reconcile.CommaIsDecimalPoint` | BACKEND/app.py:1653-1659 | a price written `whole,frac` reads as the decimal `whole.frac` |
| `Reconcile.PointIsThousandsSeparator` | BACKEND/app.py:1653-1659 | a price written `whole.frac` loses its point and reads as the whole number of all its digits, so "32.90" reads as 3290 |
| `Reconcile.DecimalOfDigits` | BACKEND/app.py:1658 | a price of plain digits reads as that integer |
| `Reconcile.CheckPartition` | BACKEND/app.py:1650-1659 | every raw record is either a valid item or a reported error |
| `Reconcile.ValidItemsFromInput` | BACKEND/app.py:1650-1659 | each valid item comes from a record of the input, and its code is not empty |
| `Reconcile.Delta` | BACKEND/app.py:1679-1686 | the price change in percent is never negative |
| `Reconcile.QuarantineCrossMultiplied` | BACKEND/app.py:1692 | for a positive stored price, quarantine holds exactly when the absolute change times 100 exceeds the limit times the stored price |
| `Reconcile.ImportItemsStep` | BACKEND/app.py:1671-1719 | the loop's tally after n+1 items is one item step applied to the tally after n |
| `Reconcile.QuarantineKeepsProduct` | BACKEND/app.py:1692-1696 | a quarantined item leaves the product untouched and adds one conflict row holding the old and new price |
| `Reconcile.AcceptedUpdatesProduct` | BACKEND/app.py:1697-1708 | an accepted item sets the price and takes its `ativo` flag from the record, leaves every other product alone and records the change in the history; the name changes only when the fuzzy and butcher rules allow it, and otherwise a name conflict is logged |
| `Reconcile.NewCodeTakesSmallestFreePosition` | BACKEND/app.py:1709-1716 | a new code is appended as a product with the next id, the record's name, price and `ativo` flag, at the smallest position from 1 that no product holds |
| `Reconcile.PreviewWritesNothing` | BACKEND/app.py:1693-1722 | a preview run leaves every table as it was |
| `Reconcile.ImportedCountsAll` | BACKEND/app.py:1717 | the imported counter equals the number of aggregated items |
| `Reconcile.OtherCodesUntouched` | BACKEND/app.py:1671-1719 | a code absent from the input keeps its product row |
| `Reconcile.QuarantineCountExact` | BACKEND/app.py:1696 | the quarantine counter is the number of items whose stored price moved beyond the limit |
| `Reconcile.PreviewCountsMatchLive` | BACKEND/app.py:1720-1722 | a preview reports the same counters as the live run would |
| `Reconcile.NoLimitsNoConflicts` | BACKEND/app.py:1692 | without limits, as the monitor runs it, nothing is quarantined and no conflict is written |
| `Reconcile.ImportKeepsRowsWellFormed` | BACKEND/app.py:1671-1719 | importing keeps product codes unique and row ids below the id counter |
| `NameMatch.DropMarks` | BACKEND/app.py:1724-1730 | no combining mark is left |
| `NameMatch.NormTidy` | BACKEND/app.py:1724-1730 | a normalised name has no leading, trailing or doubled space |
| `NameMatch.NormIdempotent` | BACKEND/app.py:1724-1730 | normalising twice gives the same name as normalising once |
| `NameMatch.ExactImpliesSubstring` | BACKEND/app.py:2569-2580 | a name that matches a keyword exactly also matches in substring mode |
| `NameMatch.MatchNormalised` | BACKEND/app.py:2569-2580 | matching a normalised name gives the same verdict as matching the raw name |
| `NameMatch.EmptyNameMatch` | BACKEND/app.py:2569-2580 | an empty name matches only when some keyword normalises to the empty string |
| `PanelSync.ProductById` | BACKEND/app.py:2586 | the product an association points to, or none when it was deleted |
| `PanelSync.KeepPassPartition` | BACKEND/app.py:2585-2605 | every association of the panel is kept, deleted as unmatched, or deleted as a duplicate |
| `PanelSync.KeepPassMultiset` | BACKEND/app.py:2585-2611 | the three outcomes together are a permutation of the panel's associations |
| `PanelSync.KeepPassMatches` | BACKEND/app.py:2585-2605 | the kept associations match the keywords, one per normalised name |
| `PanelSync.KeepPassAggregates` | BACKEND/app.py:2585-2605 | when no matching association is orphaned, the first loop is aggregation by normalised name with the price as key |
| `PanelSync.KeptAreDearest` | BACKEND/app.py:2593-2605 | each kept association is the first of the dearest among the matching ones of its name |
| `PanelSync.OrphansRemoved` | BACKEND/app.py:2586-2592 | associations whose product was deleted are removed unless a keyword normalises to the empty string |
| `PanelSync.AggregateCovers` | BACKEND/app.py:2618-2632 | every candidate's name is represented by a selected product at least as dear |
| `PanelSync.SelectedAreCandidates` | BACKEND/app.py:2612-2632 | every product given a new association is active, matches, and was not on the panel |
| `PanelSync.SelectedCoversCandidates` | BACKEND/app.py:2612-2632 | every matching candidate's name is covered by a selected product |
| `PanelSync.SelectedOnePerName` | BACKEND/app.py:2618-2632 | one product per normalised name is selected, the first dearest |
| `PanelSync.NewAssociations` | BACKEND/app.py:2633-2636 | one active association per selected product, with consecutive fresh ids |
| `PanelSync.SyncCounts` | BACKEND/app.py:2582-2643 | the removed count is the unmatched plus the duplicates, and the added count is the number selected |
| `PanelSync.SyncOtherPanels` | BACKEND/app.py:2581-2643 | associations of other panels stay untouched and in order |
| `PanelSync.SyncPanelContents` | BACKEND/app.py:2581-2643 | after the sync the panel holds exactly the kept associations and the new ones |
| `PanelSync.SyncKeepsIds` | BACKEND/app.py:2633-2636 | row ids stay distinct and below the counter |
| `Store.KeepLoop` | BACKEND/app.py:2585-2605 | the first loop of the sync computes `KeepPass` |
| `Store.GroupDearest` | BACKEND/app.py:2618-2632 | the grouping loop computes the aggregate of the candidates |
| `Store.AppendNew` | BACKEND/app.py:2633-2636 | the adding loop appends exactly the new associations |
| `Store.SyncTables` | BACKEND/app.py:2581-2643 | the loops of one sync compute `Sync` |
| `Store.SyncValid` | BACKEND/app.py:2581-2643 | a panel sync keeps ids distinct and below the counter |
| `Store.SyncEach` | BACKEND/app.py:1801-1811 | the loop over the default panels syncs each in turn |
| `Store.MonitorRecords` | BACKEND/app.py:1779 | one raw record per parsed item, in order |
| `Store.CheckAndAggregate` | BACKEND/app.py:1643-1667 | the first loop of the reconciler reports the rejected records and aggregates the valid ones |
| `Store.ReconcileItem` | BACKEND/app.py:1671-1719 | the loop body for one item computes `ImportItem` |
| `Store.Database.Import` | BACKEND/app.py:1626-1722 | the tables become what `ImportRecords` computes and the report is its report; product codes stay unique and row ids distinct |
| `Store.Database.ImportOne` | BACKEND/app.py:1671-1719 | one reconciler iteration applied to the rows in place |
| `Store.Database.SyncPanel` | BACKEND/app.py:2550-2643 | the association table and counter become what `Sync` computes, with its two counts |
| `Store.Database.SyncAll` | BACKEND/app.py:1801-1811 | every default panel is synced with exact matching |
| `Store.Database.ImportAndSync` | BACKEND/app.py:1798-1811 | the records are imported without limits, then every default panel is synced |
| `Store.ToRecords` | BACKEND/app.py:1779 | the loop builds the monitor's records |
| `Store.Monitor.constructor` | BACKEND/app.py:1737 | no modification time has been seen yet |
| `Store.Monitor.Tick` | BACKEND/app.py:1741-1816 | a missing file or an unchanged time changes nothing; otherwise the file is parsed, imported and synced, and its time is remembered |
| `SuggestCode.RunStart` | BACKEND/app.py:2787 | the start of the trailing digit run |
| `SuggestCode.TrailingNumber` | BACKEND/app.py:2787 | the bounds of the last digit run |
| `SuggestCode.FirstSuggestionDiffers` | BACKEND/app.py:2788-2794 | the first suggestion always differs from the base code |
| `SuggestCode.FirstSuggestionBumps` | BACKEND/app.py:2790-2791 | with a trailing number the first suggestion keeps the prefix and replaces the number by its successor in plain decimal, so leading zeros are dropped (`A007` becomes `A8`) |
| `SuggestCode.FirstFreeAlternative` | BACKEND/app.py:2800-2803 | an alternative returned is free; none is returned only when all are taken |
| `SuggestCode.SuggestedCode` | BACKEND/app.py:2796-2807 | a suggestion is never taken, and none is given exactly when the first suggestion and alternatives 2 to 9 are all taken |
| `SuggestCode.AlternativeIsSmallest` | BACKEND/app.py:2800-2803 | every alternative before the one chosen is taken |
| `SuggestCode.GenerateSuggestedCode` | BACKEND/app.py:2783-2807 | the loop returns `SuggestedCode` |
| `ProductGrid.OrganizeByPositionSpec` | sistema-paineis-tv/src/services/panelService.ts:244-248 | filter then stable sort: sorted, the active items as a multiset, ties in input order |
| `ProductGrid.StatsAddUp` | sistema-paineis-tv/src/services/butcherService.ts:192-210 | total = active + inactive, and free slots = 24 - active |
| `ProductGrid.StatsAverage` | sistema-paineis-tv/src/services/panelService.ts:290-306 | the average times the active count is the total value |
| `PanelService.OrganizeByPosition` | sistema-paineis-tv/src/services/panelService.ts:244-248 | the active products, sorted by position, as a permutation |
| `PanelService.OrganizeByPositionStable` | sistema-paineis-tv/src/services/panelService.ts:247 | products on the same position keep their order |
| `PanelService.GetPanelStats` | sistema-paineis-tv/src/services/panelService.ts:290-306 | the counts add up and free positions are 24 minus the active count |
| `PanelService.FirstEmpty` | sistema-paineis-tv/src/services/panelService.ts:279 | the first empty slot, or none when the grid is full |
| `PanelService.Place` | sistema-paineis-tv/src/services/panelService.ts:275-283 | a product goes to its position when in range, else to the first empty slot |
| `PanelService.CreatePositionalGrid` | sistema-paineis-tv/src/services/panelService.ts:270-287 | the array loop builds `Grid` |
| `PanelService.GridHoldsLastAtPosition` | sistema-paineis-tv/src/services/panelService.ts:275-277 | a slot holds the last product placed at its position |
| `PanelService.GridHoldsInputs` | sistema-paineis-tv/src/services/panelService.ts:270-287 | every occupied slot holds an input product |
| `PanelService.ValidatePanelData` | sistema-paineis-tv/src/services/panelService.ts:309-333 | each message appears exactly when its check fails |
| `PanelService.ValidateMediaFile` | sistema-paineis-tv/src/services/panelService.ts:250-267 | type and size errors appear exactly when the file breaks those rules |
| `ButcherService.ValidateProductData` | sistema-paineis-tv/src/services/butcherService.ts:146-162 | each message appears exactly when its field is present and bad; absent fields give none |
| `ButcherService.OrganizeByPosition` | sistema-paineis-tv/src/services/butcherService.ts:174-180 | the active products, sorted by position, as a permutation |
| `ButcherService.OrganizeByPositionStable` | sistema-paineis-tv/src/services/butcherService.ts:178 | products on the same position keep their order |
| `ButcherService.UsedPositions` | sistema-paineis-tv/src/services/butcherService.ts:183-185 | the positions of the active products |
| `ButcherService.GetAvailablePositions` | sistema-paineis-tv/src/services/butcherService.ts:182-190 | ascending, exactly the slots 1..24 no active product uses |
| `ButcherService.GetProductStats` | sistema-paineis-tv/src/services/butcherService.ts:192-210 | total = active + inactive, occupied = active, free = 24 - active |
| `ButcherService.RemoveFirst` | sistema-paineis-tv/src/services/butcherService.ts:120 | a string pattern removes only the first occurrence |
| `ButcherService.ExportDataTxt` | sistema-paineis-tv/src/services/butcherService.ts:113-131 | the loop builds the export, one line per product |
| `ButcherService.PriceFieldValue` | sistema-paineis-tv/src/services/butcherService.ts:119-121 | the price field is at least six digits and reads back as 100 times the cents |
| `ButcherService.ExportLineLayout` | sistema-paineis-tv/src/services/butcherService.ts:117-128 | a line is the padded code, then the price field, and ends in `kg` and a newline |
| `ButcherService.ExportCodeValue` | sistema-paineis-tv/src/services/butcherService.ts:125 | padding a numeric code keeps its value |
| `PositionConflict.FindProduct` | sistema-paineis-tv/src/hooks/usePositionConflict.ts:74 | the product with an id, or none |
| `PositionConflict.DetectPositionConflicts` | sistema-paineis-tv/src/hooks/usePositionConflict.ts:67-103 | the two loops compute `Conflicts` |
| `PositionConflict.GroupByPosition` | sistema-paineis-tv/src/hooks/usePositionConflict.ts:72-89 | the grouping loop builds the position map and its key order |
| `PositionConflict.ListConflicts` | sistema-paineis-tv/src/hooks/usePositionConflict.ts:92-100 | the listing loop emits the groups of two or more |
| `PositionConflict.GroupsKeys` | sistema-paineis-tv/src/hooks/usePositionConflict.ts:72-89 | the map keys are the distinct positions seen, each holding its members |
| `PositionConflict.ConflictSpec` | sistema-paineis-tv/src/hooks/usePositionConflict.ts:67-103 | a position is reported exactly when two or more entries share it |
| `PositionConflict.SkippedNeverCount` | sistema-paineis-tv/src/hooks/usePositionConflict.ts:72-89 | associations without a position or product add nothing |
| `PositionConflict.TotalConflictsBound` | sistema-paineis-tv/src/hooks/usePositionConflict.ts:115-116 | the total is at least twice the number of conflicts, and positive exactly when there is a conflict |
| `PositionConflict.MaxPosition` | sistema-paineis-tv/src/hooks/usePositionConflict.ts:186 | the largest position in use, or 0 |
| `PositionConflict.CheckPosition` | sistema-paineis-tv/src/hooks/usePositionConflict.ts:148-201 | valid exactly when the position is empty, or positive and not taken by another product; an error exactly when invalid |
| `PositionConflict.PositionValidator.constructor` | sistema-paineis-tv/src/hooks/usePositionConflict.ts:145-146 | no errors and no warnings to start with |
| `PositionConflict.PositionValidator.ValidatePosition` | sistema-paineis-tv/src/hooks/usePositionConflict.ts:148-201 | the verdict is `CheckPosition`, and the error and warning maps gain or lose exactly this product's entry |
| `PositionConflict.FreePositionsSpec` | sistema-paineis-tv/src/hooks/usePositionConflict.ts:237-258 | the free positions are exactly the positions 1..100 not in use, ascending |
| `PositionConflict.SuggestAvailablePositions` | sistema-paineis-tv/src/hooks/usePositionConflict.ts:237-258 | the loop returns the first free positions of 1..100, as many as the limit allows |
| `PositionConflict.SetPositions` | sistema-paineis-tv/src/hooks/usePositionConflict.ts:261-264 | the positions in use, sorted |
| `PositionConflict.SuggestNextPosition` | sistema-paineis-tv/src/hooks/usePositionConflict.ts:260-279 | the loop returns `NextPosition` |
| `PositionConflict.NextPositionSpec` | sistema-paineis-tv/src/hooks/usePositionConflict.ts:260-279 | the suggestion is 1 when no position is set; otherwise it is above the smallest set position and not in use |
| `ProductCode.KeepCodeChars` | sistema-paineis-tv/src/types/index.ts:242 | only letters and digits remain |
| `ProductCode.CodeBase` | sistema-paineis-tv/src/types/index.ts:240-243 | at most six code characters |
| `ProductCode.CandidateInjective` | sistema-paineis-tv/src/types/index.ts:249 | candidates differ from the base and from each other |
| `ProductCode.TriedBound` | sistema-paineis-tv/src/types/index.ts:245-252 | the counter never exceeds the number of existing codes, so the loop ends |
| `ProductCode.GenerateProductCode` | sistema-paineis-tv/src/types/index.ts:239-254 | the code is new; it is the base when that is free, else the first free candidate |
| `ProductCode.CodeErrorSpec` | sistema-paineis-tv/src/types/index.ts:256-281 | no error exactly when the code has two or more characters of the allowed shape; blank and short codes get their own messages |
| `ProductCode.ValidateProductCode` | sistema-paineis-tv/src/types/index.ts:256-281 | valid exactly when there is no error |
| `ProductCode.GeneratedCodeValid` | sistema-paineis-tv/src/types/index.ts:239-281 | every generated candidate passes validation |
| `FormValidation.Mod11Check` | sistema-paineis-tv/src/components/ui/FormValidation.tsx:245-246 | the check digit is below 10 |
| `FormValidation.CpfRemainderIsCheck` | sistema-paineis-tv/src/components/ui/FormValidation.tsx:245-254 | the source's remainder formula equals the mod-11 check digit |
| `FormValidation.CpfTest` | sistema-paineis-tv/src/components/ui/FormValidation.tsx:232-257 | the loops decide `CpfValid` |
| `FormValidation.CnpjWeightStep` | sistema-paineis-tv/src/components/ui/FormValidation.tsx:273-277 | the weight cycles 5..2 then 9..2 |
| `FormValidation.CnpjLoop` | sistema-paineis-tv/src/components/ui/FormValidation.tsx:272-278 | the weighted sum loop computes `CnpjSum` |
| `FormValidation.CnpjTest` | sistema-paineis-tv/src/components/ui/FormValidation.tsx:260-297 | the loops decide `CnpjValid` |
| `FormValidation.VerdictsIgnoreNonDigits` | sistema-paineis-tv/src/components/ui/FormValidation.tsx:234 | inserting a non-digit never changes the CPF or CNPJ verdict |
| `FormValidation.PhoneDigits` | sistema-paineis-tv/src/components/ui/FormValidation.tsx:227-230 | an accepted phone has exactly four non-digits |
| `FormValidation.MinLength` | sistema-paineis-tv/src/components/ui/FormValidation.tsx:207-210 | passes exactly when the length is at least the minimum |
| `FormValidation.MaxLength` | sistema-paineis-tv/src/components/ui/FormValidation.tsx:212-215 | passes exactly when the length is at most the maximum |
| `FormValidation.ConfirmPassword` | sistema-paineis-tv/src/components/ui/FormValidation.tsx:222-225 | passes exactly on the original password |
| `FormValidation.RuleRelations` | sistema-paineis-tv/src/components/ui/FormValidation.tsx:311-319 | numeric implies alphanumeric; min and max of n together mean length n |
| `FormValidation.FailedMessagesSpec` | sistema-paineis-tv/src/components/ui/FormValidation.tsx:53-57 | an empty value fails nothing; otherwise each failing rule's message is listed and nothing else |
| `FormValidation.FieldErrorsSpec` | sistema-paineis-tv/src/components/ui/FormValidation.tsx:49-57 | a required blank field leads with the required message |
| `FormValidation.FormField.constructor` | sistema-paineis-tv/src/components/ui/FormValidation.tsx:42 | a field starts with no errors |
| `FormValidation.FormField.Validate` | sistema-paineis-tv/src/components/ui/FormValidation.tsx:46-61 | the errors become `FieldErrors`, and the result is true exactly when there are none |
| `InputMask.ApplyMask` | sistema-paineis-tv/src/components/base/Input.tsx:31-66 | an unknown mask type leaves the value unchanged |
| `InputMask.MaskCpfLayout` | sistema-paineis-tv/src/components/base/Input.tsx:35-40 | the CPF mask writes `000.000.000-00` |
| `InputMask.MaskCnpjLayout` | sistema-paineis-tv/src/components/base/Input.tsx:41-47 | the CNPJ mask writes `00.000.000/0000-00` |
| `InputMask.MaskPhoneLayout` | sistema-paineis-tv/src/components/base/Input.tsx:48-52 | the phone mask writes `(00) 00000-0000` |
| `InputMask.MaskCepLayout` | sistema-paineis-tv/src/components/base/Input.tsx:53-56 | the CEP mask writes `00000-000` |
| `InputMask.MaskStable` | sistema-paineis-tv/src/components/base/Input.tsx:31-66 | a mask keeps the first digits of the value, as many as it has room for, and masking again changes nothing |
| `InputMask.MaskKeepsVerdict` | sistema-paineis-tv/src/components/base/Input.tsx:35-47 | masking a CPF or CNPJ does not change the validation verdict |
| `InputMask.MaskPhoneEleven` | sistema-paineis-tv/src/components/base/Input.tsx:48-52 | with eleven digits or more the mask passes the phone rule |
| `InputMask.MaskPhoneTen` | sistema-paineis-tv/src/components/base/Input.tsx:48-52 | with ten digits the mask fails the phone rule |
| `InputMask.MaskPhoneIntendedOk` | sistema-paineis-tv/src/components/base/Input.tsx:48-52 | the corrected mask passes the phone rule from ten digits on |
| `InputMask.MaskPhoneIntendedDigits` | sistema-paineis-tv/src/components/base/Input.tsx:48-52 | the corrected mask keeps the first eleven digits, and it differs from the written mask only for seven to ten digits |
| `ErrorMessages.Lookup` | sistema-paineis-tv/src/utils/errorMessages.ts:157-164 | finds an entry exactly when the key is in the table |
| `ErrorMessages.ErrorTableKeyed` | sistema-paineis-tv/src/utils/errorMessages.ts:17-116 | each entry's key is its code |
| `ErrorMessages.GetErrorMessageSpec` | sistema-paineis-tv/src/utils/errorMessages.ts:157-164 | a known code gives its entry; otherwise the unknown-error entry, using the fallback text if there is one |
| `ErrorMessages.GetSuccessMessage` | sistema-paineis-tv/src/utils/errorMessages.ts:167-181 | the table entry with the details, or the generic success |
| `ErrorMessages.ExtractErrorCode` | sistema-paineis-tv/src/utils/errorMessages.ts:184-202 | a string is its own code; otherwise the first set one of `response.data.error.code`, `response.data.code` and the error's own `code`, in that order, falling back to `UNKNOWN_ERROR` |
| `ErrorMessages.CategoryTests` | sistema-paineis-tv/src/utils/errorMessages.ts:212-223 | the validation and network tests are exactly membership in their code lists, and they are disjoint |
| `ActionService.StatusOfValidDates` | sistema-paineis-tv/src/services/actionService.ts:169-186 | with both dates, active agrees with the status; pending means before the start, expired means after the end |
| `ActionService.StatusOfInvalidDate` | sistema-paineis-tv/src/services/actionService.ts:169-186 | with a missing date the action is never active, while the status can still say active |
| `ActionService.StatusMonotone` | sistema-paineis-tv/src/services/actionService.ts:178-186 | the status only moves forward in time |
| `ActionService.FilterActionsByStatus` | sistema-paineis-tv/src/services/actionService.ts:189-198 | exactly the actions with that status, each in its place and in the list's order (an ascending choice of positions); none for a missing list |
| `ActionService.StatusFiltersPartition` | sistema-paineis-tv/src/services/actionService.ts:189-192 | the three filters split the list |
| `ActionService.ValidateActionData` | sistema-paineis-tv/src/services/actionService.ts:112-133 | each message appears exactly when its check fails |
| `ActionService.ValidateDatesNeedBoth` | sistema-paineis-tv/src/services/actionService.ts:118-130 | date checks apply only when both dates are given |
| `ActionService.ValidateImageFile` | sistema-paineis-tv/src/services/actionService.ts:135-149 | type and size messages appear exactly when the file breaks those rules |
| `ActionService.ImageSizeLimit` | sistema-paineis-tv/src/services/actionService.ts:138-146 | 11 000 000 bytes pass; one byte over 100 MiB fails |
| `DebouncedSearch.FilterData` | sistema-paineis-tv/src/hooks/useDebouncedSearch.ts:63-89 | a short query keeps everything; otherwise exactly the matching items (custom filter, or some field containing the query), in the data's order |
| `DebouncedSearch.NullFieldsNeverMatch` | sistema-paineis-tv/src/hooks/useDebouncedSearch.ts:77-82 | an item with every field empty never matches |
| `DebouncedSearch.QueryCaseIrrelevant` | sistema-paineis-tv/src/hooks/useDebouncedSearch.ts:68-86 | without case sensitivity the query's case does not matter |
| `DebouncedSearch.SliceTo` | sistema-paineis-tv/src/hooks/useDebouncedSearch.ts:207 | `slice(0, n)` semantics, including negative n |
| `DebouncedSearch.AddToHistorySpec` | sistema-paineis-tv/src/hooks/useDebouncedSearch.ts:200-209 | a query that is not recorded leaves the history unchanged; otherwise it comes first, once, followed by the others in order, and the history has exactly as many entries as `slice(0, maxHistory)` leaves; no repeats are introduced |
| `DebouncedSearch.RemoveFromHistory` | sistema-paineis-tv/src/hooks/useDebouncedSearch.ts:211-213 | the query is gone and every other entry is kept, as often and in the order it was |
| `DebouncedSearch.RemoveAfterAdd` | sistema-paineis-tv/src/hooks/useDebouncedSearch.ts:200-213 | removing after adding equals removing alone |
| `DebouncedSearch.DedupeSpec` | sistema-paineis-tv/src/hooks/useDebouncedSearch.ts:252-261 | the set of suggestions is distinct and holds every value seen |
| `DebouncedSearch.AllSuggestionsTo` | sistema-paineis-tv/src/hooks/useDebouncedSearch.ts:254-264 | every set field of every item whose folded value contains the query is collected |
| `DebouncedSearch.ComputeSuggestions` | sistema-paineis-tv/src/hooks/useDebouncedSearch.ts:246-268 | the loops compute `Suggestions` |
| `DebouncedSearch.SuggestionsSpec` | sistema-paineis-tv/src/hooks/useDebouncedSearch.ts:246-268 | no suggestions for a short query; otherwise they are distinct, within the limit, each comes from a matching field, and every matching field value is suggested unless the list is full |
| `MessageHandling.RequiredSpec` | sistema-paineis-tv/src/hooks/useMessageHandling.ts:175-180 | fails exactly on falsy values and blank strings, and never throws |
| `MessageHandling.FalsyPasses` | sistema-paineis-tv/src/hooks/useMessageHandling.ts:182-223 | every other rule passes a falsy value |
| `MessageHandling.PositiveZero` | sistema-paineis-tv/src/hooks/useMessageHandling.ts:203-208 | the number 0 passes, the string "0" fails, and negatives fail |
| `MessageHandling.RangeSpec` | sistema-paineis-tv/src/hooks/useMessageHandling.ts:210-216 | fails exactly on truthy values outside the range, and never throws |
| `MessageHandling.LengthRules` | sistema-paineis-tv/src/hooks/useMessageHandling.ts:182-194 | min and max of n together pass exactly at length n |
| `MessageHandling.CodeFormatSpec` | sistema-paineis-tv/src/hooks/useMessageHandling.ts:218-223 | passes exactly on ASCII letters and digits and ß, which upper-cases to "SS" |
| `MessageHandling.FirstStop` | sistema-paineis-tv/src/hooks/useMessageHandling.ts:127-136 | the result is a pass or the first stopping verdict |
| `MessageHandling.FirstStopSpec` | sistema-paineis-tv/src/hooks/useMessageHandling.ts:127-136 | passes exactly when no rule stops |
| `MessageHandling.FormValidation.constructor` | sistema-paineis-tv/src/hooks/useMessageHandling.ts:124 | no errors to start with |
| `MessageHandling.FormValidation.ValidateField` | sistema-paineis-tv/src/hooks/useMessageHandling.ts:126-146 | the first message is recorded for the field, a pass clears it, and a throwing rule changes nothing |
| `MessageHandling.FormValidation.ClearFieldError` | sistema-paineis-tv/src/hooks/useMessageHandling.ts:148-154 | only that field's entry is dropped |
| `MessageHandling.FormValidation.ClearAllErrors` | sistema-paineis-tv/src/hooks/useMessageHandling.ts:156-158 | no errors remain |
| `Auth.Level` | sistema-paineis-tv/src/contexts/AuthContext.tsx:7-16 | level 2 exactly for admin, 1 exactly for user or usuario, otherwise 0 |
| `Auth.PermissionBasics` | sistema-paineis-tv/src/contexts/AuthContext.tsx:7-16 | every role permits itself, admin permits everything, and user and usuario are interchangeable |
| `Auth.UnknownRoles` | sistema-paineis-tv/src/contexts/AuthContext.tsx:14-15 | an unknown required role is granted to anyone, and an unknown user role grants only unknown roles |
| `Auth.PermissionPreorder` | sistema-paineis-tv/src/contexts/AuthContext.tsx:7-16 | permission is total and transitive |
| `Auth.AdminOnlyAdmin` | sistema-paineis-tv/src/contexts/AuthContext.tsx:7-16 | only admin has the admin permission |
| `Auth.HasRoleSpec` | sistema-paineis-tv/src/contexts/AuthContext.tsx:151-154 | no user has no role; otherwise the levels are compared |
| `Seqs.FilterPicks` | sistema-paineis-tv/src/services/actionService.ts:191 | `Array.filter` keeps exactly the elements that pass, each at its place and in the input's order |
| `Seqs.SortKeepsTies` | sistema-paineis-tv/src/services/panelService.ts:247 | the sort is stable: elements with the same key keep their input order |
| `Text.PadStart` | sistema-paineis-tv/src/services/butcherService.ts:121 | `padStart` reaches the width and keeps the text as a suffix |

## Left out

- Prices are exact reals or whole cents. Float rounding, `round(..., 2)`, NaN, and the exponent or sign forms of `Decimal` beyond plain numerals are not modelled.
- Character handling is limited to ASCII and Latin-1 case mapping. Unicode decomposition and combining marks are a parameter (`UnicodeTables`). A Unicode `\d` is treated as an ASCII digit.
- The monitor's majority vote on official codes (`BACKEND/app.py:1780-1785`) is not modelled. Its result is passed to the reconciler, which only defaults it (`BACKEND/app.py:1639`) and never reads it, so items keep the code each line gave.
- Reading and splitting the file, the monitor thread, sleeping and `getmtime` are parameters of `Store.Monitor.Tick`. The file is given as its lines, its presence and its modification time.
- The txt-import HTTP route, the 404 replies and the database session are not modelled. Row ids are counters instead of UUIDs.
- Exceptions and rollback are not modelled. This includes the sync's `try/except` around the price comparison.
- `difflib`'s similarity ratio and the butcher-name pattern are parameters (`Oracles`).
- The department keywords are given as a list. Parsing them from JSON or from a comma-separated text (`BACKEND/app.py:2557-2566`) is not modelled.
- The sync is not proved idempotent.
- `getConflictsForPosition` and `getConflictsForProduct` are not modelled: they are plain filters over the conflict list.
- React state, the asynchrony of `setState` and the debounce timers are not modelled. `addSuggestion` and `removeSuggestion` only update React state and are left out.
- The `url` form rule is not modelled, because it depends on the browser's `URL` parser.
- The currency mask depends on `toLocaleString`, which is a parameter of `InputMask.ApplyMask`.
- String lengths count characters, not JavaScript's UTF-16 code units. Lookups of prototype keys such as `"constructor"` in object tables are not modelled.
- `formatErrorForUser`, `createErrorMessage` and `createSuccessMessage` are not modelled. They are thin wrappers over the modelled lookups.
- `formatPrice`, `formatDate`, the media and image URL helpers, and the network methods of the services are not modelled.
- `MessageHandling.FormValidation.ValidateField`: arrays and objects as rule inputs are not modelled. JavaScript's `Number()` string parsing is a parameter.
- `PanelService.GetPanelStats`: the contract does not state the average price. `ProductGrid.StatsAverage` states it.
- `ButcherService.GetProductStats`: the contract does not state the average price. `ProductGrid.StatsAverage` states it.
- `ActionService.ValidateImageFile`: the model follows the code's 100 MiB limit. The message speaks of 10MB, and the type message omits webp and gif.
- `ActionService.StatusOfInvalidDate`: the model follows the code. For an action with a missing or invalid date, `isActionActive` is false while `getActionStatus` can report it active.
- `LineParser.ParseMonitorLine`: the monitor's pattern is 6+3+6+3 digits, so the code is characters 6 to 9 and the price is characters 9 to 15. The model follows the code, not the written description of the format.

## Findings

| source | as written | input that shows it | evidently intended | confidence | as-written member | corrected member |
|---|---|---|---|---|---|---|
| sistema-paineis-tv/src/components/base/Input.tsx:48-52 | the phone mask always puts the hyphen after five digits of the number | the ten digits "1133334444" are masked as "(11) 33334-444", which the phone rule of FormValidation.tsx:227-230 rejects | "(11) 3333-4444", which the phone rule accepts | not executed | `InputMask.MaskPhoneTen` | `InputMask.MaskPhoneIntendedOk` |
