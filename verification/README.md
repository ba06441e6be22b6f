# Verified model of datacontract-cli: breaking changes, and three smaller cores

The project models how datacontract-cli compares two data contracts (Open Data Contract Standard
v3.2.0) and grades every difference, from the pairing of their quality rules to the summary a user
reads. Beside it stand three smaller parts of the program: the columns of custom properties in the
Excel export, fresh names in the SQL and Polars exports, and `${VAR}` references.

## Reading guide

| files | what they model |
|---|---|
| `Keying`, `Pairing`, `PairedChecks`, `PairingConserves`, `Reordering`, `Owners` | keying quality rules, the five-tier greedy pairing and its reasons, what re-keying keeps, reordered lists and whole contracts |
| `Diffs`, `Changelog`, `Places`, `PlainNames` | the diff as a specification; its detail entries and the rolled-up summary; where entries stand, key by key |
| `Breaking`, `NumberProbes`, `Thresholds` | directions; deciding inclusion between infinite sets of numbers by finitely many probes; thresholds |
| `ThresholdKeys`, `LimitMeanings`, `Requirements`, `NamesAndReferences` | what thresholds, limits, flags, types, names, relationships and freshness ask of the data |
| `Raising`, `RaisingInputs` | when grading and the detector raise, and contracts for which they do |
| `Lookups`, `QualityRules`, `Guarantees`, `RuleChecks` | reading ambiguous dotted paths; guarantees, carriers, threshold groups; the checks that rules become |
| `Datasets`, `Arguments`, `MistakenEntries` | what library metrics count in columns and tables; what entries inside `arguments` claim about them |
| `BoundRules`, `BoundGroups`, `BoundEntries` | minimum/maximum and their exclusive partners; the rule that grades their entries |
| `Rules`, `Selection`, `PrimaryKeys`, `Enums` | the other rules, and which of them grades an entry; keys, enums |
| `Runs`, `SilentFlips`, `WholeRules`, `LimitRuns`, `SilentRanges`, `FlagRuns`, `EnumRuns`, `TakenKeys`, `Levels`, `Duality`, `ReversedRuns` | whole runs, from the diff to the final grades: guarantees, thresholds and bounds, flags, enums, who a change breaks, reversal |
| `Detector`, `DetectorTheorems`, `SummaryTheorems`, `Reports` | silencing, prefix index, summary; the report of a whole run |
| `ExcelColumns`, `ExcelTheorems` | inline custom properties: allocating columns and reading rows back |
| `FreshNames`, `SqlView`, `PolarsExport` | names that are not taken yet |
| `Variables`, `References`, `RuntimeVariables` | the scanner for references and their one-pass replacement, and what it means for a text |
| `Wrappers`, `JsonTrees`, `Decimals`, `Paths`, `Counting` | values, trees, numerals, dotted paths, sizes of sets |

Code that works in place is a class or a loop here too (the detector's entries, the worksheet, the
export, the pairing loops); each is proved equal to a specification function or relation, and the
theorems are about that. What Python and its libraries compute (`str()`, numbers and dates in text,
durations, model validation) is a function parameter, `Host`, and pattern matching and rounding in the
database another, `Engine`, so every theorem holds whatever they return (rounding need only keep the order). An
exception is a value (`Raises`, `None`).

## What turned out to need a condition

- Pairing keeps all rules exactly if no rename takes a name another rule needs; the comment at
  `datacontract/changelog/normalize.py:331` claims it always does (`RenamingOntoAUsedNameLosesARule`).
- A reordering of distinguishable rules is invisible exactly if keying keeps the same rules, by name and
  content, in both orders (`InvisibleIffSurvivorsMatch`); so it is if no rule is named like the position of a
  nameless one, such as `[1]` (`PlainReorderingIsInvisible`, `NamedLikeAPositionIsLost`).
- A rule that becomes or stops being a guarantee is reported exactly if the diff sees a difference at the key
  that carries the change (`GuaranteeFlipIsReported`). It need not: validValues [a, b] that become [b, a] beside a
  new mustBe carry the change, and the diff ignores their order (`ReorderedListHidesAGuarantee`). The same holds
  of a threshold that changes (`ThresholdChangeIsReported`): mustBeBetween [1, 5] that becomes [5, 1] accepts
  nothing any more, and the run is empty (`SwappedRangeIsSilent`).
- What is silenced stands below an added or removed element, as long as no name on the way to it continues another
  one beside it after a dot, or is continued by one (`SilencedStandsBelowAnElement`). Otherwise a schema `sales`
  that comes or goes silences everything in `sales.orders` (`DottedSiblingIsSilenced`,
  `DottedSchemaHidesAGuarantee`).
- A change of the allowed values is reported exactly if no rule takes the key of the value for something else
  (`EnumChangeIsReported`, `EnumReportIsExact`). A new value `required` is silent, a new value `pattern` is
  reported as tightening; the keys that are taken are listed (`TakenMeansListed`, `AddedValueIsSilent`,
  `AddedValueIsMistaken`), and a value keyed `properties` is graded as a property (`ValueVerdict`).
- A bound that is updated while its partner is added or removed can hide a loss or a gain; the exact
  condition is `Hides` (`UpdatedGroupIsCovered`, `UpdatedGroupIsReported`, `RaisedBehindALoweredMinimum`).
- The detector raises exactly if the rule that grades some entry meets what it cannot read or compare
  (`DetectorRaises`). Such are: a threshold that is a list or a dict, that is a word beside a number, or that is a
  word and is counted against (`ComparingRaises`, `CountingRaises`); a severity, unit, metric, argument or marker of
  the wrong type in a quality rule (`QualityRaises`; between well-typed rules only limits raise, `OnlyLimitsRaise`);
  options, properties, relationships, enums or a freshness that are no dicts; a duration that cannot be read; an
  infinite limit over integers (`ReplacingRaises`). So a new tag `minimum` raises, as do a mustBe [1] that becomes
  [2] and a flag `primaryKey` outside of a property (`NewTagRaises`, `ListsRaise`, `LoneKeyFlagRaises`).
- A rule is a guarantee exactly if testing the contract makes a check of it that can fail, except that an empty
  query is taken for one and never run (`GuaranteesCanFail`).
- Adding `validValues` to a rule that has a `pattern` is reported as loosening where it tightens
  (`WholeValidValuesAreMistaken`, `NewListIsMistaken`), and more columns in a duplicateValues rule can raise its
  count, since what is counted is how many keys repeat (`KeyColumnsAreMistaken`, `NewKeyColumnIsMistaken`).
- A composite key that is new as a whole is graded as tightening and loosening, though it only tightens, and a
  column that takes the place of a single key column is graded as tightening, though the key moves both ways
  (`JoiningColumnIsExact`).
- A path finds a value exactly if one of its splits leads to it past no null (`LookupFinds`, `NullHidesAValue`); a
  path is filed under itself exactly if it does not start with a dot (`LeadingDotIsLost`); a default may bring a
  new reference (`NestedDefaultLeavesAReference`).

## Model

| member | source | states |
|---|---|---|
| Keying.NormalizeQuality | datacontract/changelog/normalize.py:145-156 | the loop stores each rule under its name or position, the lists inside it keyed too |
| Keying.NormalizeBy | datacontract/changelog/normalize.py:79-83 | the loop over custom properties computes the keyed list that LastItemIsKept and OnlyItemsAreKept describe |
| Keying.NormalizeAuthDefs | datacontract/changelog/normalize.py:93-97 | the same for definitions keyed by URL, id or position |
| Keying.LastItemIsKept | datacontract/changelog/normalize.py:79-97 | under each key a keyed list holds the last item with that key |
| Keying.PositionsAreWritten | datacontract/changelog/normalize.py:307-308 | a key is a position if and only if it is digits, at least one, in square brackets |
| Keying.OnlyItemsAreKept | datacontract/changelog/normalize.py:79-97 | whatever a keyed list holds is the last item with its key |
| Keying.NormalizedLosesClashes | datacontract/changelog/normalize.py:147-155 | keying keeps as many rules as there are if and only if their keys differ; keys stay distinct |
| Keying.NormalizedKeepsEveryRule | datacontract/changelog/normalize.py:147-155 | rules with different keys are all kept, in order |
| Keying.NamedLikeAPositionIsLost | datacontract/changelog/normalize.py:149 | a rule named `[1]` is overwritten by the nameless rule at position 1, and kept in the other order |
| Pairing.MatchInTiers | datacontract/changelog/normalize.py:311-329 | the loops compute a one-to-one matching in which every applicable pair not made lost a rule to an earlier pair, by tier, then position |
| Pairing.GreedyIsUnique | datacontract/changelog/normalize.py:313-329 | that condition determines the matching |
| PairedChecks.TiersAreReasons | datacontract/changelog/normalize.py:321-325 | the tests of the five tiers, said of the rules: a common id, a common name, the same content, the same type, metric, rule, query, engine and implementation, no names |
| PairedChecks.ClaimedRulesArePaired | datacontract/changelog/normalize.py:313-329 | two rules that are related for some reason, to no others for it and to none for a stronger one, are paired |
| PairedChecks.PairsHaveAReason | datacontract/changelog/normalize.py:321-327 | whatever is paired is related for the reason of its tier |
| PairedChecks.PairedChecksAgree | datacontract/changelog/normalize.py:324 | rules paired for what they check agree on the six fields, and are both guarantees or neither if severity, arguments, unit and thresholds agree too |
| PairedChecks.RenamedIffSameCheck | datacontract/changelog/normalize.py:331-346 | one rule on each side, named differently and without ids: stored under the new name with both names put back if and only if they run the same check, else each under its own |
| Pairing.PairQuality | datacontract/changelog/normalize.py:305-346 | the two results are the re-keyed rules of the greedy matching |
| PairingConserves.StoredUnderTheirKeys | datacontract/changelog/normalize.py:333-345 | each result holds exactly the keys assigned to its rules, so it has all rules if and only if no keys clash |
| PairingConserves.PairingConservesRules | datacontract/changelog/normalize.py:331-346 | both versions keep all their rules if and only if no pair takes a name that another rule needs |
| PairingConserves.SharedKeysArePairs | datacontract/changelog/normalize.py:333-345 | then every rule is stored, and the versions share a key exactly for each pair |
| PairingConserves.NamelessLeftOnOneSide | datacontract/changelog/normalize.py:331-332 | unpaired nameless rules remain on at most one side |
| PairingConserves.UnpairedPassNoTest | datacontract/changelog/normalize.py:313-329 | two rules left unpaired fail the test of every tier |
| PairingConserves.FreshIdRenamesAreFree | datacontract/changelog/normalize.py:321-345 | it suffices that the pairs made by id whose names differ use names that the other version does not |
| PairingConserves.KeptNamesLoseNothing | datacontract/changelog/normalize.py:321-345 | if every pair made by id keeps its name, no rule is lost |
| PairingConserves.RenamingOntoAUsedNameLosesARule | datacontract/changelog/normalize.py:333-345 | v1 {id 1 named a; b}, v2 {id 1 named b}: v1's rule b is gone from the result |
| Reordering.ReorderingIsInvisible | datacontract/changelog/normalize.py:145-346 | a list of rules and any permutation of it, keyed and paired, are one and the same dict with all rules |
| Reordering.PairingKeepsBothSides | datacontract/changelog/normalize.py:305-346 | pairing a list with a permutation of it drops nothing that keying kept |
| Reordering.PairedAlikeIffCopies | datacontract/changelog/normalize.py:305-346 | the pairing makes one dict of two keyed versions if and only if the one holds the rules of the other, in some order |
| Reordering.InvisibleIffSurvivorsMatch | datacontract/changelog/normalize.py:145-346 | a reordering of distinguishable rules is invisible if and only if keying keeps the same rules in both orders, by name and content |
| Reordering.PlainReorderingIsInvisible | datacontract/changelog/normalize.py:145-346 | it is invisible if no rule is named like a position |
| Reordering.InvisibleIffKeysDiffer | datacontract/changelog/normalize.py:145-346 | if one of the two lists is keyed without a clash, it is invisible if and only if the other is too; InvisibleIffSurvivorsMatch says the rest |
| Owners.PairOwners | datacontract/changelog/normalize.py:289-302 | rules are paired for every owner that both versions have, at any depth; other owners stay as they are |
| Owners.OnlyRulesChange | datacontract/changelog/normalize.py:289-302 | all owners and all their other fields stay |
| Owners.ReorderedContractsAreEqual | datacontract/changelog/normalize.py:282-302 | a whole contract and a copy with the rules of its owners reordered are one and the same after pairing |
| NumberProbes.ProbesDecideDirection | datacontract/breaking/rules.py:548-565 | for any two predicates that change only at the bounds, the direction over the probes is the true one over all integers, or all reals |
| NumberProbes.ProbesCover | datacontract/breaking/rules.py:550-555 | every number of the domain has a probe on the same side of every bound |
| NumberProbes.ProbesInDomain | datacontract/breaking/rules.py:553-555 | probes are ascending and lie in the domain |
| Thresholds.PassesOnlyChangesAtBounds | datacontract/engines/checks/check_spec.py:69-90 | the verdict of a threshold changes only at its own bounds |
| Thresholds.CompareThresholdsIsExact | datacontract/breaking/rules.py:403-417 | between two numeric thresholds the direction is the true change of the accepted numbers |
| ThresholdKeys.SingleLimitMeans | datacontract/engines/checks/create_checks.py:160-172 | the first key that is set decides, and exactly the numbers pass that its name says |
| ThresholdKeys.PairOfLimitsMeans | datacontract/engines/checks/create_checks.py:173-182 | the same for a pair of limits, ends included |
| ThresholdKeys.NothingToCompareWith | datacontract/engines/checks/create_checks.py:173-183 | without keys, or with any other number of values in the first pair, there is no threshold |
| Thresholds.CountDirectionIsExact | datacontract/breaking/rules.py:529-545 | on counts >= 0: untested if and only if constant, else antitone, monotone and neither are told apart |
| Thresholds.CountDirectionIsInclusion | datacontract/breaking/rules.py:529-545 | if one rule counts at least as many bad rows on every dataset, the direction is the inclusion between the accepted datasets |
| Lookups.LookupIsSound | datacontract/breaking/rules.py:459-472 | a value found is reached by some split of the path into keys |
| Lookups.LookupIsComplete | datacontract/breaking/rules.py:459-472 | if some split reaches a value, one is found |
| Lookups.LookupIsExact | datacontract/breaking/rules.py:459-472 | found if and only if reached, and the value all splits agree on |
| Lookups.LookupFinds | datacontract/breaking/rules.py:459-472 | with nulls too: found if and only if some split leads to a value, and nowhere on the way is the rest of the path a key that holds null |
| Lookups.NullHidesAValue | datacontract/breaking/rules.py:466-467 | with a null in the tree a reachable value is missed |
| QualityRules.CarrierChanged | datacontract/breaking/rules.py:523-526 | there is a carrier if and only if a key changed; it is a changed key, and removed only if all changed keys are |
| Guarantees.GuaranteeReadsDecisiveKeys | datacontract/breaking/rules.py:490-508 | rules that agree on the decisive keys and thresholds are both guarantees or neither |
| Guarantees.FlipIsCarriedOnce | datacontract/breaking/rules.py:379-384 | when guarantee status flips a carrier exists, and exactly the entries under it are graded with the flip, all others untested |
| Guarantees.ThresholdGroupReportsOnce | datacontract/breaking/rules.py:402-417 | between two guarantees the carrier reports the true direction between the thresholds, every other threshold entry is untested |
| Guarantees.NoThresholdChangeWithoutACarrier | datacontract/breaking/rules.py:403-406 | without a carrier the two thresholds are equal |
| RuleChecks.GuaranteesCanFail | datacontract/engines/checks/create_checks.py:955-1083 | a rule is a guarantee if and only if testing the contract makes a check of it that can fail, or its query is set and empty, which is never run |
| RuleChecks.RunnableMetrics | datacontract/engines/checks/create_checks.py:857-890 | no reason is found against a library rule if and only if its metric means something at its level, with what it needs, in a unit that fits |
| RuleChecks.SeveritiesThatWarn | datacontract/engines/checks/severity.py:5-11 | the six severities whose violations only warn |
| RuleChecks.NotesChangeNoCheck | datacontract/breaking/rules.py:345-359 | a changed note leaves the check of a rule as it was |
| RuleChecks.OtherFieldsAreOpen | datacontract/breaking/rules.py:424-427 | between guarantees, other fields are untested if they are notes or the severity, else left open |
| WholeRules.WholeRuleIsReported | datacontract/breaking/rules.py:377-378 | over a whole run, a rule that comes or goes has a final grade at its own path: tightens or loosens if it is a guarantee, else untested |
| Levels.LevelsFollow | datacontract/breaking/detector.py:62-73 | of any grade: an error if both ways, if it tightens for the producer or loosens for the consumer; a warning if left open |
| Levels.GradesShowTheirEntries | datacontract/breaking/detector.py:74-83 | a grade has the path, type and values of its entry |
| Levels.ThresholdLevel | datacontract/breaking/detector.py:62-73 | at the carrier of a threshold, over a whole run: an error for the consumer if and only if some number is accepted after and not before, for the producer the other way round |
| Levels.BoundLevel | datacontract/breaking/detector.py:62-73 | the same at the carrier of a group of bounds |
| Levels.FlipBreaks | datacontract/breaking/detector.py:62-73 | some final grade in a rule whose status flipped is an error if and only if the diff sees the carrier and the rule became a guarantee for the producer, or stopped being one for the consumer |
| Levels.WholeRuleLevel | datacontract/breaking/detector.py:62-73 | a whole guarantee that comes is an error for the producer, one that goes for the consumer |
| Raising.ComparingRaises | datacontract/breaking/rules.py:548-552 | comparing two thresholds raises if and only if a limit is a list or a dict, or a word meets a number or a boolean |
| Raising.ListsAsLimitsRaise | datacontract/breaking/rules.py:550 | a list or a dict as a limit raises whatever it replaces and whatever replaces it |
| Raising.CountingRaises | datacontract/breaking/rules.py:529-552 | counting against a threshold raises if and only if a limit of it is a word, a list or a dict |
| Raising.StatusIsUnknown | datacontract/breaking/rules.py:490-508 | whether a rule is a guarantee cannot be told if and only if its severity is neither text nor unset, or its validated metric or arguments cannot be looked up |
| Raising.QualityRaises | datacontract/breaking/rules.py:361-430 | grading a change in a quality rule raises if and only if the status of a version cannot be told, or between two guarantees a limit cannot be compared or counted against, a unit is not valid where it is read, or metric or markers cannot be read |
| Raising.OnlyLimitsRaise | datacontract/breaking/rules.py:361-430 | between rules whose fields have their types: if and only if a limit cannot be compared or counted against |
| Raising.ReplacingRaises | datacontract/breaking/rules.py:180-213 | replacing a bound by its partner raises if and only if all limits read as numbers, one is infinite or NaN, and the type holds integers |
| Raising.RuleRaises | datacontract/breaking/rules.py:128-429 | where it applies, each of the fourteen rules raises if and only if it meets one of the things listed for it in `Breaks` |
| Raising.DetectorRaises | datacontract/breaking/detector.py:33 | the detector raises if and only if for some entry the rule that grades it does |
| RaisingInputs.TagEntryRaises | datacontract/breaking/rules.py:174-179 | a tag named like a bound that comes or goes is graded by the rule of limits, which raises |
| RaisingInputs.NewTagRaises | datacontract/changelog/changelog.py:117-119 | tags to which such a tag is added: the one item is their diff, and every run over it raises |
| RaisingInputs.ListsRaise | datacontract/breaking/rules.py:550 | mustBe [1] that becomes [2], or a word |
| RaisingInputs.LoneKeyFlagRaises | datacontract/breaking/rules.py:139-149 | `primaryKey: true` that comes where no property stands |
| RaisingInputs.OddPropertiesRaise | datacontract/breaking/rules.py:143-145 | properties that are a list, or of which one is no dict |
| RaisingInputs.OddPropertyRaises | datacontract/breaking/rules.py:190-192 | a property that is no dict raises where a bound replaces its partner if and only if it is the carrier and all limits can be read |
| Guarantees.WordsAmongNumbersRaise | datacontract/breaking/rules.py:550 | a threshold that is a word, replaced by a number or counted against |
| Guarantees.ReorderedArgumentsHideANewThreshold | datacontract/breaking/rules.py:379-384 | the entry of the threshold that made the rule a guarantee is untested whenever `arguments` changed too |
| Datasets.FewerColumnsRepeatToo | datacontract/engines/ibis/ibis_check_execute.py:825-848 | if a key repeats in a table under some columns, one repeats under any fewer of them |
| Datasets.PairsRepeatApart | datacontract/engines/ibis/ibis_check_execute.py:825-848 | tables in which one repeated key splits into any number of repeated keys once a column is added, with PairsRepeatOnce |
| Datasets.PairsRepeatOnce | datacontract/engines/ibis/ibis_check_execute.py:825-848 | the same tables have one repeated key without the column |
| Arguments.MarkerEntriesAreTrue | datacontract/breaking/rules.py:385-401 | markers only added to missingValues or only removed, or the whole block: the direction is the inclusion between the columns that pass before and after |
| Arguments.ValidValueEntriesAreTrue | datacontract/breaking/rules.py:385-401 | valid values only added to a list or only removed from it: the same |
| Arguments.ListChangesAreCovered | datacontract/breaking/rules.py:385-401 | whatever values a list of markers or valid values gains and loses at once: if a column passes no longer, an entry of the list says that the contract tightens, if one passes that did not, that it loosens |
| Arguments.MetricEntryIsTrue | datacontract/breaking/rules.py:418-421 | between nullValues and missingValues, either way, with markers that can be read: the direction is the inclusion between the columns that pass |
| Arguments.WholeValidValuesAreMistaken | datacontract/breaking/rules.py:385-397 | a whole list of valid values added beside a pattern, or removed: a reported tightening or loosening is true if and only if every value that fits the pattern is listed, or the threshold judges any share of bad rows like none |
| Arguments.CountedListsAreMistaken | datacontract/breaking/rules.py:385-397 | for a rule that counts rows: if and only if every value that fits the pattern is listed |
| Arguments.KeyColumnsAreMistaken | datacontract/breaking/rules.py:385-397 | columns added to a duplicateValues rule or removed: a reported tightening or loosening is true if and only if the threshold judges all positive numbers of duplicates alike |
| MistakenEntries.SplitKeyIsReportedAsLoosening | datacontract/breaking/rules.py:395-397 | fewer than two duplicates, then under more columns: reported as loosening although some table that passed fails |
| MistakenEntries.DuplicatesAreMistakable | datacontract/breaking/rules.py:490-508 | such rules exist for any columns, and are guarantees |
| MistakenEntries.NewKeyColumnIsMistaken | datacontract/breaking/rules.py:385-397 | so the entry of any column added to a rule that wants fewer than two duplicates says loosening, which is false |
| MistakenEntries.NewListIsReportedAsLoosening | datacontract/breaking/rules.py:395-397 | a list added beside a pattern, without a value that fits: reported as loosening although some column that passed fails |
| MistakenEntries.ListsAreMistakable | datacontract/breaking/rules.py:490-508 | such rules exist, and are guarantees |
| MistakenEntries.NewListIsMistaken | datacontract/breaking/rules.py:385-397 | so for a pattern that `ab` fits, the entry of a new list that holds only `a` says loosening, which is false |
| Selection.FallbackTakesTheRest | datacontract/breaking/rules.py:452-456 | the fallback grades an entry if and only if every other rule skips it |
| Rules.FreshnessIsExact | datacontract/breaking/rules.py:323-331 | where freshness is checked in both versions, the direction is the true change of the ages that pass |
| NamesAndReferences.FreshnessChangeIsExact | datacontract/breaking/rules.py:304-333 | freshness that comes, goes or moves: the direction is the true change of the ages that pass |
| NamesAndReferences.ElementsAreRead | datacontract/breaking/rules.py:314-319 | freshness is asked of an element `model.field` with one dot, if and only if the model is in the contract |
| NamesAndReferences.MovedFreshnessIsExact | datacontract/breaking/rules.py:323-324 | freshness of another column moves both ways |
| NamesAndReferences.RelationshipIsRead | datacontract/breaking/rules.py:274-281 | an entry belongs to the longest relationship key that fits, read in v2 if v2 has it |
| NamesAndReferences.RelationshipTypeIsExact | datacontract/breaking/rules.py:282-288 | the direction of a changed type is the true change of the data that meets the key while it is checked |
| NamesAndReferences.WholeRelationshipIsExact | datacontract/breaking/rules.py:289-292 | so is that of a whole relationship |
| NamesAndReferences.MovedRelationshipIsExact | datacontract/breaking/rules.py:289-296 | so is that of a changed end |
| NamesAndReferences.PhysicalNameIsExact | datacontract/breaking/rules.py:80-87 | a property is looked for under its physical name or its own: the direction is the true change of the data that has it |
| NamesAndReferences.SchemaNameIsExact | datacontract/breaking/rules.py:80-87 | so is a schema |
| Requirements.RequiredIsExact | datacontract/breaking/rules.py:93-96 | the direction of `required` is the true change of the columns that pass, without nulls or with any |
| Requirements.UniqueIsExact | datacontract/breaking/rules.py:122-125 | that of `unique` and `uniqueItems` the true change of the columns, or arrays, without repeats or with any |
| Requirements.OnIsRead | datacontract/breaking/rules.py:568-574 | how flags that are on are spelled |
| Requirements.OffIsRead | datacontract/breaking/rules.py:568-574 | and flags that are off |
| Requirements.PropertyIsExact | datacontract/breaking/rules.py:66-74 | a property that comes has to be in the data, one that goes need not |
| Requirements.SchemaIsExact | datacontract/breaking/rules.py:52-60 | so does a schema |
| Requirements.TypeIsExact | datacontract/breaking/rules.py:102-116 | the direction of a type is the true change of the columns that have it |
| Requirements.DimensionsAreExact | datacontract/breaking/rules.py:435-449 | so is that of the dimensions of a vector |
| Requirements.ElementTypeIsExact | datacontract/breaking/rules.py:440-443 | and that of its elements, 32-bit floats by default |
| FlagRuns.FlagIsReported | datacontract/breaking/rules.py:93-125 | over a whole run, `required` and `unique` of a column have a final grade if and only if they changed, and its direction is the true change of the columns that pass |
| FlagRuns.FlagLevel | datacontract/breaking/detector.py:62-73 | it is an error for the consumer if and only if some column passes that did not, for the producer if and only if one passes no longer |
| PrimaryKeys.DifferentKeysAdmit | datacontract/engines/checks/create_checks.py:425-449 | of two different keys each admits some table that the other rejects, unless the other is no key |
| PrimaryKeys.JoiningColumnIsExact | datacontract/breaking/rules.py:131-153 | a column that joins a key, whatever else does, gets the true change of the tables that satisfy it: where there was no key, if and only if the new one is single, else if and only if one of the two is composite; and it is graded at all if and only if the properties can be read |
| PrimaryKeys.LeavingColumnIsExact | datacontract/breaking/rules.py:131-153 | a column that leaves a key: the same, where no key is left if and only if the old one was single |
| BoundRules.ReplacedDirectionIsExact | datacontract/breaking/rules.py:180-213 | when partners replace each other the carrier reports the true change of the accepted values |
| LimitMeanings.LimitIsExact | datacontract/breaking/rules.py:214-229 | a limit on values, lengths or items that comes or goes without a partner, or moves: the direction is the true change of the numbers that it admits by its name |
| LimitMeanings.PatternIsExact | datacontract/breaking/rules.py:214-219 | so is that of a pattern that comes or goes |
| LimitMeanings.GroupMeans | datacontract/breaking/rules.py:193-209 | what a group of bounds accepts, by the names of its bounds; those of a date are midnights |
| LimitMeanings.InfinitePartners | datacontract/breaking/rules.py:553-554 | an infinite bound that replaces its partner raises over integers, and is compared over the reals |
| LimitMeanings.DayBefore | datacontract/breaking/rules.py:193-198 | for a date, from day n on is after day n - 1, and replacing the one by the other is untested |
| BoundGroups.ReplacedGroupReportsOnce | datacontract/breaking/rules.py:176-217 | if no bound of a group is merely updated, the carrier reports the true change and the rest are untested |
| BoundGroups.CutsIsExact | datacontract/breaking/rules.py:200-209 | the test for one bound rejecting what another accepts is exact, over integers and reals |
| BoundGroups.UpdatedGroupIsCovered | datacontract/breaking/rules.py:171-230 | with an updated bound the entries report every loss and every gain if and only if the partner's change is not hidden behind it |
| BoundGroups.MovedPairIsCovered | datacontract/breaking/rules.py:220-229 | two bounds that stay report every loss and gain by their own moves |
| BoundGroups.RaisedBehindALoweredMinimum | datacontract/breaking/rules.py:177-229 | minimum 5 to 1 with exclusiveMinimum 10 added: only a loosening is reported although values are lost |
| Enums.EnumEntriesAreExact | datacontract/breaking/rules.py:241-262 | by the enum rule, before silencing, some value entry says a removal if and only if an old value is gone, an addition if and only if one came |
| Enums.SameValuesAreUntested | datacontract/breaking/rules.py:247-262 | changing or swapping ids alone is untested |
| Enums.UpdatedValueIsListed | datacontract/changelog/changelog.py:106-113 | the changelog has an entry for a value changed under its key |
| Enums.AddedOrRemovedValueIsListed | datacontract/changelog/changelog.py:114-116 | the changelog has an entry for the value of an added or removed item |
| Enums.EnumRuleDecides | datacontract/breaking/rules.py:236-265 | before silencing, the entry of a value gets the true direction if and only if its key does not look like a property |
| Enums.ValueVerdict | datacontract/breaking/rules.py:475-476 | it is graded by the enum rule, or by the property rule if its key came or went and its last part is `properties` |
| EnumRuns.SilencedMeansTaken | datacontract/breaking/detector.py:34-44 | the entry of a value is silenced if and only if a rule takes the entry of its item, or of an item whose key it continues after a dot, for something else |
| EnumRuns.EnumChangeIsReported | datacontract/breaking/detector.py:29-84 | over a whole run, the true change of a value is reported after silencing if and only if no rule takes its key for something else |
| EnumRuns.EnumReportIsExact | datacontract/breaking/detector.py:29-84 | over a whole run, the final grades say that values were removed, or added, if and only if they were under a key read as a value, or one came or went that is taken for a property |
| EnumRuns.PlainEnumReportIsExact | datacontract/breaking/detector.py:29-84 | if all keys are read as values, the final grades are exact about the two sets of values |
| TakenKeys.TakenMeansListed | datacontract/breaking/rules.py:77-265 | a key without dots is taken for something else if and only if it came or went and is one of twenty names of constraints and fields |
| TakenKeys.AddedValueIsSilent | datacontract/breaking/detector.py:34-44 | a new value keyed `required`, or like seven other fields: the set grew, and no final grade at or inside the item says anything |
| TakenKeys.AddedValueIsMistaken | datacontract/breaking/rules.py:156-230 | a new value keyed `pattern`, or like seven other constraints: the set grew, and the final grade of the item says that the contract tightens |
| Runs.QualityPathReads | datacontract/breaking/rules.py:362-365 | a path into a rule is split into owner, rule and key as it was joined |
| Runs.RuleEntryIsGraded | datacontract/breaking/rules.py:361-384 | an entry into a rule whose status flipped gets the direction of the flip if it is under the carrier, and untested if not |
| Runs.PlaceOfGrade | datacontract/breaking/detector.py:33 | every graded entry is one of a diff item, and stands at keys that one of the contracts shows |
| Places.InsideMeansBelow | datacontract/breaking/detector.py:43-44 | if on the way along the one or the other no name beside it continues its names after a dot, or is continued by them, a path lies inside the other if and only if its keys extend the other's |
| Places.PathsMeet | datacontract/breaking/detector.py:43-44 | what lies around a place below such a way is above or below its end |
| Runs.SilencedStandsBelowAnElement | datacontract/breaking/detector.py:34-44 | along such a way, whatever is silenced stands below an added or removed element, key by key, that is not silenced |
| Runs.DottedSiblingIsSilenced | datacontract/breaking/detector.py:34-44 | when a schema comes or goes, everything in a schema whose name continues it after a dot is silenced |
| Runs.GuaranteeFlipIsReported | datacontract/breaking/rules.py:361-384 | over a whole run a flipped guarantee is reported by some final grade in the rule if and only if the diff sees a difference at its carrier |
| LimitRuns.ThresholdChangeIsReported | datacontract/breaking/rules.py:402-417 | over a whole run the true change of a threshold between two guarantees is the final grade at the key that carries it if and only if the diff sees a difference there |
| SilentRanges.SwappedRangeIsSilent | datacontract/changelog/changelog.py:20-29 | mustBeBetween [1, 5] that becomes [5, 1], or any such range: the change tightens and has a carrier, and no run has any entry |
| LimitRuns.BoundChangeIsReported | datacontract/breaking/rules.py:171-230 | over a whole run a bound has a final grade, which is not silenced, if and only if it changed, and its direction is what the rule of limits says of it |
| LimitRuns.ReplacedGroupIsReported | datacontract/breaking/rules.py:176-217 | over a whole run: without updated bounds, the final grade at the carrier is the true change and the others are untested |
| LimitRuns.UpdatedGroupIsReported | datacontract/breaking/rules.py:171-230 | over a whole run: with an updated bound, every loss and gain shows in some final grade if and only if nothing hides behind it |
| PlainNames.PlainAreWellNamed | datacontract/breaking/detector.py:43-44 | where no name has a dot, every way is well-named |
| PlainNames.PlainIsUnmistaken | datacontract/breaking/rules.py:379-384 | and nothing is mistaken for the carrier of a flip |
| PlainNames.PlainHoldsRule | datacontract/breaking/rules.py:459-472 | and the path of a rule leads to that rule only |
| SilentFlips.UnseenPlainFlipIsSilent | datacontract/breaking/rules.py:379-384 | in contracts without dots in their names, a flip whose carrier the diff does not see is reported by no final grade |
| SilentFlips.ReorderedListHidesAGuarantee | datacontract/breaking/rules.py:379-384 | in every run of invalidValues with validValues [a, b] against [b, a] and a new mustBe, the rule becomes a guarantee and no final grade reports it |
| SilentFlips.DottedSchemaHidesAGuarantee | datacontract/breaking/detector.py:34-44 | when a schema `a` comes or goes, a flipped guarantee in schema `a.b` is reported by no final grade |
| Duality.RulesApplyAlike | datacontract/breaking/rules.py:49-456 | every rule applies to an entry if and only if it applies to the reversed one |
| Duality.RulesMirror | datacontract/breaking/rules.py:49-153 | rules that treat the versions alike swap tightens and loosens under reversal |
| Duality.ReversalDuality | datacontract/breaking/detector.py:29-73 | consumer grades of v1 to v2 are producer grades of v2 to v1, silencing included, for the reversed entries |
| ReversedRuns.DiffReversed | datacontract/changelog/changelog.py:20-29 | the reversed items are a diff of the versions the other way round |
| ReversedRuns.ReversedRunMirrors | datacontract/breaking/detector.py:29-73 | whatever a run reports of an entry graded by a rule that treats the versions alike, any run of the reversed diff reports mirrored, silencing included |
| Changelog.Expand | datacontract/changelog/changelog.py:79-94 | one entry for each node below an added or removed dict, none twice |
| Changelog.CollectDetails | datacontract/changelog/changelog.py:96-126 | the details are the entries of each item in turn; it fails if and only if some payload is malformed |
| Changelog.SortByPathSorts | datacontract/changelog/changelog.py:128 | sorting orders the entries by path and keeps each as often as it occurs |
| Changelog.PathsAreOrdered | datacontract/changelog/changelog.py:128 | paths are ordered by their first different character, and come before what continues them |
| Changelog.GroupItems | datacontract/changelog/changelog.py:136-163 | the loop computes the groups that GroupsRollUp describes, each listed once |
| Changelog.GroupsRollUp | datacontract/changelog/changelog.py:153-163 | a group exists where some item is shown, with their common type, Updated if they differ |
| Changelog.SummarizeGroups | datacontract/changelog/changelog.py:136-167 | the summary has one change for each group, sorted by path |
| Changelog.BuildChangelog | datacontract/changelog/changelog.py:58-191 | sorted details of all items and the summary of their groups |
| Diffs.DiffExists | datacontract/changelog/changelog.py:20-29 | any two dicts have a diff, so there is something for the theorems about runs to speak of |
| Diffs.DifferenceIsReported | datacontract/changelog/changelog.py:20-29 | at or below any place where the versions differ some diff item reports the difference, at the very place if not both are dicts there |
| Diffs.InnerOrderIsIgnored | datacontract/changelog/changelog.py:20-29 | the order of a list is ignored inside the items of a list, too |
| Diffs.NoDifferenceNoItem | datacontract/changelog/changelog.py:20-29 | at or below a key of two dicts where the diff sees no difference, nothing is reported |
| Detector.ClassifyEntries | datacontract/breaking/detector.py:56-84 | new entries with the grades of the first rule that applies; fails if and only if one cannot be graded |
| Detector.SilenceInsideElements | datacontract/breaking/detector.py:34-44 | exactly the entries inside an added or removed element are silenced in place |
| Detector.IndexEntry | datacontract/breaking/detector.py:46-50 | an entry is filed once for each of its prefixes, other buckets keep what they hold |
| Detector.BuildIndex | datacontract/breaking/detector.py:45-50 | each bucket collects the entries in order |
| Detector.SummarizeAll | datacontract/breaking/detector.py:51-105 | each summary entry takes level, rule and values of the first highest entry in its bucket |
| Detector.Detect | datacontract/breaking/detector.py:29-54 | grades, silencing and summary of a run together |
| DetectorTheorems.SilencingLeavesAWitness | datacontract/breaking/detector.py:34-44 | every silenced path continues the path of an element, which is itself not silenced |
| DetectorTheorems.SilencingIgnoresOrder | datacontract/breaking/detector.py:34-44 | what is silenced does not depend on the order of entries |
| DetectorTheorems.IndexedOnce | datacontract/breaking/detector.py:46-50 | a path is filed under p once if it is p or starts with p and a dot, else never |
| DetectorTheorems.IndexIsExact | datacontract/breaking/detector.py:45-50 | bucket p holds exactly the entries at or inside p, once each and in order |
| DetectorTheorems.LeadingDotIsLost | datacontract/breaking/detector.py:47-50 | a path is filed under itself once if and only if it does not start with a dot |
| DetectorTheorems.SummaryLevelIsHighest | datacontract/breaking/detector.py:86-105 | a summary entry's level is the highest at or inside its path |
| DetectorTheorems.SummaryTellsOfTheFirst | datacontract/breaking/detector.py:86-105 | a summary entry has level, rule and values of the first of the most serious entries at or inside its path |
| DetectorTheorems.SummaryLosesNoGrade | datacontract/breaking/detector.py:51-105 | if every entry is at or inside some summary entry, the summary reaches a level if and only if some entry does |
| SummaryTheorems.EveryDetailIsSummarized | datacontract/changelog/changelog.py:96-163 | every detail lies at or inside some summary change |
| SummaryTheorems.EverySummaryHasADetail | datacontract/changelog/changelog.py:136-167 | every summary change has a detail at or inside it |
| SummaryTheorems.FieldsAreSummarizedWithTheirElement | datacontract/changelog/changelog.py:144-158 | a scalar that came, went or changed is summarized at its parent |
| SummaryTheorems.ElementsAreSummarizedByThemselves | datacontract/changelog/changelog.py:153-158 | a whole element by itself, a text in a list with the list |
| SummaryTheorems.ReplacedDictsAreSummarizedByThemselves | datacontract/changelog/changelog.py:144-158 | so is what became a dict, or was one |
| SummaryTheorems.RunSummaryLosesNoGrade | datacontract/breaking/detector.py:29-105 | from diff to report no grade above info is lost and none is invented |
| Reports.GradeChanges | datacontract/data_contract.py:345-399 | the report holds the final grade of every detail, and its summary shows an error if and only if the change is breaking |
| Reports.ErrorsAreSummarized | datacontract/model/breaking.py:49-51 | the summary shows an error if and only if some final entry is an error |
| FreshNames.FreshName | datacontract/export/sql_exporter.py:218-221 | the loop ends, after at most one more try than names are used, with the first free candidate |
| SqlView.CollectSources | datacontract/export/sql_exporter.py:201-214 | the sources of all properties, each once, in order of first occurrence |
| SqlView.AssignAliases | datacontract/export/sql_exporter.py:215-222 | every source gets the first free alias built on its last segment |
| SqlView.AliasesDiffer | datacontract/export/sql_exporter.py:217-222 | different sources have different aliases |
| SqlView.ToSqlView | datacontract/export/sql_exporter.py:194-240 | columns, sources and aliases of the view |
| SqlView.EntryIsRead | datacontract/export/sql_exporter.py:205-211 | the last part of an entry is a column if and only if it is a name of the property, whatever the case |
| SqlView.ColumnIsRead | datacontract/export/sql_exporter.py:201-213 | what the view selects for a property with one entry |
| SqlView.OneSourceOrNone | datacontract/export/sql_exporter.py:212-213 | a property has a source if and only if all its entries name one and the same |
| SqlView.QualifiersAreBoundOnce | datacontract/export/sql_exporter.py:199-240 | a column is qualified if and only if there are several sources and its property has one; the qualifier is bound once, to that source |
| PolarsExport.Variables | datacontract/export/polars_exporter.py:156-169 | each schema's variable is the first free candidate for its name |
| PolarsExport.NamesAreKept | datacontract/export/polars_exporter.py:156-165 | names that may be assigned to are kept, keywords end in `_`, names that start like none begin with it |
| PolarsExport.VariablesAreDistinct | datacontract/export/polars_exporter.py:156-169 | variables are valid, pairwise distinct, and none is `pl` |
| Variables.MatchIsSound | datacontract/config/variables.py:23 | a match is a well-formed reference at the start of the text |
| Variables.MatchIsComplete | datacontract/config/variables.py:23 | text that starts with a well-formed reference matches exactly that one |
| Variables.ScanReads | datacontract/config/variables.py:170 | the pieces of a text are a leftmost reading of it |
| Variables.ScanIsTheOnlyReading | datacontract/config/variables.py:170 | a leftmost reading is the only one |
| Variables.ResolveSubstitutes | datacontract/config/variables.py:150-170 | the result is the plain text and the values of the references; it fails if and only if some reference is unset or empty without a default |
| References.ResolveApart | datacontract/config/variables.py:150-170 | a text in which every `$` is in a reference is read and resolved apart from what follows it |
| References.NameIsReplaced | datacontract/config/variables.py:161-170 | `${NAME}` in a text becomes the value of the variable; unset or empty, the text cannot be resolved |
| References.DefaultIsReplaced | datacontract/config/variables.py:161-170 | `${NAME:-default}` becomes the value of the variable, or the default if it is unset or empty |
| References.ValueBeforeDefault | datacontract/config/variables.py:161-170 | the same of a reference alone, with and without a default |
| References.NamesAreSpelled | datacontract/config/variables.py:23 | names are made of letters, digits and underscores, and start with no digit |
| Variables.ContainsMeansScanned | datacontract/config/variables.py:145-147 | a text contains a reference if and only if one pass replaces one |
| Variables.OnePassIsEnough | datacontract/config/variables.py:150-170 | if every `$` is in a reference and no replacement has one, no reference is left and resolving again changes nothing |
| Variables.NestedDefaultLeavesAReference | datacontract/config/variables.py:162-170 | `${A:-${B}}` with A unset resolves to `${B}` |
| RuntimeVariables.ResolvesInPlace | datacontract/config/variables.py:270-278 | keys, lengths and other values stay; each text becomes its resolved text |
| RuntimeVariables.FailsAtSomeString | datacontract/config/variables.py:270-278 | resolving fails if and only if some text inside has an unresolved reference |
| ExcelColumns.Export.InlineCustomProperties | datacontract/export/excel_exporter.py:70-86 | the inline pairs are returned, the other named properties appended to the sheet rows |
| ExcelColumns.Export.NamedAreSplit | datacontract/export/excel_exporter.py:73-86 | every named property is written once, inline or in the sheet |
| ExcelColumns.Export.NothingIsLost | datacontract/export/excel_exporter.py:73-86 | inline pairs and sheet rows together give back every named property with all its details |
| ExcelColumns.Export.InlineValuesSurvive | datacontract/export/excel_exporter.py:74-81 | inline stands only what survives a plain cell |
| ExcelColumns.PickColumn | datacontract/export/excel_exporter.py:972-980 | a name goes to its first column, else the first empty one, else a new one |
| ExcelColumns.Worksheet.WritePair | datacontract/export/excel_exporter.py:971-993 | one pair: the sheet after it, and the list of names still agreeing with the header row |
| ExcelColumns.Worksheet.WriteCustom | datacontract/export/excel_exporter.py:964-993 | the sheet after all pairs of a row |
| ExcelColumns.Worksheet.WriteRow | datacontract/export/excel_exporter.py:467-486 | the sheet after standard columns, id and pairs of a row |
| ExcelTheorems.RowsReadBack | datacontract/export/excel_exporter.py:954-993 | after any run of writes names are distinct and reading a row by header gives the value last written under that name |
| ExcelTheorems.NamesNeverMove | datacontract/export/excel_exporter.py:971-981 | a name that has a column keeps it |

## Left out

- DeepDiff and the raw paths it prints: the diff is a specification (`Diffs.IsDiff`), key by key in dicts, without order and repetition in lists, where items may come, go, or change in place.
- The two nested loops over kinds of difference and their items are one loop over items.
- Owners.PairOwners: returns new owners where the source assigns `owner["quality"]` in place, and an owner is always a dict.
- The other `_normalize_*` helpers: relationships, synonyms, context, roles and the like, keyed the same way.
- Order of the keys in the two results of the pairing: they are maps.
- Python's equality of `True` with 1 and of `False` with 0 inside rules; a boolean bound reads as not a number, as the code reads it.
- Infinite numbers, NaN and integers too large for a float inside a contract: numbers are exact and finite, though a text may read as infinite.
- Numbers and dates in text, the order of bounds over the reals if one is infinite or NaN, rounding, durations and model validation: parameters.
- A list argument that is a text or a dict, when a rule is tested: `Datasets` reads it as an empty list.
- Stripping and lower-casing know ASCII only.
- Messages, labels, timestamps and counts in changelogs and reports.
- Rules other than the default list, and the error for an empty list of rules.
- Duality.RulesMirror: where properties are no dicts, grading a key flag may raise in one direction only, since v2 is not looked at if v1 has a composite key; not for quality, validation and relationship rules, which look a type or a carrier up in v2 only; nor for an updated `.enum`, which is graded like a removed one.
- Runs.GuaranteeFlipIsReported: for rule names without dots, and paths with one `.quality.` behind the owner, since the code splits the path there; where no name on the way to the carrier continues another one beside it after a dot, or is continued by one, and no key of the rule is empty. DottedSchemaHidesAGuarantee says what happens otherwise.
- LimitRuns.ThresholdChangeIsReported: along such ways, for limits that are scalars or lists of numbers, since a text in a list has an entry of its own.
- LimitRuns.BoundChangeIsReported: along such ways, for options that both versions have, whose bounds are scalars, and paths that mention no quality rule or relationship.
- EnumRuns.EnumChangeIsReported: along such ways to the enum, for keys in which no other section of the path is mentioned, and items that hold nothing written like the value of another one; keys that continue one another, such as 1 and 1.5, are allowed.
- TakenKeys.TakenMeansListed: for keys without dots; others are taken or not by their last parts.
- RuleChecks.GuaranteesCanFail: for rules that the model takes as a whole, whose metric is no `${VAR}` reference; queries that are refused or hold unset references, custom checks that cannot be found, and rules of array items are reported without being run, whatever their severity.
- WholeRules.WholeRuleIsReported: for a rule that comes to other rules or leaves them; a whole block of rules that comes or goes has entries of its own.
- FlagRuns.FlagIsReported: along such ways, for flags that read as booleans.
- Requirements.TypeIsExact: a column has one type, which is compared as text.
- NamesAndReferences.MovedRelationshipIsExact: keys of one column; a list of columns is graded the same way.
- Raising.DetectorRaises: for thresholds whose limits are set as the operator needs them, as validation leaves them; a pair of limits with a null in it reads as raising.
- ReversedRuns.ReversedRunMirrors: for diffs in which only updates hold a key `old_value`; an added dict with that key reads as an update.
- Enums.EnumEntriesAreExact: what the enum rule says, for keys that do not look like another section of the path; EnumRuns.EnumReportIsExact is about the report.
- Guarantees.ThresholdGroupReportsOnce: over all integers or reals, as the code probes, not only counts from zero on.
- SummaryTheorems.RunSummaryLosesNoGrade: for top-level keys that are not empty and do not start with a dot, as those of a contract are.
- Physical names of key columns: a table has the columns of the contract.
- Checks of array items, row filters, and backends that count repeated keys with nulls: `Datasets` follows the common engine.
- Typed runtime variables, server variables and the walk over model objects.
- SQL text, and databases that ignore case in aliases.
- Styles, merged cells, unsupported notes and text conversion in Excel; a sheet without the group of custom properties.
