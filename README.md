# Election anomaly scoring and jurisdiction-file checks, in Dafny

This project models two parts of the electiondata repository and proves properties of them.

**The anomaly pipeline** (`src/election_anomaly/analyze/__init__.py`) covers these steps:
- Look up the children of reporting units (`child_rus_by_id`) and shorten a reporting-unit name to its last component (`short_name`).
- Roll vote counts up to parent reporting units and split them into analysis units: a contest, a reporting-unit type and a count type (`assign_anomaly_score`).
- Within a unit, keep the two leading selections and drop reporting units with 100 votes or fewer. When a unit keeps at least five reporting units, score its vote-share vectors by the z-score of their summed distances (`euclidean_zscore`).
- Compute how many votes would move if the most anomalous pair of rows had the vote split of the next pair (`calculate_margins`, `calculate_votes_at_stake`).
- Report the units whose largest votes at stake are among the `n` largest, with at most eight reporting units per unit (`get_most_anomalous`).

**The jurisdiction-file checks** (`src/electiondata/juris/__init__.py`) are these:
- Convert munger option text to typed values, with warnings (`recast_options`).
- Check the consistency of `ReportingUnit.txt` (`check_ru_file`).
- Check that every value of a dependent column is listed in the file it refers to (`check_dependencies`).
- Find names listed twice (`find_ambiguous_names`).
- Turn a jurisdiction's name into its directory name (`system_name_from_true_name`).
- Remove contentless lines (`remove_empty_lines`).
- Set the order in which template files are created (`ensure_juris_files`).
- Name a party's primary contest (`primary`).

Modules:
- `Seqs`, `Strings` and `Ranking` hold the Python and pandas building blocks:
  - `unique()` (first-appearance order), filtering and slicing with negative bounds;
  - `str.split`, `str.join` and `int()` on text;
  - a descending sort with NaN last and ties kept in input order.
- `Hierarchy`, `ZScore`, `Scoring`, `Stakes` and `Selection` follow the pipeline.
- `Options`, `RuFile`, `Dependencies` and `Juris` follow the jurisdiction file.

A data frame is a sequence of row datatypes, and a NaN cell is `None` where the source can meet one: the grouping columns of the scored input, the pivot cells, the scores, and the cells of the jurisdiction files. The vote counts themselves are integers. Each loop of the source becomes a method with a `while` loop. Its postcondition ties the result to a specification function, and the properties of that function are proved as lemmas.

## Model

| member | source | states |
|---|---|---|
| Hierarchy.ChildColumn | src/election_anomaly/analyze/__init__.py:26 | the child column holds exactly the children of the listed parents |
| Hierarchy.ChildRusById | src/election_anomaly/analyze/__init__.py:19-32 | the children are distinct, each is a child of a listed parent, with a type given each has exactly that type id and other-type text, and every child of a listed parent that has the type is returned |
| Hierarchy.ParentIsOwnChild | src/election_anomaly/analyze/__init__.py:20-22 | when every reporting unit composes itself, a listed parent of the requested type is among the children |
| Hierarchy.ShortNameIsLastComponent | src/election_anomaly/analyze/__init__.py:235-236 | the short name is a suffix of the text that holds no separator and is preceded by a separator unless it is the whole text |
| ZScore.VariancePositive | src/election_anomaly/analyze/__init__.py:539-543 | distance sums that are not all equal have a positive variance, so the standard score is defined |
| ZScore.ZScores | src/election_anomaly/analyze/__init__.py:543 | the standard scores sum to zero, a score is positive exactly when its value is above the mean, and scores are ordered exactly as the values are |
| ZScore.StandardScores | src/election_anomaly/analyze/__init__.py:543 | deviations from the mean divided by any positive spread sum to zero and keep the sign and the order of the values |
| ZScore.EuclideanZScore | src/election_anomaly/analyze/__init__.py:535-543 | one score per vector; all zero when every distance sum is the same; otherwise the scores sum to zero; a vector scores lower than another exactly when its distance sum is smaller |
| ZScore.IdenticalVectorsScoreZero | src/election_anomaly/analyze/__init__.py:539-541 | a population of identical vectors scores zero everywhere |
| Scoring.DropNaKeys | src/election_anomaly/analyze/__init__.py:434-437 | the rows `groupby` sums under its default `dropna=True`: a row is kept exactly when none of its ten grouping cells is NaN, with its group read off those cells |
| Scoring.RollUpDropsNaKeys | src/election_anomaly/analyze/__init__.py:434-437 | every rolled-up group comes from a row whose grouping cells are all filled, every such row has its group, and the groups hold exactly those rows' votes |
| Scoring.RollUp | src/election_anomaly/analyze/__init__.py:434-443 | one rolled-up row per distinct group of the input, every input group present, each carrying the summed count of its group |
| Scoring.RollUpKeepsTotal | src/election_anomaly/analyze/__init__.py:434-437 | rolling up keeps the total vote count |
| Scoring.Units | src/election_anomaly/analyze/__init__.py:448-457 | the analysis units are distinct, every rolled-up row's unit is listed and every listed unit has a row |
| Scoring.Selections | src/election_anomaly/analyze/__init__.py:464 | the distinct selections of the rows |
| Scoring.TotalRows | src/election_anomaly/analyze/__init__.py:467-469 | exactly the `total` rows of the contest at the unit's reporting-unit type |
| Scoring.TopTwoSize | src/election_anomaly/analyze/__init__.py:470-471 | at most two leading selections, exactly two when the contest's totals name at least two |
| Scoring.TopTwoLeads | src/election_anomaly/analyze/__init__.py:470-471 | a leading selection appears in the totals and has a summed total at least that of any selection left out |
| Scoring.Reduce | src/election_anomaly/analyze/__init__.py:461-472 | with more than two selections the analysed rows are exactly the unit's rows of the two leading selections, otherwise exactly all rows of the unit |
| Scoring.Rus | src/election_anomaly/analyze/__init__.py:474-475 | the pivot index: each reporting unit of the rows once |
| Scoring.Cell | src/election_anomaly/analyze/__init__.py:474-475 | a pivot cell is NaN exactly when no row has that reporting unit and selection |
| Scoring.Shares | src/election_anomaly/analyze/__init__.py:484-486 | each share is its cell over the row total; a row with a NaN cell gives all zeros |
| Scoring.SharesSumToOne | src/election_anomaly/analyze/__init__.py:484-485 | the shares of a complete pivot row sum to one |
| Scoring.Kept | src/election_anomaly/analyze/__init__.py:477-478 | the kept reporting units are exactly those whose pivot row sums to more than 100, each once |
| Scoring.KeptScores | src/election_anomaly/analyze/__init__.py:488 | one z-score per kept reporting unit; one unit scores below another exactly when its summed distance to the others is smaller |
| Scoring.ScoreRow | src/election_anomaly/analyze/__init__.py:490-492 | the left merge keeps the row; the row gets a score and a row total exactly when its reporting unit was kept, the score being the z-score at that reporting unit's position among the kept ones and the total its pivot row sum |
| Scoring.UnitOutput | src/election_anomaly/analyze/__init__.py:479-493 | a unit with fewer than five kept reporting units contributes nothing, otherwise one row per analysed row |
| Scoring.ScoreBlockAt | src/election_anomaly/analyze/__init__.py:490-492 | a merged row is the analysed row at its position, scored exactly when its reporting unit was kept, with that reporting unit's z-score |
| Scoring.UnitOutputAt | src/election_anomaly/analyze/__init__.py:479-492 | an output row of a unit comes from a unit with at least five kept reporting units, is the analysed row at its position, and a scored one carries its reporting unit's z-score |
| Scoring.UnitOutputRow | src/election_anomaly/analyze/__init__.py:460-493 | an output row of unit `k` is a rolled-up row of that unit, among the two leading selections when the unit has more, scored exactly when its reporting unit has more than 100 votes, and then with the z-score of that reporting unit's vote shares |
| Scoring.ScoresFollowDistances | src/election_anomaly/analyze/__init__.py:484-492 | of two scored rows of a unit, one scores lower exactly when its reporting unit's share vector has the smaller summed distance to the others |
| Scoring.Blocks | src/election_anomaly/analyze/__init__.py:460-493 | block `k` is the output of unit `k` |
| Scoring.AnomalyScoreRow | src/election_anomaly/analyze/__init__.py:424-494 | every row of the result belongs to a scored unit and obeys its thresholds (five kept reporting units, two leading selections, more than 100 votes for a score), and a scored row carries the z-score of its reporting unit within its unit |
| Scoring.ScoreUnits | src/election_anomaly/analyze/__init__.py:458-494 | the loop's accumulator ends as the concatenation of every unit's block, in unit order |
| Scoring.AssignAnomalyScore | src/election_anomaly/analyze/__init__.py:424-494 | the method returns the specified scores of the rolled-up data, the rows with a NaN grouping cell dropped |
| Stakes.CalculateMargins | src/election_anomaly/analyze/__init__.py:575-576 | the data comes back unchanged, with no `margins` column |
| Stakes.FirstCount | src/election_anomaly/analyze/__init__.py:604-609 | a candidate's count is missing exactly when no row has the candidate, otherwise it is the count of one of its rows |
| Stakes.NextPairAsWritten | src/election_anomaly/analyze/__init__.py:595-599 | at most two rows, all on the far side of the first anomalous score |
| Stakes.NextPair | src/election_anomaly/analyze/__init__.py:595-599 | at most two rows, all on the far side of the first anomalous score |
| Stakes.NextPairIsNearest | src/election_anomaly/analyze/__init__.py:595-599 | in a score-sorted unit, the corrected next pair is nearest to the first anomalous score on its side |
| Stakes.NextPairAsWrittenIsFarthest | src/election_anomaly/analyze/__init__.py:598-599 | for a negative first anomalous score, the code as written picks the two highest scores, not the two nearest |
| Stakes.Stake | src/election_anomaly/analyze/__init__.py:600-612 | the computation fails exactly when there is no margin divisor, the next pair has no votes or one of the anomalous candidates is missing from it; otherwise the value is non-negative |
| Stakes.AnomalousPair | src/election_anomaly/analyze/__init__.py:588-591 | two rows of the unit |
| Stakes.AnomalousPairLeads | src/election_anomaly/analyze/__init__.py:588-591 | no scored row left out of the anomalous pair has a larger absolute score than a row of the pair |
| Stakes.UnitVotes | src/election_anomaly/analyze/__init__.py:586-614 | a unit's value is non-negative; it is 0 when there is no margin divisor, when the next pair has no votes, or when a candidate of the anomalous pair is missing from the next pair; otherwise it is the computed votes at stake |
| Stakes.UnitStakes | src/election_anomaly/analyze/__init__.py:585-616 | a unit of at most two rows keeps its rows with value 0; a larger unit is reordered by score, largest first, as a permutation, and every row carries the unit's value; every value is non-negative |
| Stakes.UnitIds | src/election_anomaly/analyze/__init__.py:583 | the unit ids, each once, exactly those of the rows |
| Stakes.RowsOf | src/election_anomaly/analyze/__init__.py:585 | exactly the rows of one unit |
| Stakes.StakeBlocks | src/election_anomaly/analyze/__init__.py:584-617 | block `k` is the valued rows of unit `k` |
| Stakes.VotesAtStakeRow | src/election_anomaly/analyze/__init__.py:579-618 | every output row is an input row with a non-negative value: zero for a unit of at most two rows or without a margin divisor, otherwise the unit's value, with its failure cases |
| Stakes.AsWrittenVotesAlwaysZero | src/election_anomaly/analyze/__init__.py:612-614 | with the margins column missing, every votes-at-stake value is 0 |
| Stakes.CalculateVotesAtStake | src/election_anomaly/analyze/__init__.py:579-618 | the loop returns the specified votes at stake for a positive margin divisor and the nearest next pair |
| Selection.NoZeros | src/election_anomaly/analyze/__init__.py:501-507 | a row is kept exactly when its cell's summed count is not zero |
| Selection.NoZerosIdempotent | src/election_anomaly/analyze/__init__.py:501-507 | the filter keeps each non-zero cell's sum, zeroes the others, and a second filter changes nothing |
| Selection.StakedUnits | src/election_anomaly/analyze/__init__.py:519 | the units of the rows, each once |
| Selection.UnitMax | src/election_anomaly/analyze/__init__.py:510 | a unit's maximum is missing exactly when it has no row, otherwise it is the value of one of its rows and at least the value of each |
| Selection.Maxima | src/election_anomaly/analyze/__init__.py:510-511 | the maximum of every unit, in unit order |
| Selection.TopScores | src/election_anomaly/analyze/__init__.py:513-514 | the top scores are unit maxima |
| Selection.Chosen | src/election_anomaly/analyze/__init__.py:515 | the chosen rows are input rows |
| Selection.ChosenRow | src/election_anomaly/analyze/__init__.py:501-515 | a row is chosen exactly when its cell has votes and fewer distinct unit maxima than `n` allows are larger than its unit's maximum |
| Selection.FirstRus | src/election_anomaly/analyze/__init__.py:527-528 | at most eight distinct reporting units, each one of the unit's |
| Selection.UnitBlockSpec | src/election_anomaly/analyze/__init__.py:522-530 | a unit's block is sorted by reporting unit and score, largest first, and is a permutation of the unit's rows in its first eight reporting units |
| Selection.SelectionBlocks | src/election_anomaly/analyze/__init__.py:519-532 | block `k` is the block of the `k`-th unit |
| Selection.MostAnomalousRow | src/election_anomaly/analyze/__init__.py:497-533 | a row is reported exactly when it is chosen and its reporting unit is among the first eight of its unit |
| Selection.ReportedIsChosen | src/election_anomaly/analyze/__init__.py:519-532 | a reported row is chosen and in one of the first eight reporting units of its unit |
| Selection.ChosenIsReported | src/election_anomaly/analyze/__init__.py:519-532 | a chosen row in one of the first eight reporting units of its unit is reported |
| Selection.AtMostEightRus | src/election_anomaly/analyze/__init__.py:526-528 | no unit reports more than eight reporting units |
| Selection.GetMostAnomalous | src/election_anomaly/analyze/__init__.py:497-533 | the method returns the specified report |
| Seqs.ConcatMap | src/election_anomaly/analyze/__init__.py:519-532 | the accumulator loop ends as the concatenation of the blocks of every key, in order |
| Seqs.Distinct | src/election_anomaly/analyze/__init__.py:519 | `unique()`: each element once, exactly the elements of the input |
| Ranking.SortDesc | src/election_anomaly/analyze/__init__.py:528-529 | the result is sorted, largest first, NaN last, and is a permutation of the input |
| Ranking.SortedSet | src/election_anomaly/analyze/__init__.py:513 | `sorted(set(...), reverse=True)`: distinct, strictly descending, exactly the input values |
| Ranking.TopRank | src/election_anomaly/analyze/__init__.py:513-514 | a value is in the first `n` of the sorted set exactly when fewer than `n` distinct values exceed it (negative `n` counting from the end) |
| Options.ParseAll | src/electiondata/juris/__init__.py:42 | every part is an integer exactly when the list parses, and then the list holds their values |
| Options.Step | src/electiondata/juris/__init__.py:28-87 | a conversion step keeps every key and adds at most one warning to the end |
| Options.Recast | src/electiondata/juris/__init__.py:27-88 | the conversion keeps every key |
| Options.Lift | src/electiondata/juris/__init__.py:20-22 | the options start as their text values |
| Options.FalsyUnchanged | src/electiondata/juris/__init__.py:28 | an empty value is left as it is, whatever its type |
| Options.StrTypeUnchanged | src/electiondata/juris/__init__.py:51-54 | a `str` option is never changed |
| Options.StepFrame | src/electiondata/juris/__init__.py:28-87 | a step changes no key but its own, except that `count_location` may set one of the two list options |
| Options.IntRoundTrip | src/electiondata/juris/__init__.py:29-31 | an integer's text becomes that integer, with no warning |
| Options.IntFailure | src/electiondata/juris/__init__.py:32-39 | text that is not an integer becomes None with a "not integer" warning |
| Options.Rendered | src/electiondata/juris/__init__.py:42 | the text of each integer, in order |
| Options.NoCommaInInt | src/electiondata/juris/__init__.py:42 | an integer's text holds no comma |
| Options.IntsTextParses | src/electiondata/juris/__init__.py:42 | comma-joined integers split and parse back to the same list |
| Options.IntListRoundTrip | src/electiondata/juris/__init__.py:40-42 | comma-joined integers become that list, with no warning |
| Options.IntListFailure | src/electiondata/juris/__init__.py:43-50 | a list with a part that is not an integer becomes the empty list with a warning |
| Options.StrListSplit | src/electiondata/juris/__init__.py:55-58 | a string list is split on commas with no warning, and joining the parts gives back the text |
| Options.TaggedText | src/electiondata/juris/__init__.py:78-85 | the tag before the colon and the text after it are read back exactly |
| Options.CountLocationByName | src/electiondata/juris/__init__.py:78-82 | `by_name:f1,f2` sets the field-name list and leaves `by_name` |
| Options.CountLocationByNumber | src/electiondata/juris/__init__.py:83-87 | `by_number:` with integers sets the column-number list and leaves `by_number`; any part that is not an integer ends the call |
| Options.CountLocationNested | src/electiondata/juris/__init__.py:75-77 | for xml and nested json files `count_location` is left as it is |
| Options.RecastStops | src/electiondata/juris/__init__.py:83-87 | once a step fails uncaught, the whole conversion fails |
| Options.RecastFrame | src/electiondata/juris/__init__.py:26-88 | options outside the converted keys are unchanged, apart from the two list options |
| Options.RecastWarnings | src/electiondata/juris/__init__.py:26-88 | warnings are only appended, at most one per key |
| Options.RecastOptions | src/electiondata/juris/__init__.py:20-88 | the loop over the keys present in both tables gives the specified conversion |
| RuFile.ParentIsPrefix | src/electiondata/juris/__init__.py:330-333 | the parents of a name are exactly the texts that stand before one of its separators |
| RuFile.LeadingIsFirstComponent | src/electiondata/juris/__init__.py:330-334 | the leading component is the text before the first separator, and holds none |
| RuFile.AllParents | src/electiondata/juris/__init__.py:329-333 | the gathered parents are exactly the parents of some name |
| RuFile.AllLeadings | src/electiondata/juris/__init__.py:329-334 | the gathered leading components are exactly those of some name |
| RuFile.MissingParentReported | src/electiondata/juris/__init__.py:336-347 | a parent is reported missing exactly when it stands before a separator of some name and is not itself listed |
| RuFile.BadLeadingReported | src/electiondata/juris/__init__.py:348-359 | a leading component is reported exactly when it differs from the jurisdiction's name |
| RuFile.DuplicateReported | src/electiondata/juris/__init__.py:360-371 | a name is reported as duplicated exactly when more than one of its rows has a type |
| RuFile.Filled | src/electiondata/juris/__init__.py:329-330 | the rows are available exactly when no Name cell is empty, and then row by row carry the line's name and type |
| RuFile.CheckRuLines | src/electiondata/juris/__init__.py:322-372 | no result (the AttributeError of line 330) exactly when some Name is empty, otherwise the errors of the filled rows |
| RuFile.CheckRuFile | src/electiondata/juris/__init__.py:322-372 | the loop gathers the parents and the leading components, stops at the first empty Name, and returns the specified errors |
| Dependencies.Missing | src/electiondata/juris/__init__.py:518 | the missing values are exactly the column's values not listed in the target, each once |
| Dependencies.TargetNames | src/electiondata/juris/__init__.py:487-504 | the jurisdiction's own target file is used when it exists, else the shared one; none when neither exists |
| Dependencies.Dependent | src/electiondata/juris/__init__.py:471 | exactly the columns that refer to another file |
| Dependencies.ColumnRule | src/electiondata/juris/__init__.py:518-535 | all values listed: no change; only the empty value missing: a null error except for PrimaryParty; otherwise element and target marked changed and the unlisted values reported |
| Dependencies.MissingTargetStops | src/electiondata/juris/__init__.py:496-504 | a target file missing everywhere stops the check with that error |
| Dependencies.ChangedAreElementOrTargets | src/electiondata/juris/__init__.py:527-528 | only the element and the files it refers to are marked changed |
| Dependencies.AllListedNoErrors | src/electiondata/juris/__init__.py:518-537 | when every target exists and lists every value, nothing is reported or changed |
| Dependencies.CheckDependencies | src/electiondata/juris/__init__.py:450-537 | the loop over the dependent columns returns the specified changed set and errors |
| Juris.SystemName | src/electiondata/juris/__init__.py:631-633 | same length; every space becomes a hyphen and every other character is kept, so no space remains |
| Juris.TrueName | src/electiondata/juris/__init__.py:173 | same length; every hyphen becomes a space and every other character is kept, so no hyphen remains |
| Juris.NameRoundTrips | src/electiondata/juris/__init__.py:173 | the directory name and the true name convert into each other on names without the other's character |
| Juris.Present | src/electiondata/juris/__init__.py:314-317 | the names of the column, NaN left out |
| Juris.AmbiguousNames | src/electiondata/juris/__init__.py:311-319 | each ambiguous name once |
| Juris.AmbiguousIff | src/electiondata/juris/__init__.py:314-318 | a name is reported exactly when more than one row holds it |
| Juris.RemoveEmptyLines | src/electiondata/juris/__init__.py:812-821 | a line is kept exactly when it has a cell other than "" and `""`, and for the dictionary also a non-empty cell after the first |
| Juris.RemoveEmptyLinesKeepsOrder | src/electiondata/juris/__init__.py:812-821 | the kept lines are the input lines at increasing positions, and every line that passes the masks is among them |
| Juris.RemoveEmptyLinesIdempotent | src/electiondata/juris/__init__.py:812-821 | removing contentless lines twice removes nothing more |
| Juris.TemplateNames | src/electiondata/juris/__init__.py:192 | `name.txt` becomes `name` |
| Juris.OrderTemplates | src/electiondata/juris/__init__.py:194-196 | the four fixed templates come first in their order; the other templates follow, none of them one of the four |
| Juris.OrderTemplatesKeepsOrder | src/electiondata/juris/__init__.py:196 | the templates after the first four are the listed names that are not among the four, each of them, in the listing's order |
| Juris.OrderTemplatesNoDups | src/electiondata/juris/__init__.py:194-196 | no template is created twice when the listing names each once |
| Juris.Primary | src/electiondata/juris/__init__.py:787-792 | no name exactly when the row lacks the contest field |
| Juris.PrimaryRoundTrip | src/electiondata/juris/__init__.py:787-792 | the contest and the party are read back off `<contest> (<party>)` |
| Strings.ParseIntToString | src/electiondata/juris/__init__.py:31 | `int()` reads back an integer's text |
| Strings.JoinSplit | src/electiondata/juris/__init__.py:330 | joining the parts of a split with the same separator gives back the text |

## Left out

- Database and file I/O are not modelled: reading the composition and ReportingUnit tables, reading jurisdiction files and listing directories. Their contents are parameters (sequences, maps and `Option` for a file that may be missing).
- Error dictionaries and message texts are not modelled. Errors are datatypes that carry the offending names. The reverse-sorted message lists of `check_ru_file` are sets.
- Scoring.AnomalyScores: the testing filter `Contest_Id == 14949` is not modelled; every analysis unit is scored.
- Scoring.RollUp: groups come in first-appearance order, not in pandas' sorted-key order. Unit ids are positions in that order.
- Scoring.RollUp: a NaN Count, which `sum()` would skip, is not modelled; counts are integers. Rows with a NaN grouping cell are modelled, by Scoring.DropNaKeys.
- Scoring.Rus: pivot rows are in first-appearance order, not sorted by reporting-unit id. Each score belongs to its own reporting unit either way.
- Scoring.Cells: pivot columns are in first-appearance order, not alphabetical. The Euclidean distance does not depend on column order.
- Ranking.SortDesc: ties are kept in input order. pandas' single-column sort does not promise a stable order.
- ZScore.EuclideanZScore: the Euclidean distance and the square root are parameters (floating-point library code). Arithmetic is on exact reals.
- `density_score` is not modelled; the source does not call it.
- Stakes.Stake: `int()` truncation of the summed counts is not modelled; counts are integers already.
- Stakes.CalculateVotesAtStake: the margin divisor is a parameter. An input with no rows gives no rows. The source raises KeyError at line 583 when that input is the column-less empty frame `assign_anomaly_score` returns when no unit is scored (lines 458, 494). A row sequence does not record which columns a frame has, so that failure is not modelled.
- Selection.GetMostAnomalous: an input with no rows gives no rows. The source raises KeyError at line 501 when that input is the column-less empty frame `calculate_votes_at_stake` returns for empty input (line 580). That failure is not modelled, for the same reason.
- Options.RecastOptions: the key order of the Python set `keys` is a parameter. The dictionary updated in place is modelled as a returned map.
- Strings.ParseInt: does not accept `_` digit separators or non-ASCII digits. The white space stripped around the digits is the set written out in Strings.IsSpace: the ASCII controls 9-13 and 28-31, the space, and the Unicode spaces and separators that Python's `str.isspace` accepts.
- Selection.Chosen: the inner merges are modelled as order-preserving filters.
- Juris.RemoveEmptyLines: a NaN cell is `None` and counts as content, since NaN differs from "".
- Juris.AmbiguousNames: a NaN name is never reported, since NaN equals nothing.
- RuFile.CheckRuFile: the input is the lines of an existing ReportingUnit.txt. A missing file (a frame without columns, on which `groupby(["Name"])` at line 361 raises KeyError) is not modelled.
- Dependencies.CheckDependencies: the changed elements come back as a set also when the element file is missing, where the source returns an empty list.
- The other functions of the two files are not modelled: plotting, roll-up queries, database loading, munger checks and writing files.

## Findings

| source | as written | input that shows it | evidently intended | confidence | as-written member | corrected member |
|---|---|---|---|---|---|---|
| src/election_anomaly/analyze/__init__.py:575-576, 612 | `calculate_margins` returns its input, so `temp_df.iloc[0].margins` raises and the bare `except` sets every votes-at-stake value to 0 | any unit of more than two scored rows | a positive margin divisor per unit, giving `margin / divisor` | not executed | Stakes.AsWrittenVotesAlwaysZero | Stakes.CalculateVotesAtStake |
| src/election_anomaly/analyze/__init__.py:598-599 | for a negative first anomalous score, `temp_df[score > a0][0:2]` on a score-descending frame takes the two highest scores | scores 1.5, 1.0, -1.0, -2.0 with anomalous score -2.0 give 1.5 and 1.0 | the two scores nearest above `a0` (here 1.0 and -1.0), mirroring the positive side | not executed | Stakes.NextPairAsWrittenIsFarthest | Stakes.NextPairIsNearest |
