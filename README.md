# On-call ("astreinte") planning — a Dafny model

This project models the scheduling core of a small on-call planning web application. People fill in a planning table. Each row is one person on one date and gives a label for each of seven time slots. The labels are `N1`, `N2`, `Backup1`, `Backup2`, `""` or any other string. The application then does the following:

- It counts each person's working cells, in day slots and in night slots separately (the "load counter").
- For every day of a month and every slot, it picks the least-loaded `N1` and the least-loaded `N2` among the rows that carry that label.
- It reports conflicts where more than one row claims the same role.
- It formats the final table.
- It stores weekly plannings and a per-person standard week.
- It tallies working cells per person for the load charts.

The model is organised in these modules:

- `Slots`: the slot catalogue, the day and night buckets, and the working labels.
- `Planning`: the data model.
  - Planning rows and frames, and the standard file.
  - The empty schema table.
  - The concatenation of the stored planning files.
  - The lookup of a person's standard, with the all-empty fallback.
- `Hours`: the load counter.
  - It is an imperative method proved equal to a reference count of working cells per person and bucket.
  - Lemmas show that the count depends only on the multiset of rows and that it adds up over concatenation.
- `Assign`: the per-slot, per-tier assignment.
  - A loop over the tiers fills the result dictionary.
  - It is proved to pick a candidate of minimal load, or `""` when there is no candidate.
- `Sweep`: the monthly sweep.
  - Imperative loops over days and slots build the final table and the conflict list.
  - They are proved equal to functions whose meaning is stated by lemmas: a conflict "if and only if" characterisation, and the cell format.
- `Store`: the table-rewrite rules.
  - Saving a week and saving the standard, as functions with error results.
  - Reading the standard.
  - Pre-filling the week editor.
  - Lemmas cover what a save leaves in the table, idempotence, "other people unchanged" and the save-then-load round trip.
- `Planning` also models the planning loader's file-name pattern. The weekly save writes a file that this pattern does not match; see "## Findings".
- `Charts`: the per-person tally behind the load charts.
  - A loop rewrites the slot columns of a copy of the table in place, one pass per listed slot. A slot listed twice is rewritten twice, and its second pass zeroes the column.
  - The tally is proved equal to the load counter's reference count over the slots listed once. For a list without repetition, that is every listed slot.
  - Over the day and night slots it agrees with the load map.
- `Wrappers`: `Result`.

Representation choices:

- A date is an integer ordinal.
- A table is a sequence of rows.
- A row's slot labels are a map from slot name to label. A slot missing from the map reads as `""`, which is not a working label.
- I/O is replaced by values. A stored file is a value. The standard file is `Missing`, `NoData` (present but unparsable) or `Present(rows)`. The list of days is a parameter.

Where the application's intent and its code differ, the model follows the code:

- Loads count cells, not hours. A two-hour slot and a seven-hour slot each add 1.
- The seven slots leave 14h-15h uncovered, so no 24-hour coverage is stated.
- A conflict counts rows, not distinct persons. A person with two rows carrying `N1` in the same slot is a conflict.
- Loads are computed once from the whole table before the sweep and are not updated as slots are assigned.
- When several candidates have the same minimal load, the model picks the first in row order. The source's sort does not guarantee this tie-break, so it is a choice made here; the minimality of the pick is proved regardless.

## Model

| member | source | states |
|---|---|---|
| Slots.PlagesPartition | utils/planning.py:7 | the catalogue has seven distinct slots; it is the five day slots followed by the two night slots, and the buckets are disjoint with the catalogue as their union |
| Slots.IsNightMatchesBuckets | streamlit_app.py:373 | the night test holds exactly for the slots of the night bucket |
| Slots.ColumnsSchema | utils/planning.py:10-12 | the schema is Date, Jour, Utilisateur followed by the seven slots in order, all distinct |
| Planning.InitDataframe | utils/planning.py:10-12 | a fresh table has no rows and exactly the schema columns |
| Planning.SlotValues | streamlit_app.py:147 | a row's slot dictionary has exactly the seven slots as keys, each holding the row's label |
| Planning.EmptyStandard | utils/planning.py:38 | the fallback dictionary maps every slot, and only the slots, to "" |
| Planning.LoadAllPlannings | utils/planning.py:20-24 | with no planning file the result is the empty schema table |
| Planning.LoadAllPlanningsColumns | utils/planning.py:26 | with at least one file, a column is in the result exactly when some file has it |
| Planning.MergeColumns | utils/planning.py:26 | the merged column list keeps the earlier columns as a prefix and holds exactly the columns of both lists |
| Planning.AllColumnsMembers | utils/planning.py:26 | a column is in the merged list exactly when some file has it |
| Planning.LoadAllPlanningsCount | utils/planning.py:25-26 | the result has as many rows as all files together |
| Planning.LoadAllPlanningsOrder | utils/planning.py:25-26 | row j of file i sits at position (rows of the earlier files) + j of the result, so every file's order is kept |
| Planning.FirstRowOf | utils/planning.py:32-34 | the index found is that of the user's first row, or the length when the user has no row |
| Planning.LoadStandardPlanning | utils/planning.py:29-38 | a missing file, or no row for the user, gives every slot ""; otherwise the slot values of the user's first row; a file without data is the only error |
| Hours.Indicator | streamlit_app.py:197-201 | a cell adds 1 exactly when it holds N1, N2, Backup1 or Backup2, and 0 otherwise |
| Hours.Users | streamlit_app.py:192 | the persons of the table, each once, and exactly those that have a row |
| Hours.RowCellsBound | streamlit_app.py:196-201 | one row adds at most one per slot |
| Hours.SumColumnsIsCellCount | streamlit_app.py:196-201 | adding the column counts slot by slot gives the person's number of working cells |
| Hours.CellCountAbsent | streamlit_app.py:194 | a person without rows counts 0 |
| Hours.CellCountAppend | streamlit_app.py:194-201 | the count over two concatenated tables is the sum of the counts |
| Hours.CellCountPermutation | streamlit_app.py:194-201 | reordering the rows of the table does not change any person's count |
| Hours.SnapshotPermutation | streamlit_app.py:186-203 | the whole load map depends only on the multiset of rows |
| Hours.ComputeUserHours | streamlit_app.py:186-203 | the keys are exactly the persons of the table; each value is the number of that person's working day-slot cells and working night-slot cells |
| Assign.CandidatesMembers | streamlit_app.py:208 | a person is a candidate for a tier exactly when a row of the day is theirs and carries exactly that label in the slot |
| Assign.CandidatesEmpty | streamlit_app.py:208-209 | there is no candidate exactly when no row of the day carries the label |
| Assign.CandidatesSeveral | streamlit_app.py:377-380 | there is more than one candidate exactly when two different rows of the day carry the label, so one person with two such rows counts twice |
| Assign.Loads | streamlit_app.py:210-213 | each candidate's load is taken from the night bucket for a night slot and from the day bucket otherwise; an absent person counts 0 |
| Assign.MinIndex | streamlit_app.py:214 | the index chosen holds a value no greater than any other, and is the first such |
| Assign.Pick | streamlit_app.py:207-215 | "" when there is no candidate; otherwise a candidate whose load is at most every other candidate's |
| Assign.PickIsLeastLoadedRow | streamlit_app.py:207-215 | in terms of the day's rows: "" when none carries the tier; otherwise the person of such a row, with a load no greater than that of any row carrying the tier |
| Assign.AssignPlageFinal | streamlit_app.py:205-216 | the result has exactly the keys N1 and N2, each holding that tier's least-loaded pick |
| Sweep.DayRowsOfMonth | streamlit_app.py:366-370 | restricting to the month and then to a day of it gives the same rows as restricting straight to that day |
| Sweep.FormatCell | streamlit_app.py:384-391 | "N1 a \| N2 b" when both tiers are assigned, "N1 a" or "N2 b" when only one is, "" exactly when neither is |
| Sweep.RoleConflictIff | streamlit_app.py:377-382 | a record for a role in a slot is produced exactly when two different rows of the day carry the role in the slot, and it lists the persons of all such rows in row order, joined by ", " |
| Sweep.DayConflictsMembers | streamlit_app.py:371-382 | a day's records are exactly the records of its slots for N1 and N2 |
| Sweep.MonthConflictsIff | streamlit_app.py:368-382 | a record for (day, slot, role) is in the month's list exactly when the day is a month day, the slot a catalogue slot, the role N1 or N2, and two different rows of that day carry the role in the slot; it then lists those rows' persons |
| Sweep.SweepSlot | streamlit_app.py:372-391 | the slot text is the formatted pair of tier picks, and the records found are the slot's conflicts, N1 before N2 |
| Sweep.SweepDay | streamlit_app.py:369-392 | the day's row holds one text per slot, each the formatted tier picks, and the records found are the day's conflicts in slot order |
| Sweep.MonthlySweep | streamlit_app.py:360-392 | an empty table gives nothing; otherwise there is one final row per month day, each dated that day with every slot's text taken from the loads of the whole table computed once, and the conflicts are those of the month, in day and slot order |
| Store.SaveWeek | streamlit_app.py:271-274 | an empty edit, or one without a Date column, is refused with the empty-planning message, and then nothing is stored |
| Store.SaveWeekContents | streamlit_app.py:277-292 | after a save, the prior rows that are not the user's rows for an edited date are kept in order, followed by the edited rows relabelled to the user; no replaced row remains and every other prior row does |
| Store.KeepMembers | streamlit_app.py:287-288 | a row survives the removal exactly when it was in the table and is not the user's row for an edited date |
| Store.SaveWeekIdempotent | streamlit_app.py:271-292 | saving the same week twice leaves the same table as saving it once |
| Store.SaveWeekOthersUnchanged | streamlit_app.py:287-292 | a save changes neither the rows nor the load of any other person |
| Store.SaveStandard | streamlit_app.py:313-316 | an empty edit, or one without a Date column, is refused with the empty-standard message |
| Store.OtherStd | streamlit_app.py:326 | the rows left after removing the user's template rows belong to other persons |
| Store.SaveStandardContents | streamlit_app.py:318-332 | after a save the user has exactly one template row, holding the first edited row's slot values; every other person's template rows are those of the stored file |
| Store.LoadStandard | streamlit_app.py:139-154 | the result has exactly the seven slots as keys; a missing, unparsable or empty file gives every slot "" |
| Store.LoadStandardAgrees | streamlit_app.py:139-154 | the application's reader and the helper's reader agree on every file the helper can read; on an unparsable file the helper raises and the application falls back to all-empty |
| Store.SaveThenLoadStandard | streamlit_app.py:139-154 | reading the standard back after saving it gives the saved slot values |
| Store.WeekRowsOf | streamlit_app.py:248-251 | the selected rows are the user's, dated on a day of the week |
| Store.WeekRowsMembers | streamlit_app.py:248-251 | a row is selected exactly when it is in the table, is the user's, and is dated on a day of the week |
| Store.WeekRowsAppend | streamlit_app.py:248-251 | selecting from two tables put one after the other gives the two selections in that order, so table order is kept |
| Store.WeekRowsEmpty | streamlit_app.py:254-257 | the editor falls back on the standard exactly when no row of the table is the user's on a day of the week |
| Store.PrefillWeek | streamlit_app.py:248-263 | the editor opens with the user's stored rows of the week when there are any; otherwise with one row per week day, in order, dated that day and carrying the user's standard |
| Store.SaveWeekThenPrefill | streamlit_app.py:248-292 | after saving a week whose dates fall in the week, the user's week rows end with the saved rows |
| Charts.IndicatorColumn | utils/charts.py:10-12 | each cell of a slot column becomes 1 when it holds a working label and 0 otherwise |
| Charts.RewriteColumns | utils/charts.py:8-12 | after the passes, exactly the listed slots that are columns have been rewritten; a slot rewritten once holds its 0/1 indicators and a slot rewritten more than once holds zeros |
| Charts.SingleSlotsMembers | utils/charts.py:10-13 | a slot still counts in the row sum exactly when it is listed and listed at most once |
| Charts.SingleSlotsOfDistinct | utils/charts.py:10-13 | with no slot listed twice, every listed slot still counts |
| Charts.RowTotalIsRowCells | utils/charts.py:13 | a row total is the number of the row's working cells over the slots listed once, at most the number of listed slots |
| Charts.GroupSumIsCellCount | utils/charts.py:14 | summing a person's row totals gives the person's number of working cells |
| Charts.PlotHours | utils/charts.py:5-14 | no chart for an empty table; a requested slot that is not a column makes the row sum fail; otherwise one entry per person, holding their working cells over the slots listed once, which is every listed slot when none is listed twice |
| Charts.CellCountSplit | utils/charts.py:13-14 | the tally over two slot lists put together is the sum of the tallies |
| Planning.SavedWeekNotReloaded | utils/planning.py:20-26 | the file the weekly save writes does not match the loader's pattern, so a directory holding only that file loads as the empty schema table |
| Planning.SavedWeekReloaded | utils/planning.py:20-26 | a loader that also reads the weekly save's file gives back the saved rows, in order, and the saved columns |
| Charts.TallyMatchesLoads | utils/charts.py:13-14 | over the day slots the tally equals the load counter's "jour" value, over the night slots its "nuit" value, and over all seven slots their sum |

## Left out

- Google Drive upload and download, CSV reading and writing, `glob` and directory creation: stored files are values and tables are sequences.
- The web user interface: sidebar, buttons, the data editor, week and month navigation, and the success and error messages. The refusal messages of the two saves are kept as error values.
- The week and month day lists, which come from the calendar and clock: they are parameters.
- The `Jour` column and the `%Y-%m-%d` date text of the final table: a final row carries the date ordinal.
- The bar chart itself and the chart helper that wraps it.
- Charts.PlotHours: every call in the application passes a `filter_role` argument, even when it is None (streamlit_app.py:417), and the tally's signature does not accept one (utils/charts.py:5). So every call fails before it tallies anything, and the helper swallows the error. The application therefore never shows the tally that Charts.PlotHours and Charts.TallyMatchesLoads describe. The model describes the tally as defined, and has no role filter.
- The order of the chart summary: the summary is a map, and the source's `groupby` sorts by name.
- User accounts and password checking (`utils/auth.py`).
- The stored-file exception path of the two saves (catching any exception and showing it): a save either is refused or succeeds.
- Hours.ComputeUserHours: on an empty table the source evaluates a name that is never defined (streamlit_app.py:191) and would fail. The model returns an empty map instead. The sweep never reaches that case because it runs only on a non-empty table.
- Assign.AssignPlageFinal: the source sorts with a sort that is not guaranteed stable, so among equally loaded candidates it does not promise which one comes first. The model fixes the first in row order.
- Planning.LoadStandardPlanning: a standard file without a Utilisateur column, or without a slot column, raises an error in the source. The model has no column list for the standard file and reads a missing slot as "".
- Store.LoadStandard: a present standard file without a Utilisateur column, or without one of the slot columns, raises an error in the source (streamlit_app.py:145, 147), because only the missing-file and empty-file errors are caught. The model reads a missing slot as "" and cannot express a missing Utilisateur column.
- Sweep.MonthlySweep: when the loaded table has no column for one of the seven slots, the source fails when it selects the rows carrying a tier (streamlit_app.py:208, 377-378). The model reads the missing slot as "", so no row carries a tier there and the slot is empty.
- Store.SaveStandard: the source takes the first edited row's slot values and would fail on a missing slot column. The model reads a missing slot as "".
- Planning.LoadAllPlannings: the source's column order for files with different columns is pandas' union order. The model keeps the first file's columns and appends new ones in order of appearance; only column membership is stated.
- Pandas' missing values (NaN) in empty cells: an empty cell is "", which is not a working label either way.
- The rewriting of person names when someone is logged in (streamlit_app.py:245). The whole loaded table is rewritten in place: every name is converted to text, so a missing name becomes "nan", and then trimmed of spaces. The load counter, the sweep and the charts read this rewritten table. The model compares names as given and has no missing name.
- The order in which the directory listing returns the planning files: the model takes the listing order as given.
- Store.SaveWeekThenPrefill: the application never reads back the table the weekly save writes, because the loader's file-name pattern does not match it (see "## Findings"). The lemma holds for the intended behaviour, in which the stored table is the one the editor and the sweep read.
- The in-place relabelling of the caller's edited table by the two saves: the saves are functions and return the new stored table.
- Any weighting of slots by their length and any claim that the slots cover a whole day: the code counts cells, and 14h-15h belongs to no slot.

## Findings

| source | as written | input that shows it | evidently intended | confidence | as-written member | corrected member |
|---|---|---|---|---|---|---|
| streamlit_app.py:295; utils/planning.py:22 | the weekly save writes the whole table to `data/all_plannings.csv`; the loader reads only files matching `data/*_planning.csv`, which that name does not match | a directory that holds only the saved `all_plannings.csv`: the loader returns the empty schema table, and the saved week is lost to the editor and the sweep | the table the weekly save writes is the one the next load reads | medium, not executed | Planning.SavedWeekNotReloaded | Planning.SavedWeekReloaded |
