/** Planning tables: the row and frame data model, the empty schema, the
    concatenation of the per-person planning files and the lookup of a person's
    standard (template) week. */
module Planning {
  import opened Slots
  import opened Wrappers

  /** One planning row: a date (an ordinal day number), the person it belongs
      to, and the label written in each slot column. A slot the row has no
      value for is read as the empty label. */
  datatype Row = Row(date: int, user: string, cells: map<string, string>)

  /** A table together with its column names. */
  datatype Frame = Frame(columns: seq<string>, rows: seq<Row>)

  /** One row of the standard file: a person and the label per slot. */
  datatype StdRow = StdRow(user: string, cells: map<string, string>)

  /** The standard file as the loader finds it: absent, present but without
      any content to parse, or parsed into rows. */
  datatype StdFile = Missing | NoData | Present(rows: seq<StdRow>)

  /** The label in slot `p` of a cell map, the empty label when absent. */
  function Label(cells: map<string, string>, p: string): string {
    if p in cells then cells[p] else ""
  }

  function Cell(r: Row, p: string): string {
    Label(r.cells, p)
  }

  /** The slot values of a row restricted to the catalogue, as a dictionary
      keyed by slot. */
  function SlotValues(cells: map<string, string>): (m: map<string, string>)
    ensures m.Keys == set p | p in Plages
    ensures forall p :: p in Plages ==> m[p] == Label(cells, p)
  {
    map p | p in Plages :: Label(cells, p)
  }

  /** The all-empty standard: every slot maps to "". */
  function EmptyStandard(): (m: map<string, string>)
    ensures m.Keys == set p | p in Plages
    ensures forall p :: p in Plages ==> m[p] == ""
  {
    map p | p in Plages :: ""
  }

  /** A fresh planning table: no rows, and the schema columns. */
  function InitDataframe(): (f: Frame)
    ensures f.rows == []
    ensures f.columns == ["Date", "Jour", "Utilisateur"] + Plages
  {
    Frame(Columns, [])
  }

  /** The rows of all files, file after file. */
  function ConcatRows(files: seq<Frame>): seq<Row> {
    if files == [] then [] else files[0].rows + ConcatRows(files[1..])
  }

  /** The total number of rows in all files. */
  function RowCount(files: seq<Frame>): nat {
    if files == [] then 0 else |files[0].rows| + RowCount(files[1..])
  }

  /** The columns of `acc` followed by those of `cols` it does not yet have, in
      order of first appearance. */
  function MergeColumns(acc: seq<string>, cols: seq<string>): (r: seq<string>)
    ensures |acc| <= |r| && r[..|acc|] == acc
    ensures forall c :: c in r <==> c in acc || c in cols
    decreases |cols|
  {
    if cols == [] then acc
    else MergeColumns(if cols[0] in acc then acc else acc + [cols[0]], cols[1..])
  }

  function AllColumns(files: seq<Frame>): seq<string> {
    if files == [] then [] else MergeColumns(AllColumns(files[..|files| - 1]), files[|files| - 1].columns)
  }

  /** With no planning file the result is the empty schema table; otherwise the
      files' rows are concatenated (the original row index is dropped) and the
      columns are the union of the files' columns in order of appearance. */
  function LoadAllPlannings(files: seq<Frame>): (f: Frame)
    ensures files == [] ==> f == InitDataframe()
  {
    if files == [] then InitDataframe() else Frame(AllColumns(files), ConcatRows(files))
  }

  /** With at least one file, a column is in the result exactly when some file has it. */
  lemma LoadAllPlanningsColumns(files: seq<Frame>, c: string)
    requires files != []
    ensures c in LoadAllPlannings(files).columns <==> exists i :: 0 <= i < |files| && c in files[i].columns
  {
    AllColumnsMembers(files, c);
  }

  lemma {:induction false} AllColumnsMembers(files: seq<Frame>, c: string)
    ensures c in AllColumns(files) <==> exists i :: 0 <= i < |files| && c in files[i].columns
    decreases |files|
  {
    if files != [] {
      var init := files[..|files| - 1];
      AllColumnsMembers(init, c);
      AllColumnsSnoc(files, c);
      SomeFileSnoc(files, init, c);
    }
  }

  lemma AllColumnsSnoc(files: seq<Frame>, c: string)
    requires files != []
    ensures c in AllColumns(files) <==> c in AllColumns(files[..|files| - 1]) || c in files[|files| - 1].columns
  {
  }

  lemma SomeFileSnoc(files: seq<Frame>, init: seq<Frame>, c: string)
    requires files != [] && init == files[..|files| - 1]
    ensures (exists i :: 0 <= i < |files| && c in files[i].columns) <==>
              (exists i :: 0 <= i < |init| && c in init[i].columns) || c in files[|files| - 1].columns
  {
    if exists i :: 0 <= i < |files| && c in files[i].columns {
      var i :| 0 <= i < |files| && c in files[i].columns;
      if i < |init| {
        assert init[i] == files[i];
      }
    }
    if exists i :: 0 <= i < |init| && c in init[i].columns {
      var i :| 0 <= i < |init| && c in init[i].columns;
      assert files[i] == init[i];
    }
  }

  /** The concatenated table has as many rows as all files together. */
  lemma {:induction false} LoadAllPlanningsCount(files: seq<Frame>)
    ensures |LoadAllPlannings(files).rows| == RowCount(files)
  {
    ConcatRowsCount(files);
  }

  lemma {:induction false} ConcatRowsCount(files: seq<Frame>)
    ensures |ConcatRows(files)| == RowCount(files)
  {
    if files != [] {
      ConcatRowsCount(files[1..]);
    }
  }

  /** The number of rows of the files before file `i`. */
  function Offset(files: seq<Frame>, i: nat): nat
    requires i <= |files|
  {
    if i == 0 then 0 else |files[0].rows| + Offset(files[1..], i - 1)
  }

  /** Row `j` of file `i` sits at position Offset(files, i) + j of the result:
      each file keeps its own row order and the files follow one another. */
  lemma {:induction false} LoadAllPlanningsOrder(files: seq<Frame>, i: nat, j: nat)
    requires i < |files| && j < |files[i].rows|
    ensures Offset(files, i) + j < |LoadAllPlannings(files).rows|
    ensures LoadAllPlannings(files).rows[Offset(files, i) + j] == files[i].rows[j]
  {
    ConcatRowsAt(files, i, j);
  }

  lemma {:induction false} ConcatRowsAt(files: seq<Frame>, i: nat, j: nat)
    requires i < |files| && j < |files[i].rows|
    ensures Offset(files, i) + j < |ConcatRows(files)|
    ensures ConcatRows(files)[Offset(files, i) + j] == files[i].rows[j]
    decreases i
  {
    if i > 0 {
      ConcatRowsAt(files[1..], i - 1, j);
    }
  }

  /** The index of the first standard row of `user`, or |rows| when there is none. */
  function FirstRowOf(rows: seq<StdRow>, user: string): (k: nat)
    ensures k <= |rows|
    ensures k < |rows| ==> rows[k].user == user
    ensures forall j :: 0 <= j < k ==> rows[j].user != user
  {
    if rows == [] then 0
    else if rows[0].user == user then 0
    else 1 + FirstRowOf(rows[1..], user)
  }

  /** A read of the standard file that finds no parsable content raises, and
      that error reaches the caller. */
  const EmptyDataError: string := "EmptyDataError"

  /** The standard of `user` as the planning helper reads it: the slot values of
      the user's first row, or all-empty when the file is missing or has no row
      for the user; a file with no parsable content is an error. */
  function LoadStandardPlanning(file: StdFile, user: string): (r: Result<map<string, string>, string>)
    ensures file.NoData? <==> r.Err?
    ensures file.Missing? ==> r == Ok(EmptyStandard())
    ensures file.Present? && (forall i :: 0 <= i < |file.rows| ==> file.rows[i].user != user) ==>
              r == Ok(EmptyStandard())
    ensures forall i ::
              (&& file.Present? && 0 <= i < |file.rows| && file.rows[i].user == user
               && (forall j :: 0 <= j < i ==> file.rows[j].user != user))
              ==> r == Ok(SlotValues(file.rows[i].cells))
  {
    match file
    case Missing => Ok(EmptyStandard())
    case NoData => Err(EmptyDataError)
    case Present(rows) =>
      var k := FirstRowOf(rows, user);
      if k < |rows| then Ok(SlotValues(rows[k].cells)) else Ok(EmptyStandard())
  }

  /** The directory of stored tables, as (file name, table) pairs in the order
      the directory listing gives them. */
  type Directory = seq<(string, Frame)>

  /** The ending the loader's file-name pattern `*_planning.csv` requires. */
  const PlanningSuffix: string := "_planning.csv"

  /** The name of the file the weekly save writes the whole table to. */
  const WeekStoreFile: string := "all_plannings.csv"

  /** Whether a file name matches the loader's pattern `*_planning.csv`. */
  predicate MatchesPlanningGlob(name: string) {
    |name| >= |PlanningSuffix| && name[|name| - |PlanningSuffix|..] == PlanningSuffix
  }

  /** The tables of the directory whose names satisfy `pick`, in listing order. */
  function Selected(dir: Directory, pick: string -> bool): (fs: seq<Frame>)
    ensures |fs| <= |dir|
  {
    if dir == [] then []
    else (if pick(dir[0].0) then [dir[0].1] else []) + Selected(dir[1..], pick)
  }

  /** The loader as written: it reads the files matching `*_planning.csv`. */
  function LoadDirectory(dir: Directory): Frame {
    LoadAllPlannings(Selected(dir, MatchesPlanningGlob))
  }

  /** The loader as evidently intended: it also reads the file the weekly save
      writes. */
  function LoadDirectoryWithWeekStore(dir: Directory): Frame {
    LoadAllPlannings(Selected(dir, name => MatchesPlanningGlob(name) || name == WeekStoreFile))
  }

  /** As written, the file the weekly save writes does not match the loader's
      pattern ("all_plannings.csv" ends in "plannings.csv"), so a directory that
      holds only the saved table loads as the empty schema table, whatever
      rows were saved. */
  lemma SavedWeekNotReloaded(saved: Frame)
    ensures !MatchesPlanningGlob(WeekStoreFile)
    ensures LoadDirectory([(WeekStoreFile, saved)]) == InitDataframe()
  {
    assert WeekStoreFile[|WeekStoreFile| - |PlanningSuffix|..][0] == 'p' != PlanningSuffix[0];
    assert [(WeekStoreFile, saved)][1..] == [];
  }

  /** With the intended loader, the saved table is read back: its rows, in
      order, and its columns. */
  lemma SavedWeekReloaded(saved: Frame)
    ensures LoadDirectoryWithWeekStore([(WeekStoreFile, saved)]).rows == saved.rows
    ensures forall c :: c in LoadDirectoryWithWeekStore([(WeekStoreFile, saved)]).columns <==> c in saved.columns
  {
    var files := Selected([(WeekStoreFile, saved)], name => MatchesPlanningGlob(name) || name == WeekStoreFile);
    assert [(WeekStoreFile, saved)][1..] == [];
    assert files == [saved];
    assert ConcatRows(files) == saved.rows + [];
    forall c ensures c in LoadDirectoryWithWeekStore([(WeekStoreFile, saved)]).columns <==> c in saved.columns {
      LoadAllPlanningsColumns(files, c);
    }
  }
}
