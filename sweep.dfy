/** The monthly sweep of the general view: for every day of the month and every
    slot, the N1/N2 assignment written as cell text, and the list of conflicts
    (more than one row of a day carrying N1, or N2, in the same slot). The loads
    are counted once, over the whole table, before the sweep and are not updated
    by the picks it makes. */
module Sweep {
  import opened Slots
  import opened Planning
  import opened Hours
  import opened Assign

  /** One conflict record: the day, the slot, the role and the persons of the
      contending rows, joined by ", ". */
  datatype Conflict = Conflict(date: int, plage: string, role: string, users: string)

  /** One row of the final table: the day and the text of each slot. */
  datatype FinalRow = FinalRow(date: int, cells: map<string, string>)

  /** The strings of `parts` separated by `sep`. */
  function Join(parts: seq<string>, sep: string): string {
    if parts == [] then ""
    else if |parts| == 1 then parts[0]
    else parts[0] + sep + Join(parts[1..], sep)
  }

  /** The rows of the table dated `day`. */
  function DayRows(rows: seq<Row>, day: int): (d: seq<Row>)
    ensures forall i :: 0 <= i < |d| ==> d[i].date == day
  {
    if rows == [] then []
    else (if rows[0].date == day then [rows[0]] else []) + DayRows(rows[1..], day)
  }

  /** The rows of the table dated on one of `days`. */
  function RowsOn(rows: seq<Row>, days: seq<int>): seq<Row> {
    if rows == [] then []
    else (if rows[0].date in days then [rows[0]] else []) + RowsOn(rows[1..], days)
  }

  /** Selecting the month first and then the day gives the day's rows of the
      whole table, in the same order. */
  lemma {:induction false} DayRowsOfMonth(rows: seq<Row>, days: seq<int>, day: int)
    requires day in days
    ensures DayRows(RowsOn(rows, days), day) == DayRows(rows, day)
  {
    if rows != [] {
      DayRowsOfMonth(rows[1..], days, day);
      var head := if rows[0].date in days then [rows[0]] else [];
      DayRowsAppend(head, RowsOn(rows[1..], days), day);
      if rows[0].date in days {
        assert head[1..] == [];
      }
    }
  }

  lemma {:induction false} DayRowsAppend(a: seq<Row>, b: seq<Row>, day: int)
    ensures DayRows(a + b, day) == DayRows(a, day) + DayRows(b, day)
  {
    if a == [] {
      assert a + b == b;
    } else {
      assert (a + b)[1..] == a[1..] + b;
      DayRowsAppend(a[1..], b, day);
    }
  }

  /** The text of a slot: "N1 a | N2 b" when both tiers are assigned, "N1 a" or
      "N2 b" when only one is, "" when neither is. */
  function FormatCell(n1: string, n2: string): (t: string)
    ensures t == "" <==> n1 == "" && n2 == ""
    ensures n1 != "" && n2 != "" ==> t == "N1 " + n1 + " | N2 " + n2
    ensures n1 != "" && n2 == "" ==> t == "N1 " + n1
    ensures n1 == "" && n2 != "" ==> t == "N2 " + n2
  {
    if n1 != "" && n2 != "" then "N1 " + n1 + " | N2 " + n2
    else if n1 != "" then "N1 " + n1
    else if n2 != "" then "N2 " + n2
    else ""
  }

  /** The conflict record of one role in one slot of one day, when more than
      one row carries that role. */
  function RoleConflict(day: int, plage: string, dayRows: seq<Row>, role: string): seq<Conflict> {
    var list := Candidates(dayRows, plage, role);
    if |list| > 1 then [Conflict(day, plage, role, Join(list, ", "))] else []
  }

  /** The conflicts of one slot of one day: N1 first, then N2. */
  function SlotConflicts(day: int, plage: string, dayRows: seq<Row>): seq<Conflict> {
    RoleConflict(day, plage, dayRows, "N1") + RoleConflict(day, plage, dayRows, "N2")
  }

  /** The conflicts of a day over the given slots, slot after slot. */
  function DayConflicts(day: int, plages: seq<string>, dayRows: seq<Row>): seq<Conflict> {
    if plages == [] then []
    else DayConflicts(day, plages[..|plages| - 1], dayRows) + SlotConflicts(day, plages[|plages| - 1], dayRows)
  }

  /** The conflicts of the given days, day after day, each over all slots. */
  function MonthConflicts(rows: seq<Row>, days: seq<int>): seq<Conflict> {
    if days == [] then []
    else MonthConflicts(rows, days[..|days| - 1]) + DayConflicts(days[|days| - 1], Plages, DayRows(rows, days[|days| - 1]))
  }

  /** The text of one slot given the rows of its day and the loads. */
  function SlotText(dayRows: seq<Row>, plage: string, hours: map<string, Load>): string {
    FormatCell(Pick(dayRows, plage, "N1", hours, IsNight(plage)), Pick(dayRows, plage, "N2", hours, IsNight(plage)))
  }

  /** The final text of one slot of one day, from the loads of the snapshot. */
  function FinalCell(rows: seq<Row>, day: int, plage: string, hours: map<string, Load>): string {
    SlotText(DayRows(rows, day), plage, hours)
  }

  /** Two different rows of the day carry `role` in `plage`. */
  predicate Contested(dayRows: seq<Row>, plage: string, role: string) {
    exists i, j :: 0 <= i < j < |dayRows| && Cell(dayRows[i], plage) == role && Cell(dayRows[j], plage) == role
  }

  /** A record for a role in a slot of a day is emitted exactly when more than
      one of that day's rows carries the role in the slot (rows, not distinct
      persons), and it lists their persons in row order. */
  lemma {:induction false} RoleConflictIff(day: int, plage: string, dayRows: seq<Row>, role: string, c: Conflict)
    ensures c in RoleConflict(day, plage, dayRows, role) <==>
              && Contested(dayRows, plage, role)
              && c == Conflict(day, plage, role, Join(Candidates(dayRows, plage, role), ", "))
  {
    CandidatesSeveral(dayRows, plage, role);
  }

  /** A conflict record is in a day's list exactly when it is the record of one
      of the given slots and of N1 or N2. */
  lemma {:induction false} DayConflictsMembers(day: int, plages: seq<string>, dayRows: seq<Row>, c: Conflict)
    ensures c in DayConflicts(day, plages, dayRows) <==>
              && c.plage in plages && (c.role == "N1" || c.role == "N2")
              && c in RoleConflict(day, c.plage, dayRows, c.role)
  {
    if plages != [] {
      var init := plages[..|plages| - 1];
      var last := plages[|plages| - 1];
      DayConflictsMembers(day, init, dayRows, c);
      assert plages == init + [last];
      assert c.plage in plages <==> c.plage in init || c.plage == last;
    }
  }

  /** The conflicts of the month: a record for (day, slot, role) is present
      exactly when the day is one of the month's, the slot one of the seven,
      the role N1 or N2, and more than one row of that day carries the role in
      that slot; the record then lists those rows' persons. */
  lemma {:induction false} MonthConflictsIff(rows: seq<Row>, days: seq<int>, c: Conflict)
    ensures c in MonthConflicts(rows, days) <==>
              && c.date in days && c.plage in Plages && (c.role == "N1" || c.role == "N2")
              && Contested(DayRows(rows, c.date), c.plage, c.role)
              && c.users == Join(Candidates(DayRows(rows, c.date), c.plage, c.role), ", ")
  {
    if days != [] {
      var init := days[..|days| - 1];
      var last := days[|days| - 1];
      MonthConflictsIff(rows, init, c);
      DayConflictsMembers(last, Plages, DayRows(rows, last), c);
      RoleConflictIff(last, c.plage, DayRows(rows, last), c.role, c);
      assert days == init + [last];
      assert c.date in days <==> c.date in init || c.date == last;
      if c.date == last && c.plage in Plages && (c.role == "N1" || c.role == "N2") {
        RoleConflictIff(c.date, c.plage, DayRows(rows, c.date), c.role, c);
      }
    }
  }

  lemma SnocConflicts(day: int, plages: seq<string>, j: nat, dayRows: seq<Row>)
    requires j < |plages|
    ensures DayConflicts(day, plages[..j + 1], dayRows) ==
              DayConflicts(day, plages[..j], dayRows) + SlotConflicts(day, plages[j], dayRows)
  {
    assert plages[..j + 1][..j] == plages[..j];
  }

  /** One slot of one day: its assignment as cell text, and its conflict
      records, N1 before N2. */
  method SweepSlot(dayDf: seq<Row>, day: int, plage: string, userHours: map<string, Load>)
    returns (text: string, found: seq<Conflict>)
    ensures text == SlotText(dayDf, plage, userHours)
    ensures found == SlotConflicts(day, plage, dayDf)
  {
    var isNight := IsNight(plage);
    var picked := AssignPlageFinal(dayDf, plage, userHours, isNight);

    found := [];
    var n1List := Candidates(dayDf, plage, "N1");
    var n2List := Candidates(dayDf, plage, "N2");
    if |n1List| > 1 {
      found := found + [Conflict(day, plage, "N1", Join(n1List, ", "))];
    }
    if |n2List| > 1 {
      found := found + [Conflict(day, plage, "N2", Join(n2List, ", "))];
    }

    text := FormatCell(picked["N1"], picked["N2"]);
  }

  /** `cells` holds one text per slot of `slots`: the formatted N1/N2 pick of
      `dayRows` under the loads `hours`. */
  ghost predicate DayCells(cells: map<string, string>, dayRows: seq<Row>, slots: seq<string>, hours: map<string, Load>) {
    && (forall p :: p in cells <==> p in slots)
    && (forall p :: p in cells ==> cells[p] == SlotText(dayRows, p, hours))
  }

  lemma DayCellsSnoc(cells: map<string, string>, dayRows: seq<Row>, slots: seq<string>, j: nat,
                     hours: map<string, Load>, text: string)
    requires j < |slots|
    requires DayCells(cells, dayRows, slots[..j], hours) && text == SlotText(dayRows, slots[j], hours)
    ensures DayCells(cells[slots[j] := text], dayRows, slots[..j + 1], hours)
  {
    assert slots[..j + 1] == slots[..j] + [slots[j]];
  }

  /** One day of the sweep: the slot texts of the day and the conflicts found
      in its slots, slot after slot. */
  method SweepDay(dayDf: seq<Row>, day: int, plages: seq<string>, userHours: map<string, Load>)
    returns (cells: map<string, string>, found: seq<Conflict>)
    ensures DayCells(cells, dayDf, plages, userHours)
    ensures found == DayConflicts(day, plages, dayDf)
  {
    cells, found := map[], [];
    var j := 0;
    while j < |plages|
      invariant 0 <= j <= |plages|
      invariant DayCells(cells, dayDf, plages[..j], userHours)
      invariant found == DayConflicts(day, plages[..j], dayDf)
    {
      var plage := plages[j];
      var text, slotFound := SweepSlot(dayDf, day, plage, userHours);
      found := found + slotFound;
      SnocConflicts(day, plages, j, dayDf);
      DayCellsSnoc(cells, dayDf, plages, j, userHours, text);
      cells := cells[plage := text];
      j := j + 1;
    }
    assert plages[..|plages|] == plages;
  }

  lemma MonthConflictsSnoc(rows: seq<Row>, days: seq<int>, d: nat)
    requires d < |days|
    ensures MonthConflicts(rows, days[..d + 1]) ==
              MonthConflicts(rows, days[..d]) + DayConflicts(days[d], Plages, DayRows(rows, days[d]))
  {
    assert days[..d + 1][..d] == days[..d];
  }

  /** `r` is the final row of `day`: dated that day, one text per slot, each
      the formatted N1/N2 pick of the day's rows under the loads `hours`. */
  ghost predicate IsFinalRow(r: FinalRow, rows: seq<Row>, day: int, hours: map<string, Load>) {
    r.date == day && DayCells(r.cells, DayRows(rows, day), Plages, hours)
  }

  /** The sweep over the days of the month. With an empty table nothing is
      produced. Otherwise the loads are counted once over the whole table; each
      day gets one final row whose slot texts come from the N1/N2 picks of that
      day's rows, and the conflicts are collected day by day, slot by slot. */
  method MonthlySweep(rows: seq<Row>, monthDays: seq<int>)
    returns (weekTable: seq<FinalRow>, conflicts: seq<Conflict>)
    ensures rows == [] ==> weekTable == [] && conflicts == []
    ensures rows != [] ==> |weekTable| == |monthDays|
    ensures rows != [] ==> conflicts == MonthConflicts(rows, monthDays)
    ensures forall i :: 0 <= i < |weekTable| ==> IsFinalRow(weekTable[i], rows, monthDays[i], Snapshot(rows))
  {
    weekTable, conflicts := [], [];
    if rows == [] {
      return;
    }
    var userHours := ComputeUserHours(rows);
    var weekDf := RowsOn(rows, monthDays);
    var d := 0;
    while d < |monthDays|
      invariant 0 <= d <= |monthDays|
      invariant |weekTable| == d
      invariant conflicts == MonthConflicts(rows, monthDays[..d])
      invariant forall i :: 0 <= i < d ==> IsFinalRow(weekTable[i], rows, monthDays[i], userHours)
    {
      var day := monthDays[d];
      var dayDf := DayRows(weekDf, day);
      DayRowsOfMonth(rows, monthDays, day);
      var row, found := SweepDay(dayDf, day, Plages, userHours);
      assert IsFinalRow(FinalRow(day, row), rows, day, userHours);
      MonthConflictsSnoc(rows, monthDays, d);
      conflicts := conflicts + found;
      ghost var done := weekTable;
      weekTable := weekTable + [FinalRow(day, row)];
      forall i | 0 <= i < d + 1
        ensures IsFinalRow(weekTable[i], rows, monthDays[i], userHours)
      {
        if i < d {
          assert weekTable[i] == done[i];
        }
      }
      d := d + 1;
    }
    assert monthDays[..|monthDays|] == monthDays;
  }
}
