/** The table-rewrite rules of the planning view: saving a week, saving the
    standard week, reading a person's standard and pre-filling the week editor. */
module Store {
  import opened Slots
  import opened Wrappers
  import opened Planning
  import opened Hours

  const EmptyWeekError: string := "Impossible de sauvegarder : le planning est vide."
  const EmptyStandardError: string := "Impossible de sauvegarder le standard : le planning est vide."

  /** The dates of the edited rows. */
  function Dates(edited: seq<Row>): set<int> {
    set i | 0 <= i < |edited| :: edited[i].date
  }

  /** The edited rows with their person set to the current user. */
  function Relabel(edited: seq<Row>, user: string): (r: seq<Row>)
    ensures |r| == |edited|
    ensures forall i :: 0 <= i < |r| ==> r[i] == edited[i].(user := user)
  {
    seq(|edited|, i requires 0 <= i < |edited| => edited[i].(user := user))
  }

  /** Whether a prior row is replaced by a weekly save of `user` over `dates`. */
  predicate Replaced(r: Row, user: string, dates: set<int>) {
    r.user == user && r.date in dates
  }

  /** The rows that are not replaced, in their original order. */
  function Keep(rows: seq<Row>, user: string, dates: set<int>): seq<Row> {
    if rows == [] then []
    else (if Replaced(rows[0], user, dates) then [] else [rows[0]]) + Keep(rows[1..], user, dates)
  }

  /** The rows of one person, in their original order. */
  function RowsOf(rows: seq<Row>, user: string): seq<Row> {
    if rows == [] then []
    else (if rows[0].user == user then [rows[0]] else []) + RowsOf(rows[1..], user)
  }

  /** The weekly save: an empty edit, or one without a Date column, is refused
      and the table is not changed; otherwise the current user's rows for the
      edited dates are removed and the edited rows, relabelled to the current
      user, are appended at the end. */
  function SaveWeek(table: seq<Row>, user: string, edited: seq<Row>, hasDate: bool): (r: Result<seq<Row>, string>)
    ensures r.Err? <==> edited == [] || !hasDate
    ensures r.Err? ==> r.error == EmptyWeekError
  {
    if edited == [] || !hasDate then Err(EmptyWeekError)
    else Ok(Keep(table, user, Dates(edited)) + Relabel(edited, user))
  }

  lemma {:induction false} KeepMembers(rows: seq<Row>, user: string, dates: set<int>, x: Row)
    ensures x in Keep(rows, user, dates) <==> x in rows && !Replaced(x, user, dates)
  {
    if rows != [] {
      KeepMembers(rows[1..], user, dates, x);
      assert rows == [rows[0]] + rows[1..];
    }
  }

  lemma {:induction false} KeepAppend(a: seq<Row>, b: seq<Row>, user: string, dates: set<int>)
    ensures Keep(a + b, user, dates) == Keep(a, user, dates) + Keep(b, user, dates)
  {
    if a == [] {
      assert a + b == b;
    } else {
      var head := if Replaced(a[0], user, dates) then [] else [a[0]];
      assert (a + b)[0] == a[0] && (a + b)[1..] == a[1..] + b;
      assert Keep(a + b, user, dates) == head + Keep(a[1..] + b, user, dates);
      assert Keep(a, user, dates) == head + Keep(a[1..], user, dates);
      KeepAppend(a[1..], b, user, dates);
    }
  }

  /** Rows of which none is replaced are all kept, in order. */
  lemma {:induction false} KeepNone(rows: seq<Row>, user: string, dates: set<int>)
    requires forall i :: 0 <= i < |rows| ==> !Replaced(rows[i], user, dates)
    ensures Keep(rows, user, dates) == rows
  {
    if rows != [] {
      KeepNone(rows[1..], user, dates);
    }
  }

  /** Rows that are all replaced all go. */
  lemma {:induction false} KeepAll(rows: seq<Row>, user: string, dates: set<int>)
    requires forall i :: 0 <= i < |rows| ==> Replaced(rows[i], user, dates)
    ensures Keep(rows, user, dates) == []
  {
    if rows != [] {
      KeepAll(rows[1..], user, dates);
    }
  }

  /** Keeping is a filter: what it keeps is not replaced, so keeping twice
      changes nothing. */
  lemma {:induction false} KeepIdempotent(rows: seq<Row>, user: string, dates: set<int>)
    ensures Keep(Keep(rows, user, dates), user, dates) == Keep(rows, user, dates)
  {
    var k := Keep(rows, user, dates);
    forall i | 0 <= i < |k| ensures !Replaced(k[i], user, dates) {
      KeepMembers(rows, user, dates, k[i]);
    }
    KeepNone(k, user, dates);
  }

  /** What a successful weekly save leaves: the prior rows that are not the
      user's rows for an edited date, in their original order, followed by the
      edited rows relabelled to the user; no prior row of the user for an edited
      date remains, and every other prior row does. */
  lemma SaveWeekContents(table: seq<Row>, user: string, edited: seq<Row>, hasDate: bool)
    requires SaveWeek(table, user, edited, hasDate).Ok?
    ensures var r := SaveWeek(table, user, edited, hasDate).value;
      && |r| >= |edited|
      && r[|r| - |edited|..] == Relabel(edited, user)
      && r[..|r| - |edited|] == Keep(table, user, Dates(edited))
      && (forall x :: x in r[..|r| - |edited|] <==> x in table && !Replaced(x, user, Dates(edited)))
      && (forall i :: |r| - |edited| <= i < |r| ==> r[i].user == user && r[i].date in Dates(edited))
  {
    var r := SaveWeek(table, user, edited, hasDate).value;
    var k := Keep(table, user, Dates(edited));
    assert r == k + Relabel(edited, user);
    assert r[..|k|] == k && r[|k|..] == Relabel(edited, user);
    forall x ensures x in k <==> x in table && !Replaced(x, user, Dates(edited)) {
      KeepMembers(table, user, Dates(edited), x);
    }
  }

  /** Saving the same week twice gives the same table as saving it once. */
  lemma SaveWeekIdempotent(table: seq<Row>, user: string, edited: seq<Row>, hasDate: bool)
    requires SaveWeek(table, user, edited, hasDate).Ok?
    ensures SaveWeek(SaveWeek(table, user, edited, hasDate).value, user, edited, hasDate) ==
              SaveWeek(table, user, edited, hasDate)
  {
    var dates := Dates(edited);
    var k := Keep(table, user, dates);
    var rel := Relabel(edited, user);
    KeepAppend(k, rel, user, dates);
    KeepIdempotent(table, user, dates);
    forall i | 0 <= i < |rel| ensures Replaced(rel[i], user, dates) {
      assert edited[i].date in dates;
    }
    KeepAll(rel, user, dates);
    assert SaveWeek(table, user, edited, hasDate).value == k + rel;
    assert Keep(k + rel, user, dates) == k + [];
    assert k + [] == k;
  }

  lemma {:induction false} RowsOfAppend(a: seq<Row>, b: seq<Row>, v: string)
    ensures RowsOf(a + b, v) == RowsOf(a, v) + RowsOf(b, v)
  {
    if a == [] {
      assert a + b == b;
    } else {
      var head := if a[0].user == v then [a[0]] else [];
      assert (a + b)[0] == a[0] && (a + b)[1..] == a[1..] + b;
      assert RowsOf(a + b, v) == head + RowsOf(a[1..] + b, v);
      assert RowsOf(a, v) == head + RowsOf(a[1..], v);
      RowsOfAppend(a[1..], b, v);
    }
  }

  lemma {:induction false} RowsOfKeep(rows: seq<Row>, user: string, dates: set<int>, v: string)
    requires v != user
    ensures RowsOf(Keep(rows, user, dates), v) == RowsOf(rows, v)
  {
    if rows != [] {
      var head := if Replaced(rows[0], user, dates) then [] else [rows[0]];
      RowsOfKeep(rows[1..], user, dates, v);
      RowsOfAppend(head, Keep(rows[1..], user, dates), v);
      assert head != [] ==> head[1..] == [];
    }
  }

  lemma {:induction false} RowsOfOthers(rows: seq<Row>, v: string)
    requires forall i :: 0 <= i < |rows| ==> rows[i].user != v
    ensures RowsOf(rows, v) == []
  {
    if rows != [] {
      RowsOfOthers(rows[1..], v);
    }
  }

  /** A weekly save changes no other person's rows, and so no other person's
      load. */
  lemma SaveWeekOthersUnchanged(table: seq<Row>, user: string, edited: seq<Row>, hasDate: bool, v: string, slots: seq<string>)
    requires SaveWeek(table, user, edited, hasDate).Ok? && v != user
    ensures RowsOf(SaveWeek(table, user, edited, hasDate).value, v) == RowsOf(table, v)
    ensures CellCount(SaveWeek(table, user, edited, hasDate).value, v, slots) == CellCount(table, v, slots)
  {
    var dates := Dates(edited);
    var k := Keep(table, user, dates);
    var rel := Relabel(edited, user);
    RowsOfAppend(k, rel, v);
    RowsOfKeep(table, user, dates, v);
    RowsOfOthers(rel, v);
    CellCountAppend(k, rel, v, slots);
    CellCountAbsent(rel, v, slots);
    CellCountKeep(table, user, dates, v, slots);
  }

  lemma {:induction false} CellCountKeep(rows: seq<Row>, user: string, dates: set<int>, v: string, slots: seq<string>)
    requires v != user
    ensures CellCount(Keep(rows, user, dates), v, slots) == CellCount(rows, v, slots)
  {
    if rows != [] {
      var head := if Replaced(rows[0], user, dates) then [] else [rows[0]];
      CellCountKeep(rows[1..], user, dates, v, slots);
      CellCountAppend(head, Keep(rows[1..], user, dates), v, slots);
      assert head != [] ==> head[1..] == [];
    }
  }

  /** The standard rows of persons other than `user`, in order. */
  function OtherStd(rows: seq<StdRow>, user: string): (o: seq<StdRow>)
    ensures forall i :: 0 <= i < |o| ==> o[i].user != user
  {
    if rows == [] then []
    else (if rows[0].user != user then [rows[0]] else []) + OtherStd(rows[1..], user)
  }

  /** The standard rows of `v`, in order. */
  function StdOf(rows: seq<StdRow>, v: string): seq<StdRow> {
    if rows == [] then []
    else (if rows[0].user == v then [rows[0]] else []) + StdOf(rows[1..], v)
  }

  /** The standard save: an empty edit, or one without a Date column, is
      refused; otherwise the user's template rows are removed (a missing or
      unparsable file counts as no rows) and one row holding the slot values of
      the first edited row is appended. */
  function SaveStandard(file: StdFile, user: string, edited: seq<Row>, hasDate: bool): (r: Result<seq<StdRow>, string>)
    ensures r.Err? <==> edited == [] || !hasDate
    ensures r.Err? ==> r.error == EmptyStandardError
  {
    if edited == [] || !hasDate then Err(EmptyStandardError)
    else
      var base := if file.Present? && file.rows != [] then OtherStd(file.rows, user) else [];
      Ok(base + [StdRow(user, SlotValues(edited[0].cells))])
  }

  lemma {:induction false} StdOfAppend(a: seq<StdRow>, b: seq<StdRow>, v: string)
    ensures StdOf(a + b, v) == StdOf(a, v) + StdOf(b, v)
  {
    if a == [] {
      assert a + b == b;
    } else {
      assert (a + b)[0] == a[0] && (a + b)[1..] == a[1..] + b;
      StdOfAppend(a[1..], b, v);
      var head := if a[0].user == v then [a[0]] else [];
      assert StdOf(a + b, v) == head + StdOf(a[1..] + b, v);
      assert StdOf(a, v) == head + StdOf(a[1..], v);
    }
  }

  lemma {:induction false} StdOfOther(rows: seq<StdRow>, user: string, v: string)
    ensures StdOf(OtherStd(rows, user), v) == if v == user then [] else StdOf(rows, v)
  {
    if rows != [] {
      var head := if rows[0].user != user then [rows[0]] else [];
      StdOfOther(rows[1..], user, v);
      StdOfAppend(head, OtherStd(rows[1..], user), v);
      assert head != [] ==> head[1..] == [];
    }
  }

  /** After a successful standard save the user has exactly one template row,
      holding the first edited row's slot values, and every other person's
      template rows are those of the file before, in order. */
  lemma SaveStandardContents(file: StdFile, user: string, edited: seq<Row>, hasDate: bool, v: string)
    requires SaveStandard(file, user, edited, hasDate).Ok?
    ensures StdOf(SaveStandard(file, user, edited, hasDate).value, user) == [StdRow(user, SlotValues(edited[0].cells))]
    ensures v != user && file.Present? ==> StdOf(SaveStandard(file, user, edited, hasDate).value, v) == StdOf(file.rows, v)
    ensures v != user && !file.Present? ==> StdOf(SaveStandard(file, user, edited, hasDate).value, v) == []
  {
    var row := StdRow(user, SlotValues(edited[0].cells));
    var base := if file.Present? && file.rows != [] then OtherStd(file.rows, user) else [];
    StdOfAppend(base, [row], user);
    StdOfAppend(base, [row], v);
    assert [row][1..] == [];
    if file.Present? && file.rows != [] {
      StdOfOther(file.rows, user, user);
      StdOfOther(file.rows, user, v);
    }
  }

  /** The standard of `user` as the planning view reads it: the slot values of
      the user's first template row; all-empty when the file is missing, has no
      content or no row, or has no row for the user. */
  function LoadStandard(file: StdFile, user: string): (m: map<string, string>)
    ensures m.Keys == set p | p in Plages
    ensures !file.Present? || file.rows == [] ==> m == EmptyStandard()
  {
    match file
    case Missing => EmptyStandard()
    case NoData => EmptyStandard()
    case Present(rows) =>
      if rows == [] then EmptyStandard()
      else
        var k := FirstRowOf(rows, user);
        if k < |rows| then SlotValues(rows[k].cells) else EmptyStandard()
  }

  /** The two readers of the standard agree on every file the helper can read;
      they differ only on a file with no parsable content, where the view falls
      back to all-empty and the helper fails. */
  lemma LoadStandardAgrees(file: StdFile, user: string)
    ensures !file.NoData? ==> LoadStandardPlanning(file, user) == Ok(LoadStandard(file, user))
    ensures file.NoData? ==> LoadStandardPlanning(file, user).Err? && LoadStandard(file, user) == EmptyStandard()
  {
  }

  /** Reading the standard back after saving it gives the saved slot values. */
  lemma SaveThenLoadStandard(file: StdFile, user: string, edited: seq<Row>, hasDate: bool)
    requires SaveStandard(file, user, edited, hasDate).Ok?
    ensures LoadStandard(Present(SaveStandard(file, user, edited, hasDate).value), user) == SlotValues(edited[0].cells)
  {
    var rows := SaveStandard(file, user, edited, hasDate).value;
    var base := if file.Present? && file.rows != [] then OtherStd(file.rows, user) else [];
    assert rows == base + [StdRow(user, SlotValues(edited[0].cells))];
    assert rows[|base|].user == user;
    var k := FirstRowOf(rows, user);
    assert forall j :: 0 <= j < |base| ==> rows[j] == base[j];
    assert k == |base|;
  }

  /** The user's rows dated on one of the week's days, in table order. */
  function WeekRowsOf(table: seq<Row>, user: string, weekDays: seq<int>): (w: seq<Row>)
    ensures forall i :: 0 <= i < |w| ==> w[i].user == user && w[i].date in weekDays
  {
    if table == [] then []
    else (if table[0].user == user && table[0].date in weekDays then [table[0]] else [])
         + WeekRowsOf(table[1..], user, weekDays)
  }

  /** A row is among the user's week rows exactly when it is a row of the
      table, of the user, and dated on a day of the week. */
  lemma {:induction false} WeekRowsMembers(table: seq<Row>, user: string, weekDays: seq<int>, x: Row)
    ensures x in WeekRowsOf(table, user, weekDays) <==> x in table && x.user == user && x.date in weekDays
  {
    if table != [] {
      WeekRowsMembers(table[1..], user, weekDays, x);
      assert table == [table[0]] + table[1..];
    }
  }

  /** The editor falls back on the standard exactly when no row of the table
      is the user's on a day of the week. */
  lemma {:induction false} WeekRowsEmpty(table: seq<Row>, user: string, weekDays: seq<int>)
    ensures WeekRowsOf(table, user, weekDays) == [] <==>
              forall i :: 0 <= i < |table| ==> !(table[i].user == user && table[i].date in weekDays)
  {
    if table != [] {
      WeekRowsEmpty(table[1..], user, weekDays);
      assert forall i :: 1 <= i < |table| ==> table[1..][i - 1] == table[i];
    }
  }

  /** The rows the week editor opens with: the user's stored rows for the week
      when there are any; otherwise one row per day of the week, for the user,
      each carrying the user's standard. */
  method PrefillWeek(table: seq<Row>, user: string, weekDays: seq<int>, file: StdFile) returns (df: seq<Row>)
    ensures WeekRowsOf(table, user, weekDays) != [] ==> df == WeekRowsOf(table, user, weekDays)
    ensures WeekRowsOf(table, user, weekDays) == [] ==>
              && |df| == |weekDays|
              && forall i :: 0 <= i < |df| ==> df[i] == Row(weekDays[i], user, LoadStandard(file, user))
  {
    var userWeek := WeekRowsOf(table, user, weekDays);
    if userWeek != [] {
      df := userWeek;
    } else {
      var standard := LoadStandard(file, user);
      df := [];
      var i := 0;
      while i < |weekDays|
        invariant 0 <= i <= |weekDays|
        invariant |df| == i
        invariant forall j :: 0 <= j < i ==> df[j] == Row(weekDays[j], user, standard)
      {
        df := df + [Row(weekDays[i], user, standard)];
        i := i + 1;
      }
    }
  }

  lemma {:induction false} WeekRowsAppend(a: seq<Row>, b: seq<Row>, user: string, weekDays: seq<int>)
    ensures WeekRowsOf(a + b, user, weekDays) == WeekRowsOf(a, user, weekDays) + WeekRowsOf(b, user, weekDays)
  {
    if a == [] {
      assert a + b == b;
    } else {
      var head := if a[0].user == user && a[0].date in weekDays then [a[0]] else [];
      assert (a + b)[0] == a[0] && (a + b)[1..] == a[1..] + b;
      assert WeekRowsOf(a + b, user, weekDays) == head + WeekRowsOf(a[1..] + b, user, weekDays);
      assert WeekRowsOf(a, user, weekDays) == head + WeekRowsOf(a[1..], user, weekDays);
      WeekRowsAppend(a[1..], b, user, weekDays);
    }
  }

  lemma {:induction false} WeekRowsAll(rows: seq<Row>, user: string, weekDays: seq<int>)
    requires forall i :: 0 <= i < |rows| ==> rows[i].user == user && rows[i].date in weekDays
    ensures WeekRowsOf(rows, user, weekDays) == rows
  {
    if rows != [] {
      WeekRowsAll(rows[1..], user, weekDays);
    }
  }

  /** After a weekly save whose rows all fall in the week, the editor reopens
      on stored rows, not on the standard, and those end with the saved rows. */
  lemma SaveWeekThenPrefill(table: seq<Row>, user: string, edited: seq<Row>, hasDate: bool, weekDays: seq<int>)
    requires SaveWeek(table, user, edited, hasDate).Ok?
    requires forall i :: 0 <= i < |edited| ==> edited[i].date in weekDays
    ensures var w := WeekRowsOf(SaveWeek(table, user, edited, hasDate).value, user, weekDays);
      && w != []
      && |w| >= |edited|
      && w[|w| - |edited|..] == Relabel(edited, user)
  {
    var k := Keep(table, user, Dates(edited));
    var rel := Relabel(edited, user);
    WeekRowsAppend(k, rel, user, weekDays);
    WeekRowsAll(rel, user, weekDays);
    var w := WeekRowsOf(k, user, weekDays) + rel;
    assert w[|w| - |edited|..] == rel;
  }
}
