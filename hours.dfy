/** The load counter: for every person, how many day-slot cells and how many
    night-slot cells of the table carry a working label. It counts cells, not
    hours: every cell adds one whatever the length of its slot. */
module Hours {
  import opened Slots
  import opened Planning

  /** A person's load: the working day-slot cells and the working night-slot cells. */
  datatype Load = Load(jour: nat, nuit: nat)

  /** 1 when the cell holds a working label, 0 otherwise. */
  function Indicator(l: string): (n: nat)
    ensures n <= 1
    ensures n == 1 <==> Working(l)
  {
    if Working(l) then 1 else 0
  }

  /** The number of slots of `slots` in which row `r` holds a working label. */
  function RowCells(r: Row, slots: seq<string>): nat {
    if slots == [] then 0
    else RowCells(r, slots[..|slots| - 1]) + Indicator(Cell(r, slots[|slots| - 1]))
  }

  /** The number of (row, slot) cells of person `u` holding a working label:
      the reference definition of a bucket of the load counter. */
  function CellCount(rows: seq<Row>, u: string, slots: seq<string>): nat {
    if rows == [] then 0
    else (if rows[0].user == u then RowCells(rows[0], slots) else 0) + CellCount(rows[1..], u, slots)
  }

  /** The number of rows of person `u` whose cell in slot `p` holds a working
      label (one column of the person's rows, counted). */
  function ColumnCount(rows: seq<Row>, u: string, p: string): nat {
    if rows == [] then 0
    else (if rows[0].user == u then Indicator(Cell(rows[0], p)) else 0) + ColumnCount(rows[1..], u, p)
  }

  /** The column counts of person `u`, added up slot by slot. */
  function SumColumns(rows: seq<Row>, u: string, slots: seq<string>): nat {
    if slots == [] then 0
    else SumColumns(rows, u, slots[..|slots| - 1]) + ColumnCount(rows, u, slots[|slots| - 1])
  }

  /** The persons of the table, each once, in order of first appearance. */
  function Users(rows: seq<Row>): (us: seq<string>)
    ensures Distinct(us)
    ensures forall u :: u in us <==> exists i :: 0 <= i < |rows| && rows[i].user == u
  {
    if rows == [] then []
    else
      var us := Users(rows[..|rows| - 1]);
      var last := rows[|rows| - 1].user;
      assert forall i :: 0 <= i < |rows| - 1 ==> rows[..|rows| - 1][i] == rows[i];
      if last in us then us else us + [last]
  }

  /** A row counts at most one cell per slot. */
  lemma {:induction false} RowCellsBound(r: Row, slots: seq<string>)
    ensures RowCells(r, slots) <= |slots|
  {
    if slots != [] {
      RowCellsBound(r, slots[..|slots| - 1]);
    }
  }

  /** Adding a slot to the list adds that slot's column count. */
  lemma {:induction false} CellCountSnoc(rows: seq<Row>, u: string, slots: seq<string>, p: string)
    ensures CellCount(rows, u, slots + [p]) == CellCount(rows, u, slots) + ColumnCount(rows, u, p)
  {
    if rows != [] {
      assert (slots + [p])[..|slots|] == slots;
      CellCountSnoc(rows[1..], u, slots, p);
    }
  }

  /** Counting column by column gives the number of working cells of the person. */
  lemma {:induction false} SumColumnsIsCellCount(rows: seq<Row>, u: string, slots: seq<string>)
    ensures SumColumns(rows, u, slots) == CellCount(rows, u, slots)
  {
    if slots == [] {
      CellCountEmptySlots(rows, u);
    } else {
      var init := slots[..|slots| - 1];
      SumColumnsIsCellCount(rows, u, init);
      CellCountSnoc(rows, u, init, slots[|slots| - 1]);
      assert init + [slots[|slots| - 1]] == slots;
    }
  }

  lemma {:induction false} CellCountEmptySlots(rows: seq<Row>, u: string)
    ensures CellCount(rows, u, []) == 0
  {
    if rows != [] {
      CellCountEmptySlots(rows[1..], u);
    }
  }

  /** Only the person's own rows count, and a person without rows has no load. */
  lemma {:induction false} CellCountAbsent(rows: seq<Row>, u: string, slots: seq<string>)
    requires forall i :: 0 <= i < |rows| ==> rows[i].user != u
    ensures CellCount(rows, u, slots) == 0
  {
    if rows != [] {
      CellCountAbsent(rows[1..], u, slots);
    }
  }

  /** The count over two tables put one after the other is the sum of the counts. */
  lemma {:induction false} CellCountAppend(a: seq<Row>, b: seq<Row>, u: string, slots: seq<string>)
    ensures CellCount(a + b, u, slots) == CellCount(a, u, slots) + CellCount(b, u, slots)
  {
    if a == [] {
      assert a + b == b;
    } else {
      assert (a + b)[1..] == a[1..] + b;
      CellCountAppend(a[1..], b, u, slots);
    }
  }

  /** The count does not depend on the order of the rows: any permutation of
      the table gives every person the same load. */
  lemma {:induction false} CellCountPermutation(a: seq<Row>, b: seq<Row>, u: string, slots: seq<string>)
    requires multiset(a) == multiset(b)
    ensures CellCount(a, u, slots) == CellCount(b, u, slots)
    decreases |a|
  {
    if a == [] {
      assert |b| == |multiset(b)| == 0;
    } else {
      var k := MatchFirst(a, b);
      CellCountPermutation(a[1..], b[..k] + b[k + 1..], u, slots);
      CellCountRemoveAt(b, k, u, slots);
      CellCountRemoveAt(a, 0, u, slots);
      assert a[..0] + a[1..] == a[1..];
    }
  }

  /** The position in `b` of the first element of its permutation `a`; the
      rest of `a` is a permutation of `b` without that position. */
  lemma MatchFirst<T>(a: seq<T>, b: seq<T>) returns (k: nat)
    requires a != [] && multiset(a) == multiset(b)
    ensures k < |b| && b[k] == a[0]
    ensures multiset(a[1..]) == multiset(b[..k] + b[k + 1..])
  {
    assert a[0] in multiset(a);
    assert a[0] in b;
    k :| 0 <= k < |b| && b[k] == a[0];
    MultisetRemoveAt(b, k);
    MultisetTail(a);
  }

  lemma MultisetTail<T>(s: seq<T>)
    requires s != []
    ensures multiset(s[1..]) == multiset(s) - multiset{s[0]}
  {
    assert s == [s[0]] + s[1..];
  }

  lemma MultisetRemoveAt<T>(s: seq<T>, k: nat)
    requires k < |s|
    ensures multiset(s[..k] + s[k + 1..]) == multiset(s) - multiset{s[k]}
  {
    assert s == s[..k] + [s[k]] + s[k + 1..];
  }

  /** Taking one row out of the table takes its cells out of the count. */
  lemma CellCountRemoveAt(b: seq<Row>, k: nat, u: string, slots: seq<string>)
    requires k < |b|
    ensures CellCount(b, u, slots) ==
              CellCount(b[..k] + b[k + 1..], u, slots) + CellCount([b[k]], u, slots)
  {
    assert b == b[..k] + ([b[k]] + b[k + 1..]);
    CellCountAppend(b[..k], [b[k]] + b[k + 1..], u, slots);
    CellCountAppend([b[k]], b[k + 1..], u, slots);
    CellCountAppend(b[..k], b[k + 1..], u, slots);
  }

  /** The load map as a value: every person of the table with their two counts. */
  function Snapshot(rows: seq<Row>): map<string, Load> {
    map u | u in (set i | 0 <= i < |rows| :: rows[i].user) ::
      Load(CellCount(rows, u, JourPlages), CellCount(rows, u, NuitPlages))
  }

  /** The whole load map is independent of the order of the rows. */
  lemma SnapshotPermutation(a: seq<Row>, b: seq<Row>)
    requires multiset(a) == multiset(b)
    ensures Snapshot(a) == Snapshot(b)
  {
    var ua := set i | 0 <= i < |a| :: a[i].user;
    var ub := set i | 0 <= i < |b| :: b[i].user;
    forall u | u in ua ensures u in ub {
      var i :| 0 <= i < |a| && a[i].user == u;
      assert a[i] in multiset(b);
      var j :| 0 <= j < |b| && b[j] == a[i];
    }
    forall u | u in ub ensures u in ua {
      var j :| 0 <= j < |b| && b[j].user == u;
      assert b[j] in multiset(a);
      var i :| 0 <= i < |a| && a[i] == b[j];
    }
    assert ua == ub;
    assert Snapshot(a).Keys == ua && Snapshot(b).Keys == ub;
    forall u | u in ua
      ensures Snapshot(a)[u] == Snapshot(b)[u]
    {
      CellCountPermutation(a, b, u, JourPlages);
      CellCountPermutation(a, b, u, NuitPlages);
    }
  }

  /** The load of every person of the table: the working day-slot cells and the
      working night-slot cells of their rows. An empty table gives an empty map. */
  method ComputeUserHours(rows: seq<Row>) returns (hours: map<string, Load>)
    ensures hours == Snapshot(rows)
    ensures forall u :: u in hours <==> exists i :: 0 <= i < |rows| && rows[i].user == u
    ensures forall u :: u in hours ==>
              hours[u] == Load(CellCount(rows, u, JourPlages), CellCount(rows, u, NuitPlages))
  {
    hours := map[];
    if |rows| == 0 {
      return;
    }
    var users := Users(rows);
    var i := 0;
    while i < |users|
      invariant 0 <= i <= |users|
      invariant forall u :: u in hours <==> u in users[..i]
      invariant forall u :: u in hours ==>
                  hours[u] == Load(CellCount(rows, u, JourPlages), CellCount(rows, u, NuitPlages))
    {
      var user := users[i];
      var dayHours, nightHours := 0, 0;
      var j := 0;
      while j < |JourPlages|
        invariant 0 <= j <= |JourPlages|
        invariant dayHours == SumColumns(rows, user, JourPlages[..j])
      {
        assert JourPlages[..j + 1][..j] == JourPlages[..j];
        dayHours := dayHours + ColumnCount(rows, user, JourPlages[j]);
        j := j + 1;
      }
      j := 0;
      while j < |NuitPlages|
        invariant 0 <= j <= |NuitPlages|
        invariant nightHours == SumColumns(rows, user, NuitPlages[..j])
      {
        assert NuitPlages[..j + 1][..j] == NuitPlages[..j];
        nightHours := nightHours + ColumnCount(rows, user, NuitPlages[j]);
        j := j + 1;
      }
      assert JourPlages[..|JourPlages|] == JourPlages && NuitPlages[..|NuitPlages|] == NuitPlages;
      SumColumnsIsCellCount(rows, user, JourPlages);
      SumColumnsIsCellCount(rows, user, NuitPlages);
      hours := hours[user := Load(dayHours, nightHours)];
      assert users[..i + 1] == users[..i] + [user];
      i := i + 1;
    }
    assert users[..|users|] == users;
  }
}
