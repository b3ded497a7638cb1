/** The per-person tally behind the load charts: every slot cell becomes 1 when
    it holds a working label and 0 otherwise, each row's cells are added into a
    row total, and the totals are summed per person. The bar chart drawn from
    the tally is not part of this model. */
module Charts {
  import opened Slots
  import opened Planning
  import opened Hours

  /** The outcome of the tally: no chart for an empty table, a failure when a
      requested slot column is absent from the table, or the per-person sums. */
  datatype Chart = NoChart | MissingColumn | Summary(totals: map<string, nat>)

  /** The indicator column of slot `p`: one 0/1 entry per row. */
  function IndicatorColumn(rows: seq<Row>, p: string): (c: seq<nat>)
    ensures |c| == |rows|
    ensures forall i :: 0 <= i < |rows| ==> c[i] == Indicator(Cell(rows[i], p))
  {
    seq(|rows|, i requires 0 <= i < |rows| => Indicator(Cell(rows[i], p)))
  }

  /** How many times `p` occurs in the slot list `s`. */
  function Occurrences(s: seq<string>, p: string): nat {
    if s == [] then 0
    else Occurrences(s[..|s| - 1], p) + (if s[|s| - 1] == p then 1 else 0)
  }

  /** The column of zeros: what a rewritten column becomes when it is rewritten
      again, since none of its numbers is a working label. */
  function Zeros(n: nat): (z: seq<nat>)
    ensures |z| == n && forall i :: 0 <= i < n ==> z[i] == 0
  {
    seq(n, i => 0)
  }

  /** The slots of `s` that occur at most once in `all`, in order: the slots
      whose column still holds its 0/1 indicators once every slot of `all` has
      been rewritten. */
  function SingleSlots(s: seq<string>, all: seq<string>): (r: seq<string>)
    ensures |r| <= |s|
  {
    if s == [] then []
    else SingleSlots(s[..|s| - 1], all) + (if Occurrences(all, s[|s| - 1]) <= 1 then [s[|s| - 1]] else [])
  }

  /** The columns of `flags` after the rewrite passes of the slot list `done`:
      the indicator column of a slot rewritten once, zeros for a slot rewritten
      more than once. */
  ghost predicate FlagsOf(flags: map<string, seq<nat>>, rows: seq<Row>, done: seq<string>) {
    forall p :: p in flags ==>
      flags[p] == if Occurrences(done, p) > 1 then Zeros(|rows|) else IndicatorColumn(rows, p)
  }

  /** The row total: the sum of row `i`'s entries over the given slot columns. */
  function RowTotal(flags: map<string, seq<nat>>, slots: seq<string>, i: nat): nat
    requires forall p :: p in slots ==> p in flags && i < |flags[p]|
  {
    if slots == [] then 0
    else RowTotal(flags, slots[..|slots| - 1], i) + flags[slots[|slots| - 1]][i]
  }

  /** The sum of the row totals of person `u`. */
  function GroupSum(rows: seq<Row>, totals: seq<nat>, u: string): nat
    requires |totals| == |rows|
  {
    if rows == [] then 0
    else (if rows[0].user == u then totals[0] else 0) + GroupSum(rows[1..], totals[1..], u)
  }

  /** A slot occurs in a list exactly when it occurs at least once. */
  lemma {:induction false} OccurrencesPositive(s: seq<string>, p: string)
    ensures Occurrences(s, p) > 0 <==> p in s
  {
    if s != [] {
      var init := s[..|s| - 1];
      OccurrencesPositive(init, p);
      assert s == init + [s[|s| - 1]];
    }
  }

  lemma OccurrencesSnoc(s: seq<string>, j: nat)
    requires j < |s|
    ensures forall p :: Occurrences(s[..j + 1], p) == Occurrences(s[..j], p) + (if s[j] == p then 1 else 0)
  {
    assert s[..j + 1][..j] == s[..j];
  }

  /** A slot is kept exactly when it is in the list and occurs at most once in `all`. */
  lemma {:induction false} SingleSlotsMembers(s: seq<string>, all: seq<string>, p: string)
    ensures p in SingleSlots(s, all) <==> p in s && Occurrences(all, p) <= 1
  {
    if s != [] {
      var init := s[..|s| - 1];
      SingleSlotsMembers(init, all, p);
      assert s == init + [s[|s| - 1]];
    }
  }

  /** In a list without repetition every slot occurs at most once. */
  lemma {:induction false} DistinctOccurrences(all: seq<string>, p: string)
    requires Distinct(all)
    ensures Occurrences(all, p) <= 1
  {
    if all != [] {
      var init := all[..|all| - 1];
      assert Distinct(init) by {
        assert forall i :: 0 <= i < |init| ==> init[i] == all[i];
      }
      DistinctOccurrences(init, p);
      if all[|all| - 1] == p {
        OccurrencesPositive(init, p);
        assert p !in init by {
          assert forall i :: 0 <= i < |init| ==> init[i] == all[i];
        }
      }
    }
  }

  /** Without a repeated slot every slot keeps its indicators. */
  lemma {:induction false} SingleSlotsOfDistinct(s: seq<string>, all: seq<string>)
    requires Distinct(all)
    ensures SingleSlots(s, all) == s
  {
    if s != [] {
      SingleSlotsOfDistinct(s[..|s| - 1], all);
      DistinctOccurrences(all, s[|s| - 1]);
      assert s[..|s| - 1] + [s[|s| - 1]] == s;
    }
  }

  /** A row total over the rewritten columns is the number of the row's
      working cells over the slots rewritten only once. */
  lemma {:induction false} RowTotalIsRowCells(flags: map<string, seq<nat>>, rows: seq<Row>, s: seq<string>, all: seq<string>, i: nat)
    requires FlagsOf(flags, rows, all) && i < |rows|
    requires forall p :: p in s ==> p in flags
    ensures RowTotal(flags, s, i) == RowCells(rows[i], SingleSlots(s, all))
    ensures RowTotal(flags, s, i) <= |s|
  {
    if s == [] {
    } else {
      var init := s[..|s| - 1];
      var last := s[|s| - 1];
      assert forall p :: p in init ==> p in s;
      RowTotalIsRowCells(flags, rows, init, all, i);
      var single := SingleSlots(init, all);
      RowCellsBound(rows[i], single);
      if Occurrences(all, last) <= 1 {
        assert (single + [last])[..|single|] == single;
        assert flags[last][i] == Indicator(Cell(rows[i], last));
      } else {
        assert flags[last][i] == 0;
        assert SingleSlots(s, all) == single + [] == single;
      }
    }
  }

  /** Summing per person the row totals that count working cells gives the
      person's number of working cells. */
  lemma {:induction false} GroupSumIsCellCount(rows: seq<Row>, totals: seq<nat>, u: string, slots: seq<string>)
    requires |totals| == |rows|
    requires forall i :: 0 <= i < |rows| ==> totals[i] == RowCells(rows[i], slots)
    ensures GroupSum(rows, totals, u) == CellCount(rows, u, slots)
  {
    if rows != [] {
      GroupSumIsCellCount(rows[1..], totals[1..], u, slots);
    }
  }

  /** One rewrite pass keeps the description of the columns up to date. */
  lemma RewriteStep(flags: map<string, seq<nat>>, next: map<string, seq<nat>>, rows: seq<Row>,
                    columns: seq<string>, plages: seq<string>, j: nat)
    requires j < |plages| && FlagsOf(flags, rows, plages[..j])
    requires forall p :: p in flags <==> p in plages[..j] && p in columns
    requires next == if plages[j] !in columns then flags
                     else if plages[j] in flags then flags[plages[j] := Zeros(|rows|)]
                     else flags[plages[j] := IndicatorColumn(rows, plages[j])]
    ensures FlagsOf(next, rows, plages[..j + 1])
    ensures forall p :: p in next <==> p in plages[..j + 1] && p in columns
  {
    OccurrencesSnoc(plages, j);
    OccurrencesPositive(plages[..j], plages[j]);
    assert plages[..j + 1] == plages[..j] + [plages[j]];
  }

  /** The rewrite passes over a copy of the table: each slot of `plages` that
      is a column is rewritten in turn; a first pass turns its labels into 0/1
      indicators, a later pass over the same slot turns the numbers into zeros. */
  method RewriteColumns(rows: seq<Row>, columns: seq<string>, plages: seq<string>)
    returns (flags: map<string, seq<nat>>)
    ensures FlagsOf(flags, rows, plages)
    ensures forall p :: p in flags <==> p in plages && p in columns
  {
    flags := map[];
    var j := 0;
    while j < |plages|
      invariant 0 <= j <= |plages|
      invariant FlagsOf(flags, rows, plages[..j])
      invariant forall p :: p in flags <==> p in plages[..j] && p in columns
    {
      var col := plages[j];
      ghost var before := flags;
      if col in columns {
        if col in flags {
          flags := flags[col := Zeros(|rows|)];
        } else {
          flags := flags[col := IndicatorColumn(rows, col)];
        }
      }
      RewriteStep(before, flags, rows, columns, plages, j);
      j := j + 1;
    }
    assert plages[..|plages|] == plages;
  }

  /** The tally of the given slot columns. An empty table gives no chart; a
      requested slot that is not a column of the table makes the row sum fail;
      otherwise every person of the table gets the number of their cells that
      hold N1, N2, Backup1 or Backup2, over the slots listed once (a slot listed
      twice is rewritten twice and counts nothing); for a list without
      repetition that is over all the given slots. */
  method PlotHours(df: Frame, plages: seq<string>) returns (chart: Chart)
    ensures df.rows == [] ==> chart == NoChart
    ensures df.rows != [] && (exists p :: p in plages && p !in df.columns) ==> chart == MissingColumn
    ensures df.rows != [] && (forall p :: p in plages ==> p in df.columns) ==>
              && chart.Summary?
              && (forall u :: u in chart.totals <==> exists i :: 0 <= i < |df.rows| && df.rows[i].user == u)
              && (forall u :: u in chart.totals ==> chart.totals[u] == CellCount(df.rows, u, SingleSlots(plages, plages)))
              && (Distinct(plages) ==> forall u :: u in chart.totals ==> chart.totals[u] == CellCount(df.rows, u, plages))
  {
    if df.rows == [] {
      return NoChart;
    }
    var rows := df.rows;
    var flags := RewriteColumns(rows, df.columns, plages);
    if exists p :: p in plages && p !in df.columns {
      return MissingColumn;
    }
    var totals := seq(|rows|, i requires 0 <= i < |rows| => RowTotal(flags, plages, i));
    var single := SingleSlots(plages, plages);
    forall i | 0 <= i < |rows|
      ensures totals[i] == RowCells(rows[i], single)
    {
      RowTotalIsRowCells(flags, rows, plages, plages, i);
    }
    var users := set i | 0 <= i < |rows| :: rows[i].user;
    var summary := map u | u in users :: GroupSum(rows, totals, u);
    forall u | u in summary
      ensures summary[u] == CellCount(rows, u, single)
    {
      GroupSumIsCellCount(rows, totals, u, single);
    }
    if Distinct(plages) {
      SingleSlotsOfDistinct(plages, plages);
    }
    chart := Summary(summary);
  }

  lemma {:induction false} RowCellsAppend(r: Row, a: seq<string>, b: seq<string>)
    ensures RowCells(r, a + b) == RowCells(r, a) + RowCells(r, b)
    decreases |b|
  {
    if b == [] {
      assert a + b == a;
    } else {
      var init := b[..|b| - 1];
      RowCellsAppend(r, a, init);
      assert (a + b)[..|a + b| - 1] == a + init;
    }
  }

  lemma {:induction false} CellCountSplit(rows: seq<Row>, u: string, a: seq<string>, b: seq<string>)
    ensures CellCount(rows, u, a + b) == CellCount(rows, u, a) + CellCount(rows, u, b)
  {
    if rows != [] {
      RowCellsAppend(rows[0], a, b);
      CellCountSplit(rows[1..], u, a, b);
    }
  }

  /** The chart tally agrees with the load counter: over the day slots it is the
      "jour" count, over the night slots the "nuit" count, and over all seven
      slots their sum. */
  lemma TallyMatchesLoads(rows: seq<Row>, u: string)
    requires u in Snapshot(rows)
    ensures CellCount(rows, u, JourPlages) == Snapshot(rows)[u].jour
    ensures CellCount(rows, u, NuitPlages) == Snapshot(rows)[u].nuit
    ensures CellCount(rows, u, Plages) == Snapshot(rows)[u].jour + Snapshot(rows)[u].nuit
  {
    CellCountSplit(rows, u, JourPlages, NuitPlages);
    assert JourPlages + NuitPlages == Plages;
  }
}
