/** The per-slot assignment: for each of the tiers N1 and N2, independently,
    the least-loaded of the day's rows that carry exactly that label in the slot. */
module Assign {
  import opened Slots
  import opened Planning
  import opened Hours

  /** The two tiers the final schedule shows side by side. */
  const Tiers: seq<string> := ["N1", "N2"]

  /** The load a tier pick looks at: the night bucket for a night slot, the day
      bucket otherwise; a person absent from the load map counts as 0. */
  function LoadOf(hours: map<string, Load>, u: string, isNight: bool): nat {
    if u !in hours then 0 else if isNight then hours[u].nuit else hours[u].jour
  }

  /** The persons of the rows that carry exactly `tier` in `plage`, one entry
      per such row, in row order. */
  function Candidates(dayRows: seq<Row>, plage: string, tier: string): (c: seq<string>)
    ensures |c| <= |dayRows|
  {
    if dayRows == [] then []
    else (if Cell(dayRows[0], plage) == tier then [dayRows[0].user] else [])
         + Candidates(dayRows[1..], plage, tier)
  }

  /** A person is a candidate exactly when one of the day's rows is theirs and
      carries the tier's label in the slot. */
  lemma {:induction false} CandidatesMembers(dayRows: seq<Row>, plage: string, tier: string, u: string)
    ensures u in Candidates(dayRows, plage, tier) <==>
              exists i :: 0 <= i < |dayRows| && dayRows[i].user == u && Cell(dayRows[i], plage) == tier
  {
    if dayRows != [] {
      CandidatesMembers(dayRows[1..], plage, tier, u);
      if exists i :: 0 <= i < |dayRows| && dayRows[i].user == u && Cell(dayRows[i], plage) == tier {
        var i :| 0 <= i < |dayRows| && dayRows[i].user == u && Cell(dayRows[i], plage) == tier;
        if i > 0 {
          assert dayRows[1..][i - 1] == dayRows[i];
        }
      }
      if u in Candidates(dayRows[1..], plage, tier) {
        var i :| 0 <= i < |dayRows[1..]| && dayRows[1..][i].user == u && Cell(dayRows[1..][i], plage) == tier;
        assert dayRows[i + 1] == dayRows[1..][i];
      }
    }
  }

  /** There are no candidates exactly when no row of the day carries the label. */
  lemma {:induction false} CandidatesEmpty(dayRows: seq<Row>, plage: string, tier: string)
    ensures Candidates(dayRows, plage, tier) == [] <==>
              forall i :: 0 <= i < |dayRows| ==> Cell(dayRows[i], plage) != tier
  {
    if dayRows != [] {
      CandidatesEmpty(dayRows[1..], plage, tier);
      assert forall i :: 1 <= i < |dayRows| ==> dayRows[1..][i - 1] == dayRows[i];
    }
  }

  /** There are several candidates exactly when two different rows of the day
      carry the label: rows are counted, so one person with two such rows is
      two candidates. */
  lemma {:induction false} CandidatesSeveral(dayRows: seq<Row>, plage: string, tier: string)
    ensures |Candidates(dayRows, plage, tier)| > 1 <==>
              exists i, j :: 0 <= i < j < |dayRows| && Cell(dayRows[i], plage) == tier && Cell(dayRows[j], plage) == tier
  {
    if dayRows != [] {
      var tail := dayRows[1..];
      CandidatesSeveral(tail, plage, tier);
      CandidatesEmpty(tail, plage, tier);
      if exists i, j :: 0 <= i < j < |dayRows| && Cell(dayRows[i], plage) == tier && Cell(dayRows[j], plage) == tier {
        var i, j :| 0 <= i < j < |dayRows| && Cell(dayRows[i], plage) == tier && Cell(dayRows[j], plage) == tier;
        assert tail[j - 1] == dayRows[j];
        if i > 0 {
          assert tail[i - 1] == dayRows[i];
        }
      }
      if |Candidates(dayRows, plage, tier)| > 1 {
        if Cell(dayRows[0], plage) == tier && Candidates(tail, plage, tier) != [] {
          var k :| 0 <= k < |tail| && Cell(tail[k], plage) == tier;
          assert Cell(dayRows[k + 1], plage) == tier;
        } else {
          var i, j :| 0 <= i < j < |tail| && Cell(tail[i], plage) == tier && Cell(tail[j], plage) == tier;
          assert tail[i] == dayRows[i + 1] && tail[j] == dayRows[j + 1];
        }
      }
    }
  }

  /** The loads of the candidates, in candidate order. */
  function Loads(cands: seq<string>, hours: map<string, Load>, isNight: bool): (l: seq<nat>)
    ensures |l| == |cands|
    ensures forall i :: 0 <= i < |cands| ==> l[i] == LoadOf(hours, cands[i], isNight)
  {
    seq(|cands|, i requires 0 <= i < |cands| => LoadOf(hours, cands[i], isNight))
  }

  /** The position of the first smallest value: the first row after sorting by
      load, when equal loads keep their row order. */
  function MinIndex(s: seq<nat>): (k: nat)
    requires |s| > 0
    ensures k < |s|
    ensures forall j :: 0 <= j < |s| ==> s[k] <= s[j]
    ensures forall j :: 0 <= j < k ==> s[j] > s[k]
  {
    if |s| == 1 then 0
    else
      var k := MinIndex(s[..|s| - 1]);
      assert forall j :: 0 <= j < |s| - 1 ==> s[..|s| - 1][j] == s[j];
      if s[|s| - 1] < s[k] then |s| - 1 else k
  }

  /** The pick of one tier: "" when no row of the day carries the label;
      otherwise a candidate whose load is not above any other candidate's,
      the first such in row order. */
  function Pick(dayRows: seq<Row>, plage: string, tier: string, hours: map<string, Load>, isNight: bool): (u: string)
    ensures Candidates(dayRows, plage, tier) == [] ==> u == ""
    ensures Candidates(dayRows, plage, tier) != [] ==>
              && u in Candidates(dayRows, plage, tier)
              && forall c :: c in Candidates(dayRows, plage, tier) ==> LoadOf(hours, u, isNight) <= LoadOf(hours, c, isNight)
  {
    var cands := Candidates(dayRows, plage, tier);
    if cands == [] then ""
    else
      var loads := Loads(cands, hours, isNight);
      var k := MinIndex(loads);
      assert forall c :: c in cands ==> exists j :: 0 <= j < |cands| && cands[j] == c && loads[j] == LoadOf(hours, c, isNight);
      cands[k]
  }

  /** What the pick means in terms of the day's rows: "" when none carries the
      tier; otherwise the person of such a row, and no other row that carries
      the tier belongs to a person with a smaller load. */
  lemma PickIsLeastLoadedRow(dayRows: seq<Row>, plage: string, tier: string, hours: map<string, Load>, isNight: bool)
    ensures (forall i :: 0 <= i < |dayRows| ==> Cell(dayRows[i], plage) != tier) ==>
              Pick(dayRows, plage, tier, hours, isNight) == ""
    ensures forall i :: 0 <= i < |dayRows| && Cell(dayRows[i], plage) == tier ==>
              && (exists j :: 0 <= j < |dayRows| && Cell(dayRows[j], plage) == tier
                    && dayRows[j].user == Pick(dayRows, plage, tier, hours, isNight))
              && LoadOf(hours, Pick(dayRows, plage, tier, hours, isNight), isNight) <= LoadOf(hours, dayRows[i].user, isNight)
  {
    var u := Pick(dayRows, plage, tier, hours, isNight);
    CandidatesEmpty(dayRows, plage, tier);
    CandidatesMembers(dayRows, plage, tier, u);
    forall i | 0 <= i < |dayRows| && Cell(dayRows[i], plage) == tier
      ensures dayRows[i].user in Candidates(dayRows, plage, tier)
    {
      CandidatesMembers(dayRows, plage, tier, dayRows[i].user);
    }
  }

  /** The assignment of one slot of one day: a dictionary with the keys N1 and
      N2, each holding that tier's pick. The loop fills the tiers in turn. */
  method AssignPlageFinal(dayRows: seq<Row>, plage: string, hours: map<string, Load>, isNight: bool)
    returns (result: map<string, string>)
    ensures result.Keys == {"N1", "N2"}
    ensures result["N1"] == Pick(dayRows, plage, "N1", hours, isNight)
    ensures result["N2"] == Pick(dayRows, plage, "N2", hours, isNight)
  {
    result := map["N1" := "", "N2" := ""];
    var t := 0;
    while t < |Tiers|
      invariant 0 <= t <= |Tiers|
      invariant result.Keys == {"N1", "N2"}
      invariant result["N1"] == if t > 0 then Pick(dayRows, plage, "N1", hours, isNight) else ""
      invariant result["N2"] == if t > 1 then Pick(dayRows, plage, "N2", hours, isNight) else ""
    {
      var priority := Tiers[t];
      var usersPriority := Candidates(dayRows, plage, priority);
      if |usersPriority| > 0 {
        var totalHours := Loads(usersPriority, hours, isNight);
        var selectedUser := usersPriority[MinIndex(totalHours)];
        assert selectedUser == Pick(dayRows, plage, priority, hours, isNight);
        result := result[priority := selectedUser];
      }
      t := t + 1;
    }
  }
}
