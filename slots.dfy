/** The fixed slot catalogue of the on-call planning and the label vocabulary
    that every component shares. */
module Slots {

  /** The seven time slots, in the order in which they appear as table columns.
      Note that they do not tile a day: the hour 14h-15h belongs to no slot. */
  const Plages: seq<string> := ["07h-09h", "09h-12h", "12h-14h", "15h-18h", "18h-19h", "19h-00h", "00h-07h"]

  /** The day slots counted into the "jour" bucket of the load counter. */
  const JourPlages: seq<string> := ["07h-09h", "09h-12h", "12h-14h", "15h-18h", "18h-19h"]

  /** The night slots counted into the "nuit" bucket of the load counter. */
  const NuitPlages: seq<string> := ["19h-00h", "00h-07h"]

  /** The fixed leading columns of every planning table. */
  const Columns: seq<string> := ["Date", "Jour", "Utilisateur"] + Plages

  /** The four labels that mean the person is on duty in that slot. */
  predicate Working(l: string) {
    l == "N1" || l == "N2" || l == "Backup1" || l == "Backup2"
  }

  /** The night test of the monthly sweep. */
  predicate IsNight(plage: string) {
    plage in ["19h-00h", "00h-07h"]
  }

  predicate Distinct<T(==)>(s: seq<T>) {
    forall i, j :: 0 <= i < j < |s| ==> s[i] != s[j]
  }

  /** The catalogue holds seven distinct slots, the first five are the day slots,
      the last two the night slots, and the two buckets do not overlap. */
  lemma PlagesPartition()
    ensures |Plages| == 7 && Distinct(Plages)
    ensures Plages == JourPlages + NuitPlages
    ensures forall p :: p in JourPlages ==> p !in NuitPlages
    ensures forall p :: p in Plages <==> p in JourPlages || p in NuitPlages
  {
  }

  /** The night test holds exactly for the slots of the night bucket, and for
      no day slot. */
  lemma IsNightMatchesBuckets(p: string)
    ensures IsNight(p) <==> p in NuitPlages
    ensures p in JourPlages ==> !IsNight(p)
  {
  }

  /** The schema starts with Date, Jour, Utilisateur and then lists the slots in
      catalogue order; its names are all distinct. */
  lemma ColumnsSchema()
    ensures |Columns| == 10 && Distinct(Columns)
    ensures Columns[..3] == ["Date", "Jour", "Utilisateur"] && Columns[3..] == Plages
  {
  }
}
