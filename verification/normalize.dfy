/** The record normalizer: date reconstruction from the separate year, month
    and day fields, and relabelling of taxonomic groups through a fixed
    table. */
module Normalize {
  import opened Options
  import opened Seqs
  import opened Decimal
  import opened Occurrences

  /** The month assumed when a record has none (June). */
  const DefaultMonth := 6
  /** The day assumed when a record has none. */
  const DefaultDay := 15

  predicate HasYear(raw: RawRecord) {
    raw.year.Some?
  }

  /** Date reconstruction of one record with a year: a missing month becomes
      6, a missing day 15, present ones are kept, and the date string is built
      from the three; everything else is carried over. */
  function NormalizeDate(raw: RawRecord): (r: Record)
    requires HasYear(raw)
    ensures r.attrs == raw.attrs && r.year == raw.year.value
    ensures r.month == (if raw.month.Some? then raw.month.value else DefaultMonth)
    ensures r.day == (if raw.day.Some? then raw.day.value else DefaultDay)
  {
    var month := raw.month.GetOr(DefaultMonth);
    var day := raw.day.GetOr(DefaultDay);
    Record(raw.attrs, raw.year.value, month, day, DateString(raw.year.value, month, day))
  }

  /** What one input record becomes: nothing without a year. */
  function CleanOne(raw: RawRecord): seq<Record> {
    if HasYear(raw) then [NormalizeDate(raw)] else []
  }

  /** What one record contributes: its normalized self exactly when it has a
      year. */
  lemma CleanOneMembers()
    ensures forall raw, x :: x in CleanOne(raw) <==> HasYear(raw) && x == NormalizeDate(raw)
  {
  }

  /** Drops the records without a year and normalizes the dates of the rest. */
  function CleanDates(rs: seq<RawRecord>): (r: seq<Record>)
    ensures forall raw :: raw in rs && HasYear(raw) ==> NormalizeDate(raw) in r
    ensures forall x :: x in r ==> exists raw :: raw in rs && HasYear(raw) && NormalizeDate(raw) == x
  {
    FlatMapMembers(rs, CleanOne);
    CleanOneMembers();
    FlatMap(rs, CleanOne)
  }

  /** Date cleaning leaves nothing exactly when no input record has a year;
      the script then has no rows to build a date for. */
  lemma CleanDatesEmptyIff(rs: seq<RawRecord>)
    ensures CleanDates(rs) == [] <==> forall raw :: raw in rs ==> !HasYear(raw)
  {
    var r := CleanDates(rs);
    if r != [] {
      assert r[0] in r;
    }
  }

  /** The induction behind `CleanDatesKeepsYearedInOrder`, stated on the
      bare concatenation. */
  lemma {:induction false} CleanOneInOrder(rs: seq<RawRecord>)
    ensures var out, kept := FlatMap(rs, CleanOne), Filter(rs, HasYear);
            && |out| == |kept|
            && forall i :: 0 <= i < |kept| ==> HasYear(kept[i]) && out[i] == NormalizeDate(kept[i])
    decreases |rs|
  {
    if rs != [] {
      CleanOneInOrder(rs[1..]);
      var out, kept := FlatMap(rs, CleanOne), Filter(rs, HasYear);
      var restOut, restKept := FlatMap(rs[1..], CleanOne), Filter(rs[1..], HasYear);
      if HasYear(rs[0]) {
        assert out == [NormalizeDate(rs[0])] + restOut;
        assert kept == [rs[0]] + restKept;
        forall i | 0 < i < |kept|
          ensures HasYear(kept[i]) && out[i] == NormalizeDate(kept[i])
        {
          assert kept[i] == restKept[i - 1] && out[i] == restOut[i - 1];
        }
      } else {
        assert out == restOut;
        assert kept == restKept;
      }
    }
  }

  /** The cleaned records are the records that had a year, one for one and
      in their original order, each with its date normalized. */
  lemma CleanDatesKeepsYearedInOrder(rs: seq<RawRecord>)
    ensures var kept := Filter(rs, HasYear);
            && |CleanDates(rs)| == |kept|
            && forall i :: 0 <= i < |kept| ==> HasYear(kept[i]) && CleanDates(rs)[i] == NormalizeDate(kept[i])
  {
    CleanOneInOrder(rs);
  }

  /** Every input record is either kept or counted as dropped for its missing
      year. */
  lemma {:induction false} CleanDatesAccounting(rs: seq<RawRecord>)
    ensures |CleanDates(rs)| + |Filter(rs, (raw: RawRecord) => !HasYear(raw))| == |rs|
    decreases |rs|
  {
    if rs != [] {
      CleanDatesAccounting(rs[1..]);
      assert CleanDates(rs) == CleanOne(rs[0]) + CleanDates(rs[1..]);
      if HasYear(rs[0]) {
        assert Filter(rs, (raw: RawRecord) => !HasYear(raw)) == Filter(rs[1..], (raw: RawRecord) => !HasYear(raw));
      } else {
        assert Filter(rs, (raw: RawRecord) => !HasYear(raw)) == [rs[0]] + Filter(rs[1..], (raw: RawRecord) => !HasYear(raw));
      }
    }
  }

  /** The date string of a cleaned record encodes its year, month and day:
      for a non-negative year and a month and day below 100 it parses back to
      them. */
  lemma NormalizedDateParses(raw: RawRecord)
    requires HasYear(raw) && raw.year.value >= 0
    requires raw.month.None? || 0 <= raw.month.value < 100
    requires raw.day.None? || 0 <= raw.day.value < 100
    ensures var r := NormalizeDate(raw);
            ParseDate(r.date) == Some((raw.year.value, r.month, r.day))
  {
    var r := NormalizeDate(raw);
    DateRoundTrip(r.year, r.month, r.day);
  }

  /** A record with year 2010 and neither month nor day is dated
      "2010-06-15". */
  lemma NormalizeDateExample(attrs: Attributes)
    ensures NormalizeDate(RawRecord(attrs, Some(2010), None, None)).date == "2010-06-15"
  {
  }

  /** The fixed table that folds fine-grained group labels into coarser
      ones. */
  const GroupNameChanges: map<string, string> := map[
    "Amphibians-Frogs" := "Amphibians",
    "Crustaceans-Crabs" := "Crustaceans",
    "Marine Fishes" := "Fishes",
    "Mollusks-Bivalves" := "Mollusks",
    "Mollusks-Gastropods" := "Mollusks",
    "Reptiles-Lizards" := "Reptiles",
    "Reptiles-Snakes" := "Reptiles",
    "Reptiles-Turtles" := "Reptiles"
  ]

  /** No label the table produces is itself relabelled by the table. */
  predicate NoChains(table: map<string, string>) {
    forall k :: k in table ==> table[k] !in table
  }

  /** A single replacement through the table: keys are mapped, every other
      label passes through. */
  function Relabel(table: map<string, string>, name: string): (r: string)
    ensures name in table ==> r == table[name]
    ensures name !in table ==> r == name
  {
    if name in table then table[name] else name
  }

  /** Relabelling twice is relabelling once, for a table without chains. */
  lemma RelabelIdempotent(table: map<string, string>, name: string)
    requires NoChains(table)
    ensures Relabel(table, Relabel(table, name)) == Relabel(table, name)
  {
  }

  lemma GroupTableHasNoChains()
    ensures NoChains(GroupNameChanges)
  {
  }

  /** The table's effect on three labels: two are folded, one is not in the
      table. */
  lemma GroupRelabelExamples()
    ensures Relabel(GroupNameChanges, "Mollusks-Bivalves") == "Mollusks"
    ensures Relabel(GroupNameChanges, "Amphibians-Frogs") == "Amphibians"
    ensures Relabel(GroupNameChanges, "Birds") == "Birds"
  {
  }

  function RelabelRecord(table: map<string, string>, r: Record): Record {
    r.(attrs := r.attrs.(group := Relabel(table, r.attrs.group)))
  }

  /** Relabels the group of every record and changes nothing else: same
      records, same order, every other field untouched. */
  function RenameGroups(rs: seq<Record>, table: map<string, string>): (out: seq<Record>)
    ensures |out| == |rs|
    ensures forall i :: 0 <= i < |rs| ==> out[i].attrs.group == Relabel(table, rs[i].attrs.group)
    ensures forall i :: 0 <= i < |rs| ==>
              out[i] == rs[i].(attrs := rs[i].attrs.(group := out[i].attrs.group))
  {
    Map(rs, r => RelabelRecord(table, r))
  }

  /** Renaming the groups of a whole record list twice is renaming once. */
  lemma RenameGroupsIdempotent(rs: seq<Record>, table: map<string, string>)
    requires NoChains(table)
    ensures RenameGroups(RenameGroups(rs, table), table) == RenameGroups(rs, table)
  {
  }
}
