/** The chronotype classifier (sleep_statistic/num_to_str.py): threshold rules on a
    clock time, then a lookup of the kind's description in a table that the source
    reads from a JSON file and the model takes as a parameter. */
module NumToStr {
  import opened Wrappers

  /** A `datetime.time` built from an hour and a minute. */
  datatype ClockTime = ClockTime(hour: int, minute: int)

  /** `time` comparison: by hour, then by minute. */
  predicate Earlier(a: ClockTime, b: ClockTime) {
    a.hour < b.hour || (a.hour == b.hour && a.minute < b.minute)
  }

  const ThreeOClock := ClockTime(3, 0)
  const FiveOClock := ClockTime(5, 0)

  /** The kind of the first matching guard; exactly 05:00 matches none of them. */
  function ChronotypeLabel(t: ClockTime): (kind: string)
    ensures kind == "skylark" <==> Earlier(t, ThreeOClock)
    ensures kind == "pigeon" <==> !Earlier(t, ThreeOClock) && Earlier(t, FiveOClock)
    ensures kind == "owl" <==> Earlier(FiveOClock, t)
    ensures kind == "" <==> t == FiveOClock
  {
    if Earlier(t, ThreeOClock) then "skylark"
    else if !Earlier(t, ThreeOClock) && Earlier(t, FiveOClock) then "pigeon"
    else if Earlier(FiveOClock, t) then "owl"
    else ""
  }

  /** Position of a kind on the early-to-late scale. */
  function Rank(kind: string): int {
    if kind == "skylark" then 0 else if kind == "pigeon" then 1 else if kind == "" then 2 else 3
  }

  /** A later time never gets an earlier chronotype. */
  lemma ChronotypeLabelMonotone(a: ClockTime, b: ClockTime)
    requires Earlier(a, b)
    ensures Rank(ChronotypeLabel(a)) <= Rank(ChronotypeLabel(b))
  {
  }

  /** name -> kind -> language -> description, as the JSON file holds it. */
  type Table = map<string, map<string, map<string, string>>>

  /** `interpret_chronotype`: a missing name, kind or (for a non-empty entry)
      language is a KeyError; an empty entry describes the kind as "". */
  function InterpretChronotype(t: ClockTime, table: Table, name: string, language: string): (r: Outcome<map<string, string>>)
    ensures var kind := ChronotypeLabel(t);
      r.Ok? <==> name in table && kind in table[name] &&
                 (table[name][kind] != map[] ==> language in table[name][kind])
    ensures r.Ok? ==> |r.value.Keys| <= 1 && (r.value == map[] <==> ChronotypeLabel(t) == "")
    ensures var kind := ChronotypeLabel(t);
      r.Ok? && kind != "" ==>
        r.value.Keys == {kind} &&
        r.value[kind] == (if table[name][kind] != map[] then table[name][kind][language] else "")
  {
    var kind := ChronotypeLabel(t);
    if name !in table || kind !in table[name] then Raises
    else
      var entry := table[name][kind];
      if entry != map[] && language !in entry then Raises
      else
        var description := if entry != map[] then entry[language] else "";
        Ok(if kind != "" then map[kind := description] else map[])
  }

  /** At exactly 05:00 there is no classification, yet the table is still indexed
      with the empty kind, so a table without that entry makes the call fail. */
  lemma FiveOClockIsUnclassified(table: Table, name: string, language: string)
    requires name in table
    ensures var r := InterpretChronotype(FiveOClock, table, name, language);
      (r.Raises? <==> "" !in table[name] || (table[name][""] != map[] && language !in table[name][""])) &&
      (r.Ok? ==> r.value == map[])
  {
  }
}
