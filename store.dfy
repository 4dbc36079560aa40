/** The database as an object whose tables the import and the recommendation
    tasks update in place (sleep_tracking_app/tasks.py and its twin in
    sleep_tracing_app). Every method is proved to leave the store in the state
    that the specification functions of `Tasks` compute. */
module Store {
  import opened Wrappers
  import opened Models
  import CsvExtraction
  import RagService
  import opened Tasks

  /** The progress reported by the upsert loop: `(processed, total)` after each of `n` rows. */
  function Progress(n: nat): (r: seq<(nat, nat)>)
    ensures |r| == n
    ensures forall k :: 0 <= k < n ==> r[k] == (k + 1, n)
  {
    seq(n, k requires 0 <= k < n => (k + 1, n))
  }

  lemma ProgressStep(n: nat, i: nat, progress: seq<(nat, nat)>)
    requires i < n && progress == Progress(n)[..i]
    ensures progress + [(i + 1, n)] == Progress(n)[..i + 1]
  {
  }

  /** The segment loop of lines 91-102: one row per item of a listed session;
      `ok` is false when the insert would fail. */
  method PrepareSegments(items: seq<CsvExtraction.ItemRow>, ids: map<int, nat>) returns (ok: bool, segs: seq<SegmentRow>)
    ensures ok <==> NewSegments(items, ids).Ok?
    ensures ok ==> segs == NewSegments(items, ids).value
  {
    segs := [];
    for i := 0 to |items|
      invariant NewSegments(items[..i], ids) == Ok(segs)
    {
      var item := items[i];
      assert items[..i + 1][..i] == items[..i];
      if item.time in ids {
        var s := SegmentOf(item.fields);
        if s.None? {
          assert items[i].time in ids && SegmentOf(items[i].fields).None?;
          return false, segs;
        }
        segs := segs + [SegmentRow(ids[item.time], s.value)];
      }
    }
    assert items[..|items|] == items;
    ok := true;
  }

  /** The order-preserving lookup of lines 159-164: the rows of the listed ids
      that exist, in list order; unknown ids are dropped. */
  function OrderedLookup<T>(m: map<nat, T>, ids: seq<nat>): (r: seq<T>)
    ensures |r| <= |ids|
    ensures forall i :: 0 <= i < |ids| && ids[i] in m ==> m[ids[i]] in r
    ensures forall x :: x in r ==> exists i :: 0 <= i < |ids| && ids[i] in m && m[ids[i]] == x
  {
    if ids == [] then []
    else
      var init := ids[..|ids| - 1];
      var last := ids[|ids| - 1];
      var r0 := OrderedLookup(m, init);
      assert forall i :: 0 <= i < |init| ==> init[i] == ids[i];
      r0 + (if last in m then [m[last]] else [])
  }

  /** The first listed id that exists. */
  function FirstKnown<T>(m: map<nat, T>, ids: seq<nat>): (r: Option<nat>)
    ensures r.None? <==> forall i :: 0 <= i < |ids| ==> ids[i] !in m
    ensures r.Some? ==> r.value in m && exists i :: 0 <= i < |ids| && ids[i] == r.value && forall j :: 0 <= j < i ==> ids[j] !in m
  {
    if ids == [] then None
    else if ids[0] in m then Some(ids[0])
    else
      var r := FirstKnown(m, ids[1..]);
      assert forall i :: 0 <= i < |ids[1..]| ==> ids[1..][i] == ids[i + 1];
      if r.Some? then
        var i :| 0 <= i < |ids[1..]| && ids[1..][i] == r.value && forall j :: 0 <= j < i ==> ids[1..][j] !in m;
        assert ids[i + 1] == r.value && forall j :: 0 <= j < i + 1 ==> ids[j] !in m;
        r
      else r
  }

  /** Looking up a concatenation of id lists concatenates the lookups. */
  lemma {:induction false} OrderedLookupAppend<T>(m: map<nat, T>, a: seq<nat>, b: seq<nat>)
    ensures OrderedLookup(m, a + b) == OrderedLookup(m, a) + OrderedLookup(m, b)
    decreases |b|
  {
    if b == [] {
      assert a + b == a;
    } else {
      var b0, last := b[..|b| - 1], b[|b| - 1];
      OrderedLookupAppend(m, a, b0);
      assert (a + b)[..|a + b| - 1] == a + b0;
      LookupUnfold(m, a + b, a + b0, last);
      LookupUnfold(m, b, b0, last);
      AppendAssoc(OrderedLookup(m, a), OrderedLookup(m, b0), if last in m then [m[last]] else []);
    }
  }

  lemma AppendAssoc<T>(x: seq<T>, y: seq<T>, z: seq<T>)
    ensures (x + y) + z == x + (y + z)
  {
  }

  /** One step of `OrderedLookup`: the lookup of all ids but the last, then the last one's row. */
  lemma LookupUnfold<T>(m: map<nat, T>, ids: seq<nat>, init: seq<nat>, last: nat)
    requires ids != [] && init == ids[..|ids| - 1] && last == ids[|ids| - 1]
    ensures OrderedLookup(m, ids) == OrderedLookup(m, init) + (if last in m then [m[last]] else [])
  {
  }

  /** The lookup is empty exactly when no listed id exists, and it starts with
      the row of the first id that does. */
  lemma {:induction false} OrderedLookupStartsWithFirstKnown<T>(m: map<nat, T>, ids: seq<nat>)
    ensures OrderedLookup(m, ids) == [] <==> FirstKnown(m, ids).None?
    ensures FirstKnown(m, ids).Some? ==> OrderedLookup(m, ids)[0] == m[FirstKnown(m, ids).value]
    decreases |ids|
  {
    if ids != [] {
      OrderedLookupAppend(m, [ids[0]], ids[1..]);
      assert [ids[0]] + ids[1..] == ids;
      assert [ids[0]][..0] == [];
      OrderedLookupStartsWithFirstKnown(m, ids[1..]);
    }
  }

  const InsufficientData := "Недостаточно данных для анализа сна."
  const GenerationError := "Ошибка генерации рекомендаций."

  /** `sleep_recommended` (lines 146-204) as a function of the store: `gemini`
      stands for the prompt building and the first model call, `enhance` for the
      retrieval-augmented second pass. Only the first existing statistics row of
      the list gets the recommendation, and the task answers with it. */
  function RecommendSpec(db: Db, recordIds: seq<nat>, statIds: seq<nat>,
                         gemini: (seq<StatisticsRow>, seq<SleepRecord>) -> string,
                         enhance: string -> RagService.EnhanceResult): (string, Db)
  {
    var records := OrderedLookup(db.records, recordIds);
    var stats := OrderedLookup(db.statistics, statIds);
    if records == [] || stats == [] then (InsufficientData, db)
    else
      var g := gemini(stats, records);
      if g == "" then (GenerationError, db)
      else
        var final := enhance(g).enhanced;
        assert stats[0] in stats;
        var id := FirstKnown(db.statistics, statIds).value;
        (final, db.(statistics := db.statistics[id := db.statistics[id].(recommended := Some(final))]))
  }

  /** Without a known record or a known statistics row nothing is written and
      the task answers that the data do not suffice. */
  lemma RecommendNeedsData(db: Db, recordIds: seq<nat>, statIds: seq<nat>,
                           gemini: (seq<StatisticsRow>, seq<SleepRecord>) -> string,
                           enhance: string -> RagService.EnhanceResult)
    ensures (forall i :: 0 <= i < |recordIds| ==> recordIds[i] !in db.records) ||
            (forall i :: 0 <= i < |statIds| ==> statIds[i] !in db.statistics) ==>
      RecommendSpec(db, recordIds, statIds, gemini, enhance) == (InsufficientData, db)
  {
    OrderedLookupStartsWithFirstKnown(db.records, recordIds);
    OrderedLookupStartsWithFirstKnown(db.statistics, statIds);
  }

  /** A recommendation changes only the `recommended` field of the first known
      statistics row, which then holds the enhanced text the task answers with;
      an empty first answer writes nothing. */
  lemma RecommendWritesFirstKnownStatistic(db: Db, recordIds: seq<nat>, statIds: seq<nat>,
                                           gemini: (seq<StatisticsRow>, seq<SleepRecord>) -> string,
                                           enhance: string -> RagService.EnhanceResult)
    requires OrderedLookup(db.records, recordIds) != [] && OrderedLookup(db.statistics, statIds) != []
    ensures FirstKnown(db.statistics, statIds).Some?
    ensures gemini(OrderedLookup(db.statistics, statIds), OrderedLookup(db.records, recordIds)) == "" ==>
      RecommendSpec(db, recordIds, statIds, gemini, enhance) == (GenerationError, db)
    ensures gemini(OrderedLookup(db.statistics, statIds), OrderedLookup(db.records, recordIds)) != "" ==>
      RecommendedOnlyAt(db, RecommendSpec(db, recordIds, statIds, gemini, enhance),
        FirstKnown(db.statistics, statIds).value,
        enhance(gemini(OrderedLookup(db.statistics, statIds), OrderedLookup(db.records, recordIds))).enhanced)
  {
    OrderedLookupStartsWithFirstKnown(db.statistics, statIds);
  }

  /** `after` is `db` with row `id`'s recommendation set to `text`, the reply being `text`. */
  predicate RecommendedOnlyAt(db: Db, after: (string, Db), id: nat, text: string) {
    var (reply, d) := after;
    reply == text &&
    id in d.statistics && d.statistics[id].recommended == Some(text) &&
    d.records == db.records && d.index == db.index && d.segments == db.segments && d.heartRates == db.heartRates &&
    d.nextRecordId == db.nextRecordId && d.nextStatId == db.nextStatId &&
    d.statistics.Keys == db.statistics.Keys &&
    (forall k :: k in db.statistics && k != id ==> d.statistics[k] == db.statistics[k]) &&
    id in db.statistics && d.statistics[id] == db.statistics[id].(recommended := Some(text))
  }

  /** The single-id `sleep_recommended` of sleep_tracing_app/tasks.py (lines
      138-147): a missing record or statistics row raises; otherwise `rec`, the
      generated text, is stored in the row and returned. */
  function RecommendSingleSpec(db: Db, recordId: nat, statId: nat, rec: (SleepRecord, StatisticsRow) -> string): (Outcome<string>, Db) {
    if recordId !in db.records || statId !in db.statistics then (Raises, db)
    else
      var text := rec(db.records[recordId], db.statistics[statId]);
      (Ok(text), db.(statistics := db.statistics[statId := db.statistics[statId].(recommended := Some(text))]))
  }

  /** The task stores exactly the generated text and returns it, touching
      nothing else; an unknown id changes nothing. */
  lemma RecommendSingleStoresText(db: Db, recordId: nat, statId: nat, rec: (SleepRecord, StatisticsRow) -> string)
    ensures RecommendSingleSpec(db, recordId, statId, rec).0.Raises? <==> recordId !in db.records || statId !in db.statistics
    ensures RecommendSingleSpec(db, recordId, statId, rec).0.Raises? ==> RecommendSingleSpec(db, recordId, statId, rec).1 == db
    ensures recordId in db.records && statId in db.statistics ==>
      RecommendedOnlyAt(db, (RecommendSingleSpec(db, recordId, statId, rec).0.value, RecommendSingleSpec(db, recordId, statId, rec).1),
        statId, rec(db.records[recordId], db.statistics[statId]))
  {
  }

  /** The store: the four tables, the unique index on (user, sleep_date_time)
      and the next primary keys. */
  class SleepStore {
    var records: map<nat, SleepRecord>
    var index: map<Key, nat>
    var segments: seq<SegmentRow>
    var heartRates: seq<HeartRateRow>
    var statistics: map<nat, StatisticsRow>
    var nextRecordId: nat
    var nextStatId: nat

    /** The store's contents as a value. */
    function State(): Db
      reads this
    {
      Db(records, index, segments, heartRates, statistics, nextRecordId, nextStatId)
    }

    predicate Valid()
      reads this
    {
      DbValid(State())
    }

    /** An empty store. */
    constructor ()
      ensures State() == Db(map[], map[], [], [], map[], 0, 0)
      ensures Valid()
    {
      records := map[];
      index := map[];
      segments := [];
      heartRates := [];
      statistics := map[];
      nextRecordId := 0;
      nextStatId := 0;
    }

    /** Puts back a saved state: the rollback of `transaction.atomic`. */
    method Restore(d: Db)
      modifies this
      ensures State() == d
    {
      records, index, segments, heartRates := d.records, d.index, d.segments, d.heartRates;
      statistics, nextRecordId, nextStatId := d.statistics, d.nextRecordId, d.nextStatId;
    }

    /** `SleepRecord.objects.update_or_create` on the natural key. */
    method UpdateOrCreate(user: nat, time: int, fields: SessionFields) returns (id: nat)
      requires Valid()
      modifies this
      ensures (State(), id) == UpsertOne(old(State()), user, time, fields)
      ensures Valid()
    {
      var record := SleepRecord(user, time, fields);
      if (user, time) in index {
        id := index[(user, time)];
        records := records[id := record];
      } else {
        id := nextRecordId;
        records := records[id := record];
        index := index[(user, time) := id];
        nextRecordId := id + 1;
      }
      UpsertOneKeepsValid(old(State()), user, time, fields);
    }

    /** Lines 52-78: the upsert loop, filling `record_map` and reporting progress.
        A row whose save raises stops the loop before its progress report; the
        caller then rolls back. */
    method UpsertSessions(user: nat, meta: seq<CsvExtraction.MetaRow>) returns (ok: bool, rm: RecordMap, progress: seq<(nat, nat)>)
      requires Valid()
      modifies this
      ensures ok <==> FirstUnsavable(meta) == |meta|
      ensures ok ==> (State(), rm) == UpsertAll(old(State()), user, meta)
      ensures !ok ==> State() == UpsertAll(old(State()), user, meta[..FirstUnsavable(meta)]).0
      ensures Valid()
      ensures progress == Progress(|meta|)[..FirstUnsavable(meta)]
    {
      var times: seq<int> := [];
      var ids: map<int, nat> := map[];
      var processed: nat := 0;
      progress := [];
      for i := 0 to |meta|
        invariant (State(), RecordMap(times, ids)) == UpsertAll(old(State()), user, meta[..i])
        invariant Valid()
        invariant processed == i && progress == Progress(|meta|)[..i]
        invariant i <= FirstUnsavable(meta)
      {
        var row := meta[i];
        FirstUnsavableStep(meta, i);
        if !RowSavable(meta, i) {
          return false, RecordMap(times, ids), progress;
        }
        ghost var before, rm0 := State(), RecordMap(times, ids);
        var id := UpdateOrCreate(user, row.time, FieldsOf(row.fields));
        if row.time !in ids {
          times := times + [row.time];
        }
        ids := ids[row.time := id];
        UpsertAllStep(old(State()), user, meta, i, before, rm0, State(), id);
        ProgressStep(|meta|, i, progress);
        processed := processed + 1;
        progress := progress + [(processed, |meta|)];
      }
      assert meta[..|meta|] == meta;
      assert Progress(|meta|)[..|meta|] == Progress(|meta|);
      ok, rm := true, RecordMap(times, ids);
    }

    /** Lines 81-83: the old child rows of the upserted records and all of the
        user's statistics are deleted. */
    method DeleteOldChildren(user: nat, ids: set<nat>)
      modifies this
      ensures State() == DeleteChildren(old(State()), user, ids)
    {
      segments := RowsOutside(segments, SegmentRecord, ids);
      heartRates := RowsOutside(heartRates, HeartRateRecord, ids);
      statistics := map id | id in statistics && statistics[id].user != user :: statistics[id];
    }

    /** Lines 105-113: the samples of every listed record, record by record. */
    method PrepareHeartRates(rm: RecordMap, night: seq<CsvExtraction.NightSample>) returns (ok: bool, hrs: seq<HeartRateRow>)
      requires RecordMapIn(rm, records)
      ensures ok <==> NewHeartRates(records, rm, night).Ok?
      ensures ok ==> hrs == NewHeartRates(records, rm, night).value
    {
      hrs := [];
      for j := 0 to |rm.times|
        invariant RecordMapIn(RecordMap(rm.times[..j], rm.ids), records)
        invariant NewHeartRates(records, RecordMap(rm.times[..j], rm.ids), night) == Ok(hrs)
      {
        var id := rm.ids[rm.times[j]];
        var record := records[id];
        var more := HeartRatesOf(id, record.fields.deviceBedtime, record.fields.deviceWakeUpTime, night);
        assert rm.times[..j + 1][..j] == rm.times[..j];
        assert RecordMapIn(RecordMap(rm.times[..j + 1], rm.ids), records);
        assert HeartRatesAt(records, rm, night, j) == more;
        if more.Raises? {
          return false, hrs;
        }
        hrs := hrs + more.value;
      }
      assert rm.times[..|rm.times|] == rm.times;
      ok := true;
    }

    /** Lines 120-135: one statistics row per listed record, from the record and
        its stored segments. */
    method PrepareStatistics(user: nat, rm: RecordMap, p: ProfileValues) returns (ok: bool, rows: seq<StatisticsRow>)
      requires RecordMapIn(rm, records)
      ensures ok <==> NewStatistics(State(), user, rm, p).Ok?
      ensures ok ==> rows == NewStatistics(State(), user, rm, p).value
    {
      rows := [];
      for j := 0 to |rm.times|
        invariant RecordMapIn(RecordMap(rm.times[..j], rm.ids), records)
        invariant NewStatistics(State(), user, RecordMap(rm.times[..j], rm.ids), p) == Ok(rows)
      {
        var id := rm.ids[rm.times[j]];
        var row := StatisticsFor(user, records[id], SegmentsOf(segments, id), p);
        assert rm.times[..j + 1][..j] == rm.times[..j];
        assert RecordMapIn(RecordMap(rm.times[..j + 1], rm.ids), records);
        if row.Raises? {
          assert !MetricsDefinedAt(State(), rm, j);
          return false, rows;
        }
        rows := rows + [row.value];
      }
      assert rm.times[..|rm.times|] == rm.times;
      ok := true;
    }

    /** Lines 86-117: the segment and heart-rate rows of the listed records are
        built, then appended; nothing is written when one of them cannot be built. */
    method AttachChildren(rm: RecordMap, tables: CsvExtraction.SleepExport) returns (ok: bool)
      requires RecordMapIn(rm, records)
      modifies this
      ensures ok <==> NewSegments(tables.items, rm.ids).Ok? && NewHeartRates(old(records), rm, tables.night).Ok?
      ensures ok ==> State() == old(State()).(segments := old(segments) + NewSegments(tables.items, rm.ids).value,
                                               heartRates := old(heartRates) + NewHeartRates(old(records), rm, tables.night).value)
      ensures !ok ==> State() == old(State())
    {
      var segsOk, segs := PrepareSegments(tables.items, rm.ids);
      if !segsOk {
        return false;
      }
      var hrsOk, hrs := PrepareHeartRates(rm, tables.night);
      if !hrsOk {
        return false;
      }
      segments := segments + segs;
      heartRates := heartRates + hrs;
      ok := true;
    }

    /** Lines 119-138: the new statistics rows, under consecutive ids from
        `nextStatId`; nothing is written when one of them cannot be computed. */
    method AddNewStatistics(user: nat, rm: RecordMap, p: ProfileValues) returns (ok: bool)
      requires RecordMapIn(rm, records)
      modifies this
      ensures ok <==> NewStatistics(old(State()), user, rm, p).Ok?
      ensures ok ==> State() == old(State()).(
        statistics := AddStatistics(old(statistics), old(nextStatId), NewStatistics(old(State()), user, rm, p).value),
        nextStatId := old(nextStatId) + |NewStatistics(old(State()), user, rm, p).value|)
      ensures !ok ==> State() == old(State())
    {
      var statsOk, rows := PrepareStatistics(user, rm, p);
      if !statsOk {
        return false;
      }
      statistics := AddStatistics(statistics, nextStatId, rows);
      nextStatId := nextStatId + |rows|;
      ok := true;
    }

    /** Lines 80-138 once the records are upserted. On failure the records are
        untouched; the caller rolls the rest back. */
    method RebuildChildren(user: nat, p: ProfileValues, rm: RecordMap, tables: CsvExtraction.SleepExport) returns (ok: bool)
      requires Valid() && RecordMapIn(rm, records)
      modifies this
      ensures ok <==> Rebuild(old(State()), rm, user, p, tables).Ok?
      ensures ok ==> State() == Rebuild(old(State()), rm, user, p, tables).value
      ensures ok ==> Valid()
      ensures records == old(records) && index == old(index) && nextRecordId == old(nextRecordId)
    {
      DeleteOldChildren(user, IdsOf(rm));
      ok := AttachChildren(rm, tables);
      if !ok {
        return;
      }
      ok := AddNewStatistics(user, rm, p);
      if ok {
        RebuildKeepsValid(old(State()), rm, user, p, tables);
      }
    }

    /** `import_sleep_records`: parse the export, then upsert and rebuild inside
        one transaction; any exception puts the saved state back. */
    method ImportSleepRecords(profile: UserData, today: int, table: CsvExtraction.Table)
      returns (status: ImportStatus, progress: seq<(nat, nat)>)
      requires Valid()
      modifies this
      ensures (status, State()) == ImportSleepRecordsSpec(old(State()), profile, today, CsvExtraction.ParseExport(table))
      ensures Valid()
      ensures CsvExtraction.ParseExport(table).Parsed? ==>
        progress == Progress(|CsvExtraction.ParseExport(table).tables.meta|)[..FirstUnsavable(CsvExtraction.ParseExport(table).tables.meta)]
      ensures !CsvExtraction.ParseExport(table).Parsed? ==> progress == []
    {
      var parsed := CsvExtraction.SleepRecordFromCsv(table);
      if parsed.Invalid? {
        return InvalidFile, [];
      }
      if parsed.Failed? {
        return Failed, [];
      }
      var tables := parsed.tables;
      var user := profile.user;
      var p := ProfileValuesOf(profile, today);
      var saved := State();
      var upserted, rm;
      upserted, rm, progress := UpsertSessions(user, tables.meta);
      if !upserted {
        Restore(saved);
        return Failed, progress;
      }
      RecordMapIsStored(saved, user, tables.meta);
      var ok := RebuildChildren(user, p, rm, tables);
      if ok {
        status := Completed(|tables.meta|);
      } else {
        Restore(saved);
        status := Failed;
      }
    }

    /** `sleep_recommended` of sleep_tracking_app/tasks.py. */
    method SleepRecommended(recordIds: seq<nat>, statIds: seq<nat>,
                            gemini: (seq<StatisticsRow>, seq<SleepRecord>) -> string,
                            enhance: string -> RagService.EnhanceResult) returns (reply: string)
      requires Valid()
      modifies this
      ensures (reply, State()) == RecommendSpec(old(State()), recordIds, statIds, gemini, enhance)
      ensures Valid()
    {
      var recordList := OrderedLookup(records, recordIds);
      var statList := OrderedLookup(statistics, statIds);
      if recordList == [] || statList == [] {
        return InsufficientData;
      }
      var g := gemini(statList, recordList);
      if g == "" {
        return GenerationError;
      }
      var final := enhance(g).enhanced;
      OrderedLookupStartsWithFirstKnown(statistics, statIds);
      var id := FirstKnown(statistics, statIds).value;
      statistics := statistics[id := statistics[id].(recommended := Some(final))];
      reply := final;
    }

    /** The single-id `sleep_recommended` of sleep_tracing_app/tasks.py. */
    method SleepRecommendedSingle(recordId: nat, statId: nat, rec: (SleepRecord, StatisticsRow) -> string)
      returns (r: Outcome<string>)
      requires Valid()
      modifies this
      ensures (r, State()) == RecommendSingleSpec(old(State()), recordId, statId, rec)
      ensures Valid()
    {
      if recordId !in records || statId !in statistics {
        return Raises;
      }
      var text := rec(records[recordId], statistics[statId]);
      statistics := statistics[statId := statistics[statId].(recommended := Some(text))];
      r := Ok(text);
    }
  }
}
