/** The import task and the recommendation tasks (sleep_tracking_app/tasks.py and
    sleep_tracing_app/tasks.py, whose `import_sleep_records` are the same
    algorithm). The database is an in-memory store: a value `Db` that the
    specification functions transform, and the class `SleepStore` whose methods
    update its fields step by step and are proved to reach the same value. */
module Tasks {
  import opened Wrappers
  import opened Models
  import Clock
  import Text
  import CsvExtraction
  import SleepStatistic

  /** The natural key of a sleep record: (user, sleep_date_time). */
  type Key = (nat, int)

  function KeyOf(r: SleepRecord): Key {
    (r.user, r.sleepDateTime)
  }

  /** The tables of the store, with the unique index on the natural key and the
      next primary keys to hand out. */
  datatype Db = Db(
    records: map<nat, SleepRecord>,
    index: map<Key, nat>,
    segments: seq<SegmentRow>,
    heartRates: seq<HeartRateRow>,
    statistics: map<nat, StatisticsRow>,
    nextRecordId: nat,
    nextStatId: nat)

  /** The index and the records agree, keys are below the next ones, and every
      child row references an existing record. */
  predicate DbValid(db: Db) {
    (forall k :: k in db.index ==> db.index[k] in db.records && KeyOf(db.records[db.index[k]]) == k) &&
    (forall id :: id in db.records ==> KeyOf(db.records[id]) in db.index && db.index[KeyOf(db.records[id])] == id) &&
    (forall id :: id in db.records ==> id < db.nextRecordId) &&
    (forall id :: id in db.statistics ==> id < db.nextStatId) &&
    (forall i :: 0 <= i < |db.segments| ==> db.segments[i].record in db.records) &&
    (forall i :: 0 <= i < |db.heartRates| ==> db.heartRates[i].record in db.records)
  }

  /** `unique_together = ('user', 'sleep_date_time')`: in a valid store no two
      records share a natural key. */
  lemma NaturalKeyIsUnique(db: Db, a: nat, b: nat)
    requires DbValid(db) && a in db.records && b in db.records
    requires KeyOf(db.records[a]) == KeyOf(db.records[b])
    ensures a == b
  {
  }

  // ---------------------------------------------------------------------------
  // Upsert of the sessions

  function BoolField(f: map<string, CsvExtraction.JsonValue>, key: string): Option<bool> {
    if key in f && f[key].JBool? then Some(f[key].b) else None
  }

  /** The `defaults` of `update_or_create`: the fourteen fields read from a metadata row. */
  function FieldsOf(f: map<string, CsvExtraction.JsonValue>): SessionFields {
    SessionFields(
      CsvExtraction.IntField(f, "sleep_rem_duration"),
      BoolField(f, "has_rem"),
      CsvExtraction.IntField(f, "min_hr"),
      CsvExtraction.IntField(f, "device_bedtime"),
      CsvExtraction.IntField(f, "sleep_deep_duration"),
      CsvExtraction.IntField(f, "wake_up_time"),
      CsvExtraction.IntField(f, "bedtime"),
      CsvExtraction.IntField(f, "awake_count"),
      CsvExtraction.IntField(f, "duration"),
      CsvExtraction.IntField(f, "max_hr"),
      CsvExtraction.IntField(f, "sleep_awake_duration"),
      CsvExtraction.IntField(f, "avg_hr"),
      CsvExtraction.IntField(f, "sleep_light_duration"),
      CsvExtraction.IntField(f, "device_wake_up_time"))
  }

  /** The nullable number columns of `SleepRecord` that `update_or_create` writes
      (the four instants are time columns, which the parser already converts). */
  const NumberKeys: set<string> := {"sleep_rem_duration", "min_hr", "sleep_deep_duration", "awake_count",
    "duration", "max_hr", "sleep_awake_duration", "avg_hr", "sleep_light_duration"}

  /** Some metadata row has `key`, even as null: `json_normalize` makes it a
      column, and a row without the key reads NaN there. */
  predicate ColumnExists(meta: seq<CsvExtraction.MetaRow>, key: string) {
    exists j :: 0 <= j < |meta| && key in meta[j].fields
  }

  /** Some metadata row holds a number for `key`: the column is numeric, and a
      null in it reads NaN as well. */
  predicate ColumnHasValue(meta: seq<CsvExtraction.MetaRow>, key: string) {
    exists j :: 0 <= j < |meta| && key in meta[j].fields && !meta[j].fields[key].JNull?
  }

  /** Some metadata row lacks `key`: pandas fills that cell with NaN, and a
      column holding NaN reads every null in it as NaN too. */
  predicate ColumnMissing(meta: seq<CsvExtraction.MetaRow>, key: string) {
    exists j :: 0 <= j < |meta| && key !in meta[j].fields
  }

  /** The row gives no value for `key`. */
  predicate Gap(f: map<string, CsvExtraction.JsonValue>, key: string) {
    key !in f || f[key].JNull?
  }

  /** The save of row `i` goes through: no number column of the table is NaN in
      it (`int(nan)` raises), so the row has every number key some row has, and
      no null where another row has a number or lacks the key; a null in a
      column that every row holds and none holds a number in stays None and
      saves as NULL. `has_rem`, which is NOT NULL, must be a boolean. */
  predicate RowSavable(meta: seq<CsvExtraction.MetaRow>, i: nat)
    requires i < |meta|
  {
    (forall key :: key in NumberKeys && ColumnExists(meta, key) ==> key in meta[i].fields) &&
    (forall key :: key in NumberKeys && (ColumnHasValue(meta, key) || (ColumnExists(meta, key) && ColumnMissing(meta, key))) ==> !Gap(meta[i].fields, key)) &&
    BoolField(meta[i].fields, "has_rem").Some?
  }

  function FirstUnsavableFrom(meta: seq<CsvExtraction.MetaRow>, i: nat): (k: nat)
    requires i <= |meta|
    ensures i <= k <= |meta|
    ensures forall j :: i <= j < k ==> RowSavable(meta, j)
    ensures k < |meta| ==> !RowSavable(meta, k)
    decreases |meta| - i
  {
    if i == |meta| then i
    else if RowSavable(meta, i) then FirstUnsavableFrom(meta, i + 1)
    else i
  }

  /** The index of the first metadata row whose save raises, or the number of rows. */
  function FirstUnsavable(meta: seq<CsvExtraction.MetaRow>): (k: nat)
    ensures k <= |meta|
    ensures forall j :: 0 <= j < k ==> RowSavable(meta, j)
    ensures k < |meta| ==> !RowSavable(meta, k)
  {
    FirstUnsavableFrom(meta, 0)
  }

  /** Where the upsert loop stands against the first raising row. */
  lemma FirstUnsavableStep(meta: seq<CsvExtraction.MetaRow>, i: nat)
    requires i < |meta| && i <= FirstUnsavable(meta)
    ensures RowSavable(meta, i) ==> i + 1 <= FirstUnsavable(meta)
    ensures !RowSavable(meta, i) ==> i == FirstUnsavable(meta)
  {
  }

  /** `update_or_create` on the natural key: an existing record is overwritten in
      place and keeps its id, a new one gets the next id. */
  function UpsertOne(db: Db, user: nat, time: int, fields: SessionFields): (r: (Db, nat))
    ensures r.0.records == db.records[r.1 := SleepRecord(user, time, fields)]
    ensures (user, time) in r.0.index && r.0.index[(user, time)] == r.1
    ensures (user, time) in db.index ==> r.1 == db.index[(user, time)] && r.0.index == db.index && r.0.nextRecordId == db.nextRecordId
    ensures (user, time) !in db.index ==> r.1 == db.nextRecordId && r.0.index == db.index[(user, time) := r.1] && r.0.nextRecordId == db.nextRecordId + 1
    ensures r.0.segments == db.segments && r.0.heartRates == db.heartRates
    ensures r.0.statistics == db.statistics && r.0.nextStatId == db.nextStatId
  {
    var record := SleepRecord(user, time, fields);
    if (user, time) in db.index then
      var id := db.index[(user, time)];
      (db.(records := db.records[id := record]), id)
    else
      var id := db.nextRecordId;
      (db.(records := db.records[id := record], index := db.index[(user, time) := id], nextRecordId := id + 1), id)
  }

  /** One upsert keeps the store valid. */
  lemma UpsertOneKeepsValid(db: Db, user: nat, time: int, fields: SessionFields)
    requires DbValid(db)
    ensures DbValid(UpsertOne(db, user, time, fields).0)
  {
  }

  /** `record_map`: the session times in first-insertion order, and each one's record id. */
  datatype RecordMap = RecordMap(times: seq<int>, ids: map<int, nat>)

  /** The upsert loop over the metadata rows, in order. */
  function UpsertAll(db: Db, user: nat, meta: seq<CsvExtraction.MetaRow>): (r: (Db, RecordMap))
    ensures r.0.segments == db.segments && r.0.heartRates == db.heartRates
    ensures r.0.statistics == db.statistics && r.0.nextStatId == db.nextStatId
  {
    if meta == [] then (db, RecordMap([], map[]))
    else
      var (d, rm) := UpsertAll(db, user, meta[..|meta| - 1]);
      var row := meta[|meta| - 1];
      var (d2, id) := UpsertOne(d, user, row.time, FieldsOf(row.fields));
      (d2, RecordMap(if row.time in rm.ids then rm.times else rm.times + [row.time], rm.ids[row.time := id]))
  }

  /** One step of `UpsertAll`: the upsert of the next metadata row. */
  lemma UpsertAllStep(db: Db, user: nat, meta: seq<CsvExtraction.MetaRow>, i: nat, d: Db, rm: RecordMap, d2: Db, id: nat)
    requires i < |meta| && (d, rm) == UpsertAll(db, user, meta[..i])
    requires (d2, id) == UpsertOne(d, user, meta[i].time, FieldsOf(meta[i].fields))
    ensures (d2, RecordMap(if meta[i].time in rm.ids then rm.times else rm.times + [meta[i].time], rm.ids[meta[i].time := id]))
      == UpsertAll(db, user, meta[..i + 1])
  {
    assert meta[..i + 1][..i] == meta[..i];
  }

  predicate HasTime(meta: seq<CsvExtraction.MetaRow>, t: int) {
    exists i :: 0 <= i < |meta| && meta[i].time == t
  }

  /** The fields of the last metadata row with time `t`: what that record holds
      after the loop. */
  function LastFields(meta: seq<CsvExtraction.MetaRow>, t: int): SessionFields
    requires HasTime(meta, t)
  {
    var row := meta[|meta| - 1];
    if row.time == t then FieldsOf(row.fields)
    else
      assert HasTime(meta[..|meta| - 1], t) by {
        var i :| 0 <= i < |meta| && meta[i].time == t;
        assert meta[..|meta| - 1][i] == meta[i];
      }
      LastFields(meta[..|meta| - 1], t)
  }

  /** The record map lists each distinct session time once; its ids are those of
      the index. */
  ghost predicate RecordMapOf(rm: RecordMap, d: Db, user: nat, meta: seq<CsvExtraction.MetaRow>) {
    Text.Distinct(rm.times) &&
    (forall t :: t in rm.ids <==> HasTime(meta, t)) &&
    (forall t :: t in rm.times <==> t in rm.ids) &&
    (forall t :: t in rm.ids ==> (user, t) in d.index && d.index[(user, t)] == rm.ids[t] && rm.ids[t] in d.records)
  }

  /** A time occurs in the metadata iff it occurs before the last row or is the last row's. */
  lemma HasTimeSnoc(meta: seq<CsvExtraction.MetaRow>)
    requires meta != []
    ensures forall t :: HasTime(meta, t) <==> HasTime(meta[..|meta| - 1], t) || t == meta[|meta| - 1].time
  {
    var init := meta[..|meta| - 1];
    forall t ensures HasTime(meta, t) <==> HasTime(init, t) || t == meta[|meta| - 1].time {
      if HasTime(init, t) {
        var i :| 0 <= i < |init| && init[i].time == t;
        assert meta[i] == init[i];
      }
      if HasTime(meta, t) && t != meta[|meta| - 1].time {
        var i :| 0 <= i < |meta| && meta[i].time == t;
        assert init[i] == meta[i];
      }
    }
  }

  /** Every id of the index names a stored record. */
  predicate IndexPointsToRecords(d: Db) {
    forall k :: k in d.index ==> d.index[k] in d.records
  }

  /** Every key of `before` is still in `after`'s index, with the same id. */
  predicate KeysKept(before: Db, after: Db) {
    forall k :: k in before.index ==> k in after.index && after.index[k] == before.index[k]
  }

  /** Every session time of the metadata has the user's key in the index. */
  ghost predicate ListedKeysPresent(d: Db, user: nat, meta: seq<CsvExtraction.MetaRow>) {
    forall t :: HasTime(meta, t) ==> (user, t) in d.index
  }

  /** `after`'s index holds no key but `before`'s and the user's listed sessions. */
  ghost predicate OnlyListedKeysAdded(before: Db, after: Db, user: nat, meta: seq<CsvExtraction.MetaRow>) {
    forall k :: k in after.index ==> k in before.index || (k.0 == user && HasTime(meta, k.1))
  }

  /** `after`'s records are `before`'s plus ids from `before`'s counter up. */
  ghost predicate OnlyFreshIdsAdded(before: Db, after: Db) {
    before.nextRecordId <= after.nextRecordId &&
    forall id :: id in after.records <==> id in before.records || before.nextRecordId <= id < after.nextRecordId
  }

  /** Each listed session's record holds the fields of its last metadata row. */
  ghost predicate HoldsLastFields(d: Db, user: nat, meta: seq<CsvExtraction.MetaRow>) {
    forall t :: HasTime(meta, t) ==>
      (user, t) in d.index && d.index[(user, t)] in d.records &&
      d.records[d.index[(user, t)]] == SleepRecord(user, t, LastFields(meta, t))
  }

  /** Every record of `before` that is not one of the user's listed sessions is unchanged in `after`. */
  ghost predicate UnlistedKept(before: Db, after: Db, user: nat, meta: seq<CsvExtraction.MetaRow>) {
    forall id :: id in before.records && !(before.records[id].user == user && HasTime(meta, before.records[id].sleepDateTime)) ==>
      id in after.records && after.records[id] == before.records[id]
  }

  /** The upsert loop keeps the store valid, keeps every existing key's id, and
      gives each listed session time a key. */
  lemma {:induction false} UpsertAllValid(db: Db, user: nat, meta: seq<CsvExtraction.MetaRow>)
    requires DbValid(db)
    ensures DbValid(UpsertAll(db, user, meta).0)
    ensures db.nextRecordId <= UpsertAll(db, user, meta).0.nextRecordId
    ensures KeysKept(db, UpsertAll(db, user, meta).0)
    ensures ListedKeysPresent(UpsertAll(db, user, meta).0, user, meta)
  {
    if meta != [] {
      var init := meta[..|meta| - 1];
      var row := meta[|meta| - 1];
      UpsertAllValid(db, user, init);
      HasTimeSnoc(meta);
      var d := UpsertAll(db, user, init).0;
      var d2 := UpsertOne(d, user, row.time, FieldsOf(row.fields)).0;
      assert UpsertAll(db, user, meta).0 == d2;
      UpsertOneKeepsValid(d, user, row.time, FieldsOf(row.fields));
    }
  }

  /** The upsert loop adds no key but those of the listed sessions. */
  lemma {:induction false} UpsertAllAddsOnlyListedKeys(db: Db, user: nat, meta: seq<CsvExtraction.MetaRow>)
    ensures OnlyListedKeysAdded(db, UpsertAll(db, user, meta).0, user, meta)
  {
    if meta != [] {
      var init := meta[..|meta| - 1];
      var row := meta[|meta| - 1];
      UpsertAllAddsOnlyListedKeys(db, user, init);
      HasTimeSnoc(meta);
      var d := UpsertAll(db, user, init).0;
      var d2 := UpsertOne(d, user, row.time, FieldsOf(row.fields)).0;
      assert UpsertAll(db, user, meta).0 == d2;
    }
  }

  /** The upsert loop keeps every index entry pointing at a record. */
  lemma {:induction false} UpsertAllIndexPointsToRecords(db: Db, user: nat, meta: seq<CsvExtraction.MetaRow>)
    requires IndexPointsToRecords(db)
    ensures IndexPointsToRecords(UpsertAll(db, user, meta).0)
  {
    if meta != [] {
      var init := meta[..|meta| - 1];
      var row := meta[|meta| - 1];
      UpsertAllIndexPointsToRecords(db, user, init);
      var d := UpsertAll(db, user, init).0;
      var d2 := UpsertOne(d, user, row.time, FieldsOf(row.fields)).0;
      assert UpsertAll(db, user, meta).0 == d2;
    }
  }

  /** The upsert loop adds no record id but fresh ones. */
  lemma {:induction false} UpsertAllAddsOnlyFreshIds(db: Db, user: nat, meta: seq<CsvExtraction.MetaRow>)
    requires IndexPointsToRecords(db)
    ensures OnlyFreshIdsAdded(db, UpsertAll(db, user, meta).0)
  {
    if meta != [] {
      var init := meta[..|meta| - 1];
      var row := meta[|meta| - 1];
      UpsertAllAddsOnlyFreshIds(db, user, init);
      UpsertAllIndexPointsToRecords(db, user, init);
      var d := UpsertAll(db, user, init).0;
      var d2 := UpsertOne(d, user, row.time, FieldsOf(row.fields)).0;
      assert UpsertAll(db, user, meta).0 == d2;
      if (user, row.time) in d.index {
        assert d.index[(user, row.time)] in d.records;
      }
    }
  }

  /** When every listed session already exists, no record id is used up. */
  lemma {:induction false} UpsertAllOfExistingUsesNoId(db: Db, user: nat, meta: seq<CsvExtraction.MetaRow>)
    requires DbValid(db)
    requires ListedKeysPresent(db, user, meta)
    ensures UpsertAll(db, user, meta).0.nextRecordId == db.nextRecordId
  {
    if meta != [] {
      var init := meta[..|meta| - 1];
      var row := meta[|meta| - 1];
      HasTimeSnoc(meta);
      UpsertAllOfExistingUsesNoId(db, user, init);
      UpsertAllValid(db, user, init);
      assert (user, row.time) in db.index;
      var d := UpsertAll(db, user, init).0;
      assert (user, row.time) in d.index;
      var d2 := UpsertOne(d, user, row.time, FieldsOf(row.fields)).0;
      assert UpsertAll(db, user, meta).0 == d2;
    }
  }

  /** The record map lists each distinct session time once, with its id in the index. */
  lemma {:induction false} UpsertAllRecordMap(db: Db, user: nat, meta: seq<CsvExtraction.MetaRow>)
    ensures RecordMapOf(UpsertAll(db, user, meta).1, UpsertAll(db, user, meta).0, user, meta)
  {
    if meta != [] {
      var init := meta[..|meta| - 1];
      var row := meta[|meta| - 1];
      UpsertAllRecordMap(db, user, init);
      HasTimeSnoc(meta);
      var (d, rm) := UpsertAll(db, user, init);
      var (d2, id) := UpsertOne(d, user, row.time, FieldsOf(row.fields));
      var times2 := if row.time in rm.ids then rm.times else rm.times + [row.time];
      var rm2 := RecordMap(times2, rm.ids[row.time := id]);
      assert UpsertAll(db, user, meta) == (d2, rm2);
      assert Text.Distinct(times2) by {
        if row.time !in rm.ids {
          assert row.time !in rm.times;
        }
      }
      assert forall t :: t in times2 <==> t in rm2.ids;
      forall t | t in rm2.ids
        ensures (user, t) in d2.index && d2.index[(user, t)] == rm2.ids[t] && rm2.ids[t] in d2.records
      {
      }
    }
  }

  /** Every time of the record map has a stored record. */
  lemma RecordMapIsStored(db: Db, user: nat, meta: seq<CsvExtraction.MetaRow>)
    ensures RecordMapIn(UpsertAll(db, user, meta).1, UpsertAll(db, user, meta).0.records)
  {
    UpsertAllRecordMap(db, user, meta);
    var (d, rm) := UpsertAll(db, user, meta);
    forall id | id in IdSet(rm.ids) ensures id in d.records {
      var t :| t in rm.ids && rm.ids[t] == id;
    }
  }

  /** What the upsert loop does to the index and the record map. */
  lemma UpsertAllIndex(db: Db, user: nat, meta: seq<CsvExtraction.MetaRow>)
    requires DbValid(db)
    ensures var (d, rm) := UpsertAll(db, user, meta);
      DbValid(d) && RecordMapOf(rm, d, user, meta) &&
      KeysKept(db, d) && ListedKeysPresent(d, user, meta) && OnlyListedKeysAdded(db, d, user, meta) &&
      OnlyFreshIdsAdded(db, d) &&
      (ListedKeysPresent(db, user, meta) ==> d.nextRecordId == db.nextRecordId)
  {
    UpsertAllValid(db, user, meta);
    UpsertAllAddsOnlyListedKeys(db, user, meta);
    UpsertAllAddsOnlyFreshIds(db, user, meta);
    UpsertAllRecordMap(db, user, meta);
    if ListedKeysPresent(db, user, meta) {
      UpsertAllOfExistingUsesNoId(db, user, meta);
    }
  }

  /** After the upsert loop each listed session's record holds the fields of its
      last metadata row. */
  lemma {:induction false} UpsertAllKeepsLastFields(db: Db, user: nat, meta: seq<CsvExtraction.MetaRow>)
    requires DbValid(db)
    ensures HoldsLastFields(UpsertAll(db, user, meta).0, user, meta)
  {
    if meta != [] {
      var init := meta[..|meta| - 1];
      var row := meta[|meta| - 1];
      UpsertAllKeepsLastFields(db, user, init);
      UpsertAllValid(db, user, init);
      HasTimeSnoc(meta);
      var d := UpsertAll(db, user, init).0;
      var (d2, id) := UpsertOne(d, user, row.time, FieldsOf(row.fields));
      assert UpsertAll(db, user, meta).0 == d2;
      forall t | HasTime(meta, t)
        ensures (user, t) in d2.index && d2.index[(user, t)] in d2.records &&
          d2.records[d2.index[(user, t)]] == SleepRecord(user, t, LastFields(meta, t))
      {
        if t != row.time {
          assert HasTime(init, t);
          var old_id := d.index[(user, t)];
          assert KeyOf(d.records[old_id]) == (user, t);
          assert old_id != id by {
            if (user, row.time) in d.index {
              assert KeyOf(d.records[id]) == (user, row.time);
            } else {
              assert old_id < d.nextRecordId;
            }
          }
        }
      }
    }
  }

  /** The upsert loop leaves every record of another key as it was. */
  lemma {:induction false} UpsertAllKeepsUnlisted(db: Db, user: nat, meta: seq<CsvExtraction.MetaRow>)
    requires DbValid(db)
    ensures UnlistedKept(db, UpsertAll(db, user, meta).0, user, meta)
  {
    if meta != [] {
      var init := meta[..|meta| - 1];
      var row := meta[|meta| - 1];
      UpsertAllKeepsUnlisted(db, user, init);
      UpsertAllValid(db, user, init);
      HasTimeSnoc(meta);
      var d := UpsertAll(db, user, init).0;
      var (d2, id) := UpsertOne(d, user, row.time, FieldsOf(row.fields));
      assert UpsertAll(db, user, meta).0 == d2;
      forall oid | oid in db.records && !(db.records[oid].user == user && HasTime(meta, db.records[oid].sleepDateTime))
        ensures oid in d2.records && d2.records[oid] == db.records[oid]
      {
        assert oid in d.records && d.records[oid] == db.records[oid];
        assert oid != id by {
          if (user, row.time) in d.index {
            assert KeyOf(d.records[id]) == (user, row.time);
          } else {
            assert oid < d.nextRecordId;
          }
        }
      }
    }
  }

  /** Upserting the same sessions a second time reuses every key: the index and
      the id counter stay as the first pass left them. */
  lemma UpsertAgainKeepsIndex(db: Db, user: nat, meta: seq<CsvExtraction.MetaRow>)
    requires DbValid(db)
    ensures DbValid(UpsertAll(db, user, meta).0)
    ensures UpsertAll(UpsertAll(db, user, meta).0, user, meta).0.index == UpsertAll(db, user, meta).0.index
    ensures UpsertAll(UpsertAll(db, user, meta).0, user, meta).0.nextRecordId == UpsertAll(db, user, meta).0.nextRecordId
  {
    UpsertAllValid(db, user, meta);
    var d1 := UpsertAll(db, user, meta).0;
    UpsertAllValid(d1, user, meta);
    UpsertAllAddsOnlyListedKeys(d1, user, meta);
    UpsertAllOfExistingUsesNoId(d1, user, meta);
    var d2 := UpsertAll(d1, user, meta).0;
    assert d2.index.Keys == d1.index.Keys;
  }

  /** Importing the same sessions again updates the records in place: no record
      is added, and the records end as the first import left them. */
  lemma UpsertIsIdempotent(db: Db, user: nat, meta: seq<CsvExtraction.MetaRow>)
    requires DbValid(db)
    ensures var d1 := UpsertAll(db, user, meta).0;
      var d2 := UpsertAll(d1, user, meta).0;
      d2.records == d1.records && d2.index == d1.index && d2.nextRecordId == d1.nextRecordId
  {
    UpsertAgainKeepsIndex(db, user, meta);
    var d1 := UpsertAll(db, user, meta).0;
    UpsertAllAddsOnlyFreshIds(d1, user, meta);
    UpsertAllKeepsLastFields(db, user, meta);
    UpsertAllKeepsLastFields(d1, user, meta);
    UpsertAllKeepsUnlisted(d1, user, meta);
    var d2 := UpsertAll(d1, user, meta).0;
    assert d2.records.Keys == d1.records.Keys;
    forall id | id in d1.records ensures d2.records[id] == d1.records[id] {
      var r := d1.records[id];
      if r.user == user && HasTime(meta, r.sleepDateTime) {
        assert d1.index[KeyOf(r)] == id;
      }
    }
  }

  // ---------------------------------------------------------------------------
  // Deletion of the old child rows

  /** The child rows that belong to none of the records `ids`, in table order. */
  function RowsOutside<T(!new)>(rows: seq<T>, record: T -> nat, ids: set<nat>): (r: seq<T>)
    ensures forall x :: x in r <==> x in rows && record(x) !in ids
  {
    if rows == [] then []
    else RowsOutside(rows[..|rows| - 1], record, ids) + (if record(rows[|rows| - 1]) in ids then [] else [rows[|rows| - 1]])
  }

  /** Lines 81-83: segments and samples of the upserted records go, and so do all
      of the user's statistics. */
  function DeleteChildren(db: Db, user: nat, ids: set<nat>): (r: Db)
    ensures r.records == db.records && r.index == db.index && r.nextRecordId == db.nextRecordId && r.nextStatId == db.nextStatId
    ensures forall x :: x in r.segments <==> x in db.segments && x.record !in ids
    ensures forall x :: x in r.heartRates <==> x in db.heartRates && x.record !in ids
    ensures forall id :: id in r.statistics <==> id in db.statistics && db.statistics[id].user != user
    ensures forall id :: id in r.statistics ==> r.statistics[id] == db.statistics[id]
  {
    db.(segments := RowsOutside(db.segments, SegmentRecord, ids),
        heartRates := RowsOutside(db.heartRates, HeartRateRecord, ids),
        statistics := map id | id in db.statistics && db.statistics[id].user != user :: db.statistics[id])
  }

  // ---------------------------------------------------------------------------
  // New segments

  /** The record ids a record map hands out. */
  function IdSet(ids: map<int, nat>): (r: set<nat>)
    ensures forall id :: id in r <==> exists t :: t in ids && ids[t] == id
  {
    set t | t in ids :: ids[t]
  }

  /** A segment read from an item row; a missing or non-integer field makes the insert fail. */
  function SegmentOf(f: map<string, CsvExtraction.JsonValue>): (r: Option<Segment>)
    ensures r.Some? <==> CsvExtraction.IntField(f, "start_time").Some? && CsvExtraction.IntField(f, "end_time").Some? && CsvExtraction.IntField(f, "state").Some?
  {
    match (CsvExtraction.IntField(f, "start_time"), CsvExtraction.IntField(f, "end_time"), CsvExtraction.IntField(f, "state"))
    case (Some(s), Some(e), Some(st)) => Some(Segment(s, e, st))
    case _ => None
  }

  /** The number of item rows whose session is in the record map. */
  function MatchedCount(items: seq<CsvExtraction.ItemRow>, ids: map<int, nat>): nat {
    if items == [] then 0
    else MatchedCount(items[..|items| - 1], ids) + (if items[|items| - 1].time in ids then 1 else 0)
  }

  /** The item row belongs to a session of the record map. */
  function Listed(ids: map<int, nat>): CsvExtraction.ItemRow -> bool {
    (item: CsvExtraction.ItemRow) => item.time in ids
  }

  /** `rows` are, one for one and in order, the segments read from `items`, each
      under the id of its session. */
  predicate SegmentsMatch(rows: seq<SegmentRow>, items: seq<CsvExtraction.ItemRow>, ids: map<int, nat>) {
    |rows| == |items| &&
    forall i :: 0 <= i < |rows| ==>
      items[i].time in ids && rows[i].record == ids[items[i].time] && SegmentOf(items[i].fields) == Some(rows[i].segment)
  }

  /** Lines 91-102: one segment per item row of a listed session, in item order;
      rows of other sessions are skipped. */
  function NewSegments(items: seq<CsvExtraction.ItemRow>, ids: map<int, nat>): (r: Outcome<seq<SegmentRow>>)
    ensures r.Ok? <==> forall i :: 0 <= i < |items| && items[i].time in ids ==> SegmentOf(items[i].fields).Some?
    ensures r.Ok? ==> |r.value| == MatchedCount(items, ids)
    ensures r.Ok? ==> forall x :: x in r.value ==> x.record in IdSet(ids)
  {
    if items == [] then Ok([])
    else
      var init := items[..|items| - 1];
      var item := items[|items| - 1];
      match NewSegments(init, ids)
      case Raises => Raises
      case Ok(rows) =>
        if item.time !in ids then Ok(rows)
        else
          match SegmentOf(item.fields)
          case None => Raises
          case Some(s) => Ok(rows + [SegmentRow(ids[item.time], s)])
  }

  /** The new segments are exactly those of the item rows of listed sessions, in
      item order, each under its session's record id. */
  lemma {:induction false} NewSegmentsAreListedItems(items: seq<CsvExtraction.ItemRow>, ids: map<int, nat>)
    requires NewSegments(items, ids).Ok?
    ensures SegmentsMatch(NewSegments(items, ids).value, Text.Filter(items, Listed(ids)), ids)
  {
    if items != [] {
      NewSegmentsAreListedItems(items[..|items| - 1], ids);
    }
  }

  // ---------------------------------------------------------------------------
  // New heart-rate samples

  /** A night sample inside the closed interval [bed, wake]. */
  function InClosed(bed: int, wake: int): CsvExtraction.NightSample -> bool {
    (s: CsvExtraction.NightSample) => bed <= s.time <= wake
  }

  /** The samples of the night table a record keeps: those inside its closed
      [device_bedtime, device_wake_up_time], in table order; none without either time. */
  function Window(bed: Option<int>, wake: Option<int>, night: seq<CsvExtraction.NightSample>): seq<CsvExtraction.NightSample> {
    if bed.Some? && wake.Some? then Text.Filter(night, InClosed(bed.value, wake.value)) else []
  }

  /** `rows` are, one for one and in order, the samples of `tagged`, each stored
      under the record id it is tagged with. */
  predicate SamplesMatch(rows: seq<HeartRateRow>, tagged: seq<(nat, CsvExtraction.NightSample)>) {
    |rows| == |tagged| &&
    forall i :: 0 <= i < |rows| ==>
      rows[i].record == tagged[i].0 && rows[i].time == tagged[i].1.time && Some(rows[i].bpm) == tagged[i].1.bpm
  }

  /** The samples, each tagged with `id`. */
  function Tagged(id: nat, samples: seq<CsvExtraction.NightSample>): (r: seq<(nat, CsvExtraction.NightSample)>)
    ensures |r| == |samples| && forall i :: 0 <= i < |samples| ==> r[i] == (id, samples[i])
  {
    seq(|samples|, i requires 0 <= i < |samples| => (id, samples[i]))
  }

  /** Lines 107-113 for one record: the samples with bed <= time <= wake, in night
      order; a record without either device time selects nothing, and a selected
      sample without bpm makes the insert fail. */
  function HeartRatesOf(id: nat, bed: Option<int>, wake: Option<int>, night: seq<CsvExtraction.NightSample>): (r: Outcome<seq<HeartRateRow>>)
    ensures r.Ok? ==> forall x :: x in r.value ==>
      x.record == id && bed.Some? && wake.Some? && bed.value <= x.time <= wake.value && CsvExtraction.NightSample(x.time, Some(x.bpm)) in night
    ensures bed.Some? && wake.Some? ==>
      (r.Ok? <==> forall i :: 0 <= i < |night| && bed.value <= night[i].time <= wake.value ==> night[i].bpm.Some?)
  {
    if night == [] || bed.None? || wake.None? then Ok([])
    else
      var s := night[|night| - 1];
      match HeartRatesOf(id, bed, wake, night[..|night| - 1])
      case Raises => Raises
      case Ok(rows) =>
        if !(bed.value <= s.time <= wake.value) then Ok(rows)
        else if s.bpm.None? then Raises
        else Ok(rows + [HeartRateRow(id, s.time, s.bpm.value)])
  }

  /** The stored samples of one record are exactly the night samples inside its
      closed window, in table order. */
  lemma {:induction false} HeartRatesOfIsWindow(id: nat, bed: Option<int>, wake: Option<int>, night: seq<CsvExtraction.NightSample>)
    requires HeartRatesOf(id, bed, wake, night).Ok?
    ensures SamplesMatch(HeartRatesOf(id, bed, wake, night).value, Tagged(id, Window(bed, wake, night)))
  {
    if night != [] && bed.Some? && wake.Some? {
      HeartRatesOfIsWindow(id, bed, wake, night[..|night| - 1]);
    }
  }

  /** The stored window is closed at both ends and never wraps past midnight,
      unlike the parser's night window. */
  lemma HeartRateWindowIsClosed()
    ensures HeartRatesOf(7, Some(100), Some(200), [CsvExtraction.NightSample(200, Some(60))]) == Ok([HeartRateRow(7, 200, 60)])
    ensures HeartRatesOf(7, Some(200), Some(100), [CsvExtraction.NightSample(250, Some(60))]) == Ok([])
    ensures CsvExtraction.MaskNight([250], Some(200), Some(100))[0] && !CsvExtraction.MaskNight([200], Some(100), Some(200))[0]
  {
    var n1 := [CsvExtraction.NightSample(200, Some(60))];
    assert n1[..0] == [];
    assert HeartRatesOf(7, Some(100), Some(200), n1[..0]) == Ok([]);
    assert n1[|n1| - 1] == CsvExtraction.NightSample(200, Some(60));
    assert [] + [HeartRateRow(7, 200, 60)] == [HeartRateRow(7, 200, 60)];
    var n2 := [CsvExtraction.NightSample(250, Some(60))];
    assert n2[..0] == [];
    assert HeartRatesOf(7, Some(200), Some(100), n2[..0]) == Ok([]);
  }

  /** Every time of the record map has an id, and every id a stored record. */
  predicate RecordMapIn(rm: RecordMap, records: map<nat, SleepRecord>) {
    (forall i :: 0 <= i < |rm.times| ==> rm.times[i] in rm.ids && rm.ids[rm.times[i]] in records) &&
    (forall id :: id in IdSet(rm.ids) ==> id in records)
  }

  /** The samples the i-th listed record selects from the night table. */
  function HeartRatesAt(records: map<nat, SleepRecord>, rm: RecordMap, night: seq<CsvExtraction.NightSample>, i: nat): Outcome<seq<HeartRateRow>>
    requires RecordMapIn(rm, records) && i < |rm.times|
  {
    var id := rm.ids[rm.times[i]];
    HeartRatesOf(id, records[id].fields.deviceBedtime, records[id].fields.deviceWakeUpTime, night)
  }

  /** The samples every listed record keeps, record by record in record-map
      order, each tagged with its record's id. */
  function Selected(records: map<nat, SleepRecord>, rm: RecordMap, night: seq<CsvExtraction.NightSample>): seq<(nat, CsvExtraction.NightSample)>
    requires RecordMapIn(rm, records)
    decreases |rm.times|
  {
    if rm.times == [] then []
    else
      var id := rm.ids[rm.times[|rm.times| - 1]];
      Selected(records, RecordMap(rm.times[..|rm.times| - 1], rm.ids), night) +
      Tagged(id, Window(records[id].fields.deviceBedtime, records[id].fields.deviceWakeUpTime, night))
  }

  lemma SamplesMatchAppend(a: seq<HeartRateRow>, p: seq<(nat, CsvExtraction.NightSample)>, b: seq<HeartRateRow>, q: seq<(nat, CsvExtraction.NightSample)>)
    requires SamplesMatch(a, p) && SamplesMatch(b, q)
    ensures SamplesMatch(a + b, p + q)
  {
  }

  /** Lines 105-113: the samples of every listed record, record by record; the
      first record with an unusable selected sample aborts the import. */
  function NewHeartRates(records: map<nat, SleepRecord>, rm: RecordMap, night: seq<CsvExtraction.NightSample>): (r: Outcome<seq<HeartRateRow>>)
    requires RecordMapIn(rm, records)
    ensures r.Ok? <==> forall i :: 0 <= i < |rm.times| ==> HeartRatesAt(records, rm, night, i).Ok?
    ensures r.Ok? ==> forall x :: x in r.value ==> x.record in IdSet(rm.ids)
    decreases |rm.times|
  {
    if rm.times == [] then Ok([])
    else
      var init := RecordMap(rm.times[..|rm.times| - 1], rm.ids);
      var t := rm.times[|rm.times| - 1];
      var id := rm.ids[t];
      assert id in IdSet(rm.ids) by {
        assert t in rm.ids && rm.ids[t] == id;
      }
      var f := records[id].fields;
      assert forall i :: 0 <= i < |init.times| ==> HeartRatesAt(records, init, night, i) == HeartRatesAt(records, rm, night, i);
      match NewHeartRates(records, init, night)
      case Raises =>
        assert exists i :: 0 <= i < |init.times| && !HeartRatesAt(records, rm, night, i).Ok?;
        Raises
      case Ok(rows) =>
        match HeartRatesOf(id, f.deviceBedtime, f.deviceWakeUpTime, night)
        case Raises =>
          assert !HeartRatesAt(records, rm, night, |rm.times| - 1).Ok?;
          Raises
        case Ok(more) => Ok(rows + more)
  }

  /** The new samples are exactly those every listed record keeps, record by
      record in record-map order. */
  lemma {:induction false} NewHeartRatesAreSelected(records: map<nat, SleepRecord>, rm: RecordMap, night: seq<CsvExtraction.NightSample>)
    requires RecordMapIn(rm, records) && NewHeartRates(records, rm, night).Ok?
    ensures SamplesMatch(NewHeartRates(records, rm, night).value, Selected(records, rm, night))
    decreases |rm.times|
  {
    if rm.times != [] {
      var init := RecordMap(rm.times[..|rm.times| - 1], rm.ids);
      var id := rm.ids[rm.times[|rm.times| - 1]];
      var f := records[id].fields;
      assert RecordMapIn(init, records);
      NewHeartRatesAreSelected(records, init, night);
      HeartRatesOfIsWindow(id, f.deviceBedtime, f.deviceWakeUpTime, night);
      SamplesMatchAppend(NewHeartRates(records, init, night).value, Selected(records, init, night),
        HeartRatesOf(id, f.deviceBedtime, f.deviceWakeUpTime, night).value,
        Tagged(id, Window(f.deviceBedtime, f.deviceWakeUpTime, night)));
    }
  }

  // ---------------------------------------------------------------------------
  // New statistics

  /** The segments stored for one record, in table order. */
  function SegmentsOf(rows: seq<SegmentRow>, id: nat): (r: seq<Segment>)
    ensures forall s :: s in r <==> SegmentRow(id, s) in rows
  {
    if rows == [] then []
    else
      SegmentsOf(rows[..|rows| - 1], id) +
      (if rows[|rows| - 1].record == id then [rows[|rows| - 1].segment] else [])
  }

  /** What the profile gives the metrics: age in months, gender, weight and height. */
  datatype ProfileValues = ProfileValues(ageMonths: int, gender: int, weight: real, height: int)

  function ProfileValuesOf(profile: UserData, today: int): ProfileValues {
    ProfileValues(ProfileAgeMonths(profile, today), profile.gender, profile.weight, profile.height)
  }

  /** The statistics row for one record. */
  function StatisticsFor(user: nat, record: SleepRecord, segments: seq<Segment>, p: ProfileValues): (r: Outcome<StatisticsRow>)
    ensures r.Ok? <==> SleepStatistic.MetricsDefined(record.fields, segments)
    ensures r.Ok? ==> r.value.user == user && r.value.date == Clock.DayNumber(record.sleepDateTime) && r.value.recommended.None?
  {
    match SleepStatistic.CalculateMetrics(record.fields, segments, p.ageMonths as real, p.gender, p.weight, p.height)
    case Raises => Raises
    case Ok(m) =>
      Ok(StatisticsRow(user, Clock.DayNumber(record.sleepDateTime), Some(m.latencyMinutes), Some(m.sleepEfficiency),
        Some(m.sleepPhases), Some(m.sleepFragmentationIndex), Some(m.sleepCaloriesBurned), None))
  }

  /** The metrics of the i-th listed record can be computed from the store. */
  predicate MetricsDefinedAt(db: Db, rm: RecordMap, i: nat)
    requires RecordMapIn(rm, db.records) && i < |rm.times|
  {
    var id := rm.ids[rm.times[i]];
    SleepStatistic.MetricsDefined(db.records[id].fields, SegmentsOf(db.segments, id))
  }

  /** Lines 120-135: one row per listed record, in record-map order, from the
      record as stored and its newly stored segments; the first record whose
      metrics cannot be computed aborts the import. */
  function NewStatistics(db: Db, user: nat, rm: RecordMap, p: ProfileValues): (r: Outcome<seq<StatisticsRow>>)
    requires RecordMapIn(rm, db.records)
    ensures r.Ok? <==> forall i :: 0 <= i < |rm.times| ==> MetricsDefinedAt(db, rm, i)
    ensures r.Ok? ==> |r.value| == |rm.times|
    decreases |rm.times|
  {
    if rm.times == [] then Ok([])
    else
      var init := RecordMap(rm.times[..|rm.times| - 1], rm.ids);
      var id := rm.ids[rm.times[|rm.times| - 1]];
      assert forall i :: 0 <= i < |init.times| ==> MetricsDefinedAt(db, init, i) == MetricsDefinedAt(db, rm, i);
      match NewStatistics(db, user, init, p)
      case Raises =>
        assert exists i :: 0 <= i < |init.times| && !MetricsDefinedAt(db, rm, i);
        Raises
      case Ok(rows) =>
        match StatisticsFor(user, db.records[id], SegmentsOf(db.segments, id), p)
        case Raises =>
          assert !MetricsDefinedAt(db, rm, |rm.times| - 1);
          Raises
        case Ok(row) => Ok(rows + [row])
  }

  /** The day numbers of the listed records' nights, in record-map order. */
  function NightDays(records: map<nat, SleepRecord>, rm: RecordMap): (r: seq<int>)
    requires RecordMapIn(rm, records)
    ensures |r| == |rm.times|
  {
    seq(|rm.times|, i requires 0 <= i < |rm.times| => Clock.DayNumber(records[rm.ids[rm.times[i]]].sleepDateTime))
  }

  /** The rows belong to the user, carry the given dates and no recommendation yet. */
  predicate RowsDated(rows: seq<StatisticsRow>, user: nat, dates: seq<int>) {
    |rows| == |dates| &&
    forall i :: 0 <= i < |rows| ==> rows[i].user == user && rows[i].date == dates[i] && rows[i].recommended.None?
  }

  /** The statistics rows belong to the user and are dated by their record's night. */
  lemma {:induction false} NewStatisticsAreDated(db: Db, user: nat, rm: RecordMap, p: ProfileValues)
    requires RecordMapIn(rm, db.records)
    requires NewStatistics(db, user, rm, p).Ok?
    ensures RowsDated(NewStatistics(db, user, rm, p).value, user, NightDays(db.records, rm))
    decreases |rm.times|
  {
    if rm.times != [] {
      var init := RecordMap(rm.times[..|rm.times| - 1], rm.ids);
      var id := rm.ids[rm.times[|rm.times| - 1]];
      NewStatisticsUnfold(db, user, rm, p, init, id);
      NewStatisticsAreDated(db, user, init, p);
      var rows := NewStatistics(db, user, init, p).value;
      var row := StatisticsFor(user, db.records[id], SegmentsOf(db.segments, id), p).value;
      RowsDatedAppend(rows, row, user, NightDays(db.records, rm));
    }
  }

  /** One step of `NewStatistics`: the rows of all but the last listed time, then its row. */
  lemma NewStatisticsUnfold(db: Db, user: nat, rm: RecordMap, p: ProfileValues, init: RecordMap, id: nat)
    requires RecordMapIn(rm, db.records) && NewStatistics(db, user, rm, p).Ok?
    requires rm.times != [] && init == RecordMap(rm.times[..|rm.times| - 1], rm.ids) && id == rm.ids[rm.times[|rm.times| - 1]]
    ensures RecordMapIn(init, db.records) && NewStatistics(db, user, init, p).Ok? && id in db.records
    ensures StatisticsFor(user, db.records[id], SegmentsOf(db.segments, id), p).Ok?
    ensures NewStatistics(db, user, rm, p).value ==
      NewStatistics(db, user, init, p).value + [StatisticsFor(user, db.records[id], SegmentsOf(db.segments, id), p).value]
    ensures NightDays(db.records, init) == NightDays(db.records, rm)[..|init.times|]
    ensures NightDays(db.records, rm)[|init.times|] == Clock.DayNumber(db.records[id].sleepDateTime)
  {
    assert forall i :: 0 <= i < |init.times| ==> init.times[i] == rm.times[i];
  }

  lemma RowsDatedAppend(rows: seq<StatisticsRow>, row: StatisticsRow, user: nat, dates: seq<int>)
    requires |dates| == |rows| + 1 && RowsDated(rows, user, dates[..|rows|])
    requires row.user == user && row.date == dates[|rows|] && row.recommended.None?
    ensures RowsDated(rows + [row], user, dates)
  {
  }

  /** `bulk_create` of statistics rows with consecutive new ids. */
  function AddStatistics(stats: map<nat, StatisticsRow>, next: nat, rows: seq<StatisticsRow>): (r: map<nat, StatisticsRow>)
    ensures forall id :: id in r <==> id in stats || next <= id < next + |rows|
    ensures forall id :: id in r && !(next <= id < next + |rows|) ==> r[id] == stats[id]
    ensures forall i :: 0 <= i < |rows| ==> r[next + i] == rows[i]
  {
    if rows == [] then stats
    else AddStatistics(stats, next, rows[..|rows| - 1])[next + |rows| - 1 := rows[|rows| - 1]]
  }

  // ---------------------------------------------------------------------------
  // The whole import

  datatype ImportStatus = InvalidFile | Completed(imported: nat) | Failed

  function IdsOf(rm: RecordMap): set<nat> {
    IdSet(rm.ids)
  }

  /** Lines 80-138 once the records are upserted: delete the old child rows and
      the user's statistics, then create segments, samples and statistics. */
  function Rebuild(d1: Db, rm: RecordMap, user: nat, p: ProfileValues, tables: CsvExtraction.SleepExport): (r: Outcome<Db>)
    requires RecordMapIn(rm, d1.records)
  {
    var d2 := DeleteChildren(d1, user, IdsOf(rm));
    match NewSegments(tables.items, rm.ids)
    case Raises => Raises
    case Ok(segs) =>
      var d3 := d2.(segments := d2.segments + segs);
      match NewHeartRates(d3.records, rm, tables.night)
      case Raises => Raises
      case Ok(hrs) =>
        var d4 := d3.(heartRates := d3.heartRates + hrs);
        match NewStatistics(d4, user, rm, p)
        case Raises => Raises
        case Ok(rows) =>
          Ok(d4.(statistics := AddStatistics(d4.statistics, d4.nextStatId, rows), nextStatId := d4.nextStatId + |rows|))
  }

  /** The import after a successful parse, inside the transaction; a metadata row
      whose save raises rolls everything back. */
  function ImportTables(db: Db, user: nat, p: ProfileValues, tables: CsvExtraction.SleepExport): (r: (ImportStatus, Db))
  {
    if FirstUnsavable(tables.meta) < |tables.meta| then (Failed, db)
    else
      var (d1, rm) := UpsertAll(db, user, tables.meta);
      RecordMapIsStored(db, user, tables.meta);
      match Rebuild(d1, rm, user, p, tables)
      case Raises => (Failed, db)
      case Ok(d) => (Completed(|tables.meta|), d)
  }

  /** `import_sleep_records` as a function of the store, the profile, today's day
      number and the parse result; any exception leaves the store as it was. */
  function ImportSleepRecordsSpec(db: Db, profile: UserData, today: int, parsed: CsvExtraction.ParseResult): (ImportStatus, Db)
  {
    match parsed
    case Invalid => (InvalidFile, db)
    case Failed => (Failed, db)
    case Parsed(tables, _) => ImportTables(db, profile.user, ProfileValuesOf(profile, today), tables)
  }

  /** Every other user's record is unchanged. */
  predicate OtherUsersRecordsKept(before: Db, after: Db, user: nat) {
    forall id :: id in before.records && before.records[id].user != user ==> id in after.records && after.records[id] == before.records[id]
  }

  /** Every other user's statistics row is unchanged. */
  predicate OtherUsersStatisticsKept(before: Db, after: Db, user: nat) {
    forall id :: id in before.statistics && before.statistics[id].user != user ==> id in after.statistics && after.statistics[id] == before.statistics[id]
  }

  /** None of the user's old statistics rows is left. */
  predicate UserStatisticsGone(before: Db, after: Db, user: nat) {
    forall id :: id in before.statistics && before.statistics[id].user == user ==> id !in after.statistics
  }

  /** The segments and samples of records outside `ids` are still there. */
  predicate ChildrenKeptOutside(before: Db, after: Db, ids: set<nat>) {
    (forall x :: x in before.segments && x.record !in ids ==> x in after.segments) &&
    (forall x :: x in before.heartRates && x.record !in ids ==> x in after.heartRates)
  }

  /** `after` holds one new statistics row per date, under consecutive ids from
      `base` on, each for the user and with that date. */
  predicate StatisticsAppended(base: nat, after: Db, user: nat, dates: seq<int>) {
    after.nextStatId == base + |dates| &&
    forall id :: base <= id < base + |dates| ==>
      id in after.statistics &&
      after.statistics[id].user == user &&
      after.statistics[id].date == dates[id - base]
  }

  /** The rebuild keeps the store valid and the records as they are. */
  lemma RebuildKeepsValid(d1: Db, rm: RecordMap, user: nat, p: ProfileValues, tables: CsvExtraction.SleepExport)
    requires DbValid(d1) && RecordMapIn(rm, d1.records)
    requires Rebuild(d1, rm, user, p, tables).Ok?
    ensures DbValid(Rebuild(d1, rm, user, p, tables).value)
    ensures Rebuild(d1, rm, user, p, tables).value.records == d1.records
    ensures Rebuild(d1, rm, user, p, tables).value.index == d1.index
    ensures Rebuild(d1, rm, user, p, tables).value.nextRecordId == d1.nextRecordId
  {
    var d2 := DeleteChildren(d1, user, IdsOf(rm));
    assert DbValid(d2) by {
      forall i | 0 <= i < |d2.segments| ensures d2.segments[i].record in d2.records {
        assert d2.segments[i] in d1.segments;
      }
      forall i | 0 <= i < |d2.heartRates| ensures d2.heartRates[i].record in d2.records {
        assert d2.heartRates[i] in d1.heartRates;
      }
    }
    var segs := NewSegments(tables.items, rm.ids).value;
    var d3 := d2.(segments := d2.segments + segs);
    assert DbValid(d3) by {
      forall i | 0 <= i < |d3.segments| ensures d3.segments[i].record in d3.records {
        if i >= |d2.segments| {
          assert d3.segments[i] in segs;
        }
      }
    }
    var hrs := NewHeartRates(d3.records, rm, tables.night).value;
    var d4 := d3.(heartRates := d3.heartRates + hrs);
    assert DbValid(d4) by {
      forall i | 0 <= i < |d4.heartRates| ensures d4.heartRates[i].record in d4.records {
        if i >= |d3.heartRates| {
          assert d4.heartRates[i] in hrs;
        }
      }
    }
  }

  /** The rebuild removes all of the user's statistics and keeps everyone else's. */
  lemma RebuildReplacesUserStatistics(d1: Db, rm: RecordMap, user: nat, p: ProfileValues, tables: CsvExtraction.SleepExport)
    requires DbValid(d1) && RecordMapIn(rm, d1.records)
    requires Rebuild(d1, rm, user, p, tables).Ok?
    ensures OtherUsersStatisticsKept(d1, Rebuild(d1, rm, user, p, tables).value, user)
    ensures UserStatisticsGone(d1, Rebuild(d1, rm, user, p, tables).value, user)
  {
    var d2 := DeleteChildren(d1, user, IdsOf(rm));
    assert forall id :: id in d2.statistics ==> id < d1.nextStatId;
  }

  /** The rebuild adds one statistics row per record-map time, under consecutive
      new ids, dated by its record's night. */
  lemma RebuildAddsStatistics(d1: Db, rm: RecordMap, user: nat, p: ProfileValues, tables: CsvExtraction.SleepExport)
    requires RecordMapIn(rm, d1.records)
    requires Rebuild(d1, rm, user, p, tables).Ok?
    ensures StatisticsAppended(d1.nextStatId, Rebuild(d1, rm, user, p, tables).value, user, NightDays(d1.records, rm))
  {
    var d2 := DeleteChildren(d1, user, IdsOf(rm));
    var segs := NewSegments(tables.items, rm.ids).value;
    var d3 := d2.(segments := d2.segments + segs);
    var hrs := NewHeartRates(d3.records, rm, tables.night).value;
    var d4 := d3.(heartRates := d3.heartRates + hrs);
    var rows := NewStatistics(d4, user, rm, p).value;
    var d := d4.(statistics := AddStatistics(d4.statistics, d4.nextStatId, rows), nextStatId := d4.nextStatId + |rows|);
    assert Rebuild(d1, rm, user, p, tables) == Ok(d);
    NewStatisticsAreDated(d4, user, rm, p);
    var dates := NightDays(d1.records, rm);
    assert NightDays(d4.records, rm) == dates;
    assert d4.nextStatId == d1.nextStatId;
    AddedRowsAreDated(d4.statistics, d1.nextStatId, rows, user, dates, d);
  }

  /** Rows dated by `dates`, added under consecutive ids from `next`, are found there. */
  lemma AddedRowsAreDated(stats: map<nat, StatisticsRow>, next: nat, rows: seq<StatisticsRow>, user: nat, dates: seq<int>, after: Db)
    requires RowsDated(rows, user, dates)
    requires after.statistics == AddStatistics(stats, next, rows) && after.nextStatId == next + |rows|
    ensures StatisticsAppended(next, after, user, dates)
  {
    forall id | next <= id < next + |dates|
      ensures id in after.statistics && after.statistics[id].user == user && after.statistics[id].date == dates[id - next]
    {
      var i := id - next;
      assert after.statistics[next + i] == rows[i];
    }
  }

  /** The rebuild keeps the segments and samples of every record outside the record map. */
  lemma RebuildKeepsOtherChildren(d1: Db, rm: RecordMap, user: nat, p: ProfileValues, tables: CsvExtraction.SleepExport)
    requires RecordMapIn(rm, d1.records)
    requires Rebuild(d1, rm, user, p, tables).Ok?
    ensures ChildrenKeptOutside(d1, Rebuild(d1, rm, user, p, tables).value, IdsOf(rm))
  {
  }

  /** The import keeps the store valid. */
  lemma ImportKeepsStoreValid(db: Db, profile: UserData, today: int, parsed: CsvExtraction.ParseResult)
    requires DbValid(db)
    ensures DbValid(ImportSleepRecordsSpec(db, profile, today, parsed).1)
  {
    if parsed.Parsed? {
      var (d1, rm) := UpsertAll(db, profile.user, parsed.tables.meta);
      UpsertAllValid(db, profile.user, parsed.tables.meta);
      RecordMapIsStored(db, profile.user, parsed.tables.meta);
      if Rebuild(d1, rm, profile.user, ProfileValuesOf(profile, today), parsed.tables).Ok? {
        RebuildKeepsValid(d1, rm, profile.user, ProfileValuesOf(profile, today), parsed.tables);
      }
    }
  }

  /** A refused file or an exception changes nothing. */
  lemma ImportIsAtomic(db: Db, profile: UserData, today: int, parsed: CsvExtraction.ParseResult)
    ensures var (status, d) := ImportSleepRecordsSpec(db, profile, today, parsed);
      !status.Completed? ==> d == db
    ensures parsed.Invalid? <==> ImportSleepRecordsSpec(db, profile, today, parsed).0 == InvalidFile
  {
  }

  /** `imported` counts the metadata rows, duplicates included. */
  lemma ImportCountsMetadataRows(db: Db, profile: UserData, today: int, parsed: CsvExtraction.ParseResult)
    requires ImportSleepRecordsSpec(db, profile, today, parsed).0.Completed?
    ensures parsed.Parsed? && ImportSleepRecordsSpec(db, profile, today, parsed).0.imported == |parsed.tables.meta|
  {
  }

  /** Other users' records and statistics are untouched, the user's old
      statistics are gone, and only the child rows of the upserted records are
      replaced. */
  lemma ImportLeavesOthersAlone(db: Db, profile: UserData, today: int, parsed: CsvExtraction.ParseResult)
    requires DbValid(db)
    requires ImportSleepRecordsSpec(db, profile, today, parsed).0.Completed?
    ensures var d := ImportSleepRecordsSpec(db, profile, today, parsed).1;
      OtherUsersRecordsKept(db, d, profile.user) &&
      OtherUsersStatisticsKept(db, d, profile.user) && UserStatisticsGone(db, d, profile.user) &&
      ChildrenKeptOutside(db, d, IdsOf(UpsertAll(db, profile.user, parsed.tables.meta).1))
  {
    var user := profile.user;
    var p := ProfileValuesOf(profile, today);
    var (d1, rm) := UpsertAll(db, user, parsed.tables.meta);
    UpsertAllValid(db, user, parsed.tables.meta);
    UpsertAllKeepsUnlisted(db, user, parsed.tables.meta);
    RecordMapIsStored(db, user, parsed.tables.meta);
    RebuildKeepsValid(d1, rm, user, p, parsed.tables);
    RebuildReplacesUserStatistics(d1, rm, user, p, parsed.tables);
    RebuildKeepsOtherChildren(d1, rm, user, p, parsed.tables);
  }

  /** The day numbers of the given instants. */
  function DaysOf(times: seq<int>): (r: seq<int>)
    ensures |r| == |times| && forall i :: 0 <= i < |times| ==> r[i] == Clock.DayNumber(times[i])
  {
    seq(|times|, i requires 0 <= i < |times| => Clock.DayNumber(times[i]))
  }

  /** In a valid store, the record of each record-map time is the one stored at
      that time, so its night is that time's day. */
  lemma NightDaysAreSessionDays(db: Db, user: nat, meta: seq<CsvExtraction.MetaRow>)
    requires DbValid(db)
    ensures RecordMapIn(UpsertAll(db, user, meta).1, UpsertAll(db, user, meta).0.records)
    ensures NightDays(UpsertAll(db, user, meta).0.records, UpsertAll(db, user, meta).1) == DaysOf(UpsertAll(db, user, meta).1.times)
  {
    var (d1, rm) := UpsertAll(db, user, meta);
    UpsertAllRecordMap(db, user, meta);
    UpsertAllKeepsLastFields(db, user, meta);
    RecordMapIsStored(db, user, meta);
    forall i | 0 <= i < |rm.times| ensures NightDays(d1.records, rm)[i] == DaysOf(rm.times)[i] {
      assert HasTime(meta, rm.times[i]);
    }
  }

  /** A completed import of parsed tables appends one row per session time. */
  lemma ImportTablesAppendsStatistics(db: Db, user: nat, p: ProfileValues, tables: CsvExtraction.SleepExport)
    requires DbValid(db)
    requires ImportTables(db, user, p, tables).0.Completed?
    ensures StatisticsAppended(db.nextStatId, ImportTables(db, user, p, tables).1, user, DaysOf(UpsertAll(db, user, tables.meta).1.times))
  {
    var (d1, rm) := UpsertAll(db, user, tables.meta);
    NightDaysAreSessionDays(db, user, tables.meta);
    assert Rebuild(d1, rm, user, p, tables).Ok?;
    var d := Rebuild(d1, rm, user, p, tables).value;
    assert ImportTables(db, user, p, tables).1 == d;
    RebuildAddsStatistics(d1, rm, user, p, tables);
    assert d1.nextStatId == db.nextStatId;
  }

  /** Exactly one statistics row per distinct session time is created, for the
      user, dated by that session's night. */
  lemma ImportCreatesOneStatisticPerSession(db: Db, profile: UserData, today: int, parsed: CsvExtraction.ParseResult)
    requires DbValid(db)
    requires ImportSleepRecordsSpec(db, profile, today, parsed).0.Completed?
    ensures var rm := UpsertAll(db, profile.user, parsed.tables.meta).1;
      StatisticsAppended(db.nextStatId, ImportSleepRecordsSpec(db, profile, today, parsed).1, profile.user, DaysOf(rm.times)) &&
      Text.Distinct(rm.times) && (forall t :: t in rm.times <==> HasTime(parsed.tables.meta, t))
  {
    UpsertAllRecordMap(db, profile.user, parsed.tables.meta);
    ImportTablesAppendsStatistics(db, profile.user, ProfileValuesOf(profile, today), parsed.tables);
  }

  /** A completed import saved every metadata row. */
  lemma ImportNeedsSavableRows(db: Db, user: nat, p: ProfileValues, tables: CsvExtraction.SleepExport)
    requires ImportTables(db, user, p, tables).0.Completed?
    ensures forall i :: 0 <= i < |tables.meta| ==> RowSavable(tables.meta, i)
  {
  }

  /** Two sessions of which only the first has a `duration`: the second row's
      duration is NaN, its save raises and nothing is written. */
  lemma MissingColumnValueFails(db: Db, user: nat, p: ProfileValues, tables: CsvExtraction.SleepExport)
    requires |tables.meta| == 2
    requires "duration" in tables.meta[0].fields && tables.meta[0].fields["duration"].JInt?
    requires "duration" !in tables.meta[1].fields
    ensures ImportTables(db, user, p, tables) == (Failed, db)
  {
    assert ColumnHasValue(tables.meta, "duration");
    assert !RowSavable(tables.meta, 1);
  }

  /** A column that is null in one session and absent from the other: the absent
      cell makes the column NaN throughout, so the very first save raises and
      nothing is written. */
  lemma NullThenAbsentFails(db: Db, user: nat, p: ProfileValues, tables: CsvExtraction.SleepExport)
    requires |tables.meta| == 2
    requires "min_hr" in tables.meta[0].fields && tables.meta[0].fields["min_hr"].JNull?
    requires "min_hr" !in tables.meta[1].fields
    ensures FirstUnsavable(tables.meta) == 0
    ensures ImportTables(db, user, p, tables) == (Failed, db)
  {
    assert ColumnExists(tables.meta, "min_hr") && ColumnMissing(tables.meta, "min_hr");
    assert !RowSavable(tables.meta, 0);
  }

  /** A column that is null in every session keeps None in each, and the saves go
      through. */
  lemma NullColumnSaves(meta: seq<CsvExtraction.MetaRow>)
    requires meta == [CsvExtraction.Row(0, map["has_rem" := CsvExtraction.JBool(true), "min_hr" := CsvExtraction.JNull]),
                      CsvExtraction.Row(86400, map["has_rem" := CsvExtraction.JBool(false), "min_hr" := CsvExtraction.JNull])]
    ensures FirstUnsavable(meta) == |meta|
  {
    assert forall key :: key in NumberKeys && ColumnExists(meta, key) ==> key == "min_hr";
    assert !ColumnHasValue(meta, "min_hr") && !ColumnMissing(meta, "min_hr");
    assert RowSavable(meta, 0) && RowSavable(meta, 1);
  }
}
