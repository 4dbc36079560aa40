/** The stored entities of the sleep tracker (backend/backend/models/models.py):
    the user profile, a night's sleep record, its segments and heart-rate samples,
    and the statistics row computed from them; the two profile helpers; the field
    constraints; and the orderings of the query class methods, over a table given
    as a sequence of rows. */
module Models {
  import opened Wrappers
  import Clock
  import Sorting

  /** The profile one user fills in. `dateOfBirth` is a day number. */
  datatype UserData = UserData(user: nat, dateOfBirth: int, weight: real, gender: int, height: int, active: bool)

  /** Age in calendar months; the day of the month plays no part. */
  function AgeMonths(birth: Clock.CivilDate, today: Clock.CivilDate): (r: int)
    ensures birth.month == today.month ==> r == 12 * (today.year - birth.year)
    ensures birth.year == today.year ==> r == today.month - birth.month
  {
    (today.year - birth.year) * 12 + (today.month - birth.month)
  }

  /** `UserData.get_age_months`, with the current date passed in as a day number. */
  function ProfileAgeMonths(profile: UserData, today: int): int {
    AgeMonths(Clock.CivilFromDays(profile.dateOfBirth), Clock.CivilFromDays(today))
  }

  /** The day of the month plays no part. */
  lemma AgeMonthsIgnoresDay(birth: Clock.CivilDate, today: Clock.CivilDate, birthDay: int, todayDay: int)
    ensures AgeMonths(birth, today) ==
      AgeMonths(Clock.CivilDate(birth.year, birth.month, birthDay), Clock.CivilDate(today.year, today.month, todayDay))
  {
  }

  /** One more year of life adds exactly twelve months, in any month. */
  lemma AgeMonthsAdvancesByYear(birth: Clock.CivilDate, today: Clock.CivilDate)
    ensures AgeMonths(birth, Clock.CivilDate(today.year + 1, today.month, today.day)) == AgeMonths(birth, today) + 12
  {
  }

  /** The label of the stored gender code; note the trailing space of the first one. */
  function GenderLabel(gender: int): (r: string)
    ensures r == "Женский " <==> gender == 0
    ensures r == "Мужской" <==> gender != 0
  {
    if gender == 0 then "Женский " else "Мужской"
  }

  /** The nullable per-night fields of a sleep record; timestamps are seconds. */
  datatype SessionFields = SessionFields(
    sleepRemDuration: Option<int>,
    hasRem: Option<bool>,
    minHr: Option<int>,
    deviceBedtime: Option<int>,
    sleepDeepDuration: Option<int>,
    wakeUpTime: Option<int>,
    bedtime: Option<int>,
    awakeCount: Option<int>,
    duration: Option<int>,
    maxHr: Option<int>,
    sleepAwakeDuration: Option<int>,
    avgHr: Option<int>,
    sleepLightDuration: Option<int>,
    deviceWakeUpTime: Option<int>)

  /** A sleep record row: owner, the night's timestamp (together the natural key) and its fields. */
  datatype SleepRecord = SleepRecord(user: nat, sleepDateTime: int, fields: SessionFields)

  /** Segment state codes. */
  const Light := 2
  const Deep := 3
  const Rem := 4
  const Awake := 5

  datatype Segment = Segment(startTime: int, endTime: int, state: int)

  /** A segment row belongs to the record with id `record`. */
  datatype SegmentRow = SegmentRow(record: nat, segment: Segment)

  datatype HeartRateRow = HeartRateRow(record: nat, time: int, bpm: int)

  /** The record a child row belongs to. */
  function SegmentRecord(r: SegmentRow): nat { r.record }

  function HeartRateRecord(r: HeartRateRow): nat { r.record }

  /** The four phase shares, in percent, stored in the `sleep_phases` JSON column. */
  datatype Phases = Phases(deep: real, light: real, rem: real, awake: real)

  /** A statistics row; `date` is a day number. */
  datatype StatisticsRow = StatisticsRow(
    user: nat,
    date: int,
    latencyMinutes: Option<real>,
    sleepEfficiency: Option<real>,
    sleepPhases: Option<Phases>,
    sleepFragmentationIndex: Option<real>,
    sleepCaloriesBurned: Option<real>,
    recommended: Option<string>)

  /** The choices and validators the model classes declare. */
  predicate ValidGender(g: int) { g == 0 || g == 1 }
  predicate ValidSegmentState(s: int) { Light <= s <= Awake }
  predicate ValidBpm(b: int) { 0 <= b <= 300 }
  predicate ValidPhaseDuration(d: Option<int>) { d.None? || 0 <= d.value <= 1440 }
  predicate ValidProfile(p: UserData) { p.weight >= 10.0 && ValidGender(p.gender) && p.height >= 10 }

  /** The phase-duration fields that violate their validator. */
  function PhaseDurationErrors(f: SessionFields): (r: set<string>)
    ensures r == {} <==> ValidPhaseDuration(f.sleepRemDuration) && ValidPhaseDuration(f.sleepDeepDuration) && ValidPhaseDuration(f.sleepLightDuration)
    ensures r <= {"sleep_rem_duration", "sleep_deep_duration", "sleep_light_duration"}
  {
    (if ValidPhaseDuration(f.sleepRemDuration) then {} else {"sleep_rem_duration"}) +
    (if ValidPhaseDuration(f.sleepDeepDuration) then {} else {"sleep_deep_duration"}) +
    (if ValidPhaseDuration(f.sleepLightDuration) then {} else {"sleep_light_duration"})
  }

  /** A table row with its primary key. */
  datatype Keyed<T> = Keyed(id: nat, row: T)

  /** `objects.filter(user=user)`: the rows `owner` gives to the user, in table order. */
  function RowsOf<T>(table: seq<Keyed<T>>, user: nat, owner: T -> nat): (r: seq<Keyed<T>>)
    ensures forall i :: 0 <= i < |r| ==> r[i] in table && owner(r[i].row) == user
    ensures forall x :: x in table && owner(x.row) == user ==> x in r
  {
    if table == [] then []
    else (if owner(table[0].row) == user then [table[0]] else []) + RowsOf(table[1..], user, owner)
  }

  function RecordOwner(r: SleepRecord): nat { r.user }

  function StatisticsOwner(r: StatisticsRow): nat { r.user }

  /** `order_by('-sleep_date_time', 'id')`. */
  predicate NewerRecordFirst(a: Keyed<SleepRecord>, b: Keyed<SleepRecord>) {
    a.row.sleepDateTime > b.row.sleepDateTime || (a.row.sleepDateTime == b.row.sleepDateTime && a.id <= b.id)
  }

  lemma NewerRecordFirstIsTotal()
    ensures Sorting.TotalPreorder(NewerRecordFirst)
  {
  }

  /** `get_delta_days_sleep_records`: the user's records, newest first, ties by id. */
  function DeltaDaysSleepRecords(table: seq<Keyed<SleepRecord>>, user: nat): seq<Keyed<SleepRecord>> {
    Sorting.InsertionSort(RowsOf(table, user, RecordOwner), NewerRecordFirst)
  }

  /** `get_last_sleep_records`: the first seven of the newest-first order. */
  function LastSleepRecords(table: seq<Keyed<SleepRecord>>, user: nat): (r: seq<Keyed<SleepRecord>>)
    ensures |r| <= 7
  {
    var all := DeltaDaysSleepRecords(table, user);
    if |all| <= 7 then all else all[..7]
  }

  /** Any element a sorted list holds beyond its first `n` is ordered after the n-th. */
  lemma {:induction false} BeyondPrefixIsLater<T(!new)>(all: seq<T>, n: nat, x: T, le: (T, T) -> bool)
    requires Sorting.SortedBy(all, le)
    requires 0 < n < |all| && x in all && x !in all[..n]
    ensures le(all[n - 1], x)
  {
    var k :| 0 <= k < |all| && all[k] == x;
    assert k >= n;
  }

  /** At most seven of the user's records, in newest-first order, and none of the
      user's records left out is newer than the last one taken. */
  lemma LastSleepRecordsAreTheNewest(table: seq<Keyed<SleepRecord>>, user: nat)
    ensures var r := LastSleepRecords(table, user);
      (forall x :: x in r ==> x in table && x.row.user == user) &&
      (forall i, j :: 0 <= i < j < |r| ==> NewerRecordFirst(r[i], r[j])) &&
      (forall x :: x in table && x.row.user == user && x !in r ==>
        |r| == 7 && x.row.sleepDateTime <= r[6].row.sleepDateTime)
  {
    DeltaDaysSleepRecordsOrder(table, user);
    var all := DeltaDaysSleepRecords(table, user);
    var r := LastSleepRecords(table, user);
    if |all| > 7 {
      assert r == all[..7];
      forall x | x in table && x.row.user == user && x !in r
        ensures NewerRecordFirst(r[6], x)
      {
        BeyondPrefixIsLater(all, 7, x, NewerRecordFirst);
      }
      forall x | x in r ensures x in all {
        var k :| 0 <= k < 7 && r[k] == x;
        assert all[k] == x;
      }
    }
  }

  /** `order_by('-date', 'id')` on statistics rows. */
  predicate NewerStatisticsFirst(a: Keyed<StatisticsRow>, b: Keyed<StatisticsRow>) {
    a.row.date > b.row.date || (a.row.date == b.row.date && a.id <= b.id)
  }

  /** `get_delta_days_sleep_statistics`: the user's rows, latest date first, ties by ascending id. */
  function DeltaDaysSleepStatistics(table: seq<Keyed<StatisticsRow>>, user: nat): seq<Keyed<StatisticsRow>> {
    Sorting.InsertionSort(RowsOf(table, user, StatisticsOwner), NewerStatisticsFirst)
  }

  /** The delta query holds exactly the user's rows, ordered by date descending and
      then by id ascending. */
  lemma DeltaDaysSleepStatisticsOrder(table: seq<Keyed<StatisticsRow>>, user: nat)
    ensures var r := DeltaDaysSleepStatistics(table, user);
      (forall x :: x in r <==> x in table && x.row.user == user) &&
      (forall i, j :: 0 <= i < j < |r| ==>
        r[i].row.date > r[j].row.date || (r[i].row.date == r[j].row.date && r[i].id <= r[j].id))
  {
    var mine := RowsOf(table, user, StatisticsOwner);
    assert Sorting.TotalPreorder(NewerStatisticsFirst);
    Sorting.InsertionSortSorted(mine, NewerStatisticsFirst);
    var r := DeltaDaysSleepStatistics(table, user);
    forall x ensures x in r <==> x in table && x.row.user == user {
      assert x in r <==> x in multiset(r);
      assert x in mine <==> x in multiset(mine);
    }
  }

  /** The same order for records. */
  lemma DeltaDaysSleepRecordsOrder(table: seq<Keyed<SleepRecord>>, user: nat)
    ensures var r := DeltaDaysSleepRecords(table, user);
      (forall x :: x in r <==> x in table && x.row.user == user) &&
      (forall i, j :: 0 <= i < j < |r| ==> NewerRecordFirst(r[i], r[j]))
  {
    var mine := RowsOf(table, user, RecordOwner);
    NewerRecordFirstIsTotal();
    Sorting.InsertionSortSorted(mine, NewerRecordFirst);
    var r := DeltaDaysSleepRecords(table, user);
    forall x ensures x in r <==> x in table && x.row.user == user {
      assert x in r <==> x in multiset(r);
      assert x in mine <==> x in multiset(mine);
    }
  }

  /** `get_last_sleep_statistics`: the first row of the latest-date order, or None. */
  function LastSleepStatistics(table: seq<Keyed<StatisticsRow>>, user: nat): Option<Keyed<StatisticsRow>> {
    var all := DeltaDaysSleepStatistics(table, user);
    if all == [] then None else Some(all[0])
  }

  /** The row returned has the user's latest date; None only when the user has no row. */
  lemma LastSleepStatisticsIsLatest(table: seq<Keyed<StatisticsRow>>, user: nat)
    ensures var r := LastSleepStatistics(table, user);
      (r.None? <==> forall x :: x in table ==> x.row.user != user) &&
      (r.Some? ==> r.value in table && r.value.row.user == user &&
                   forall x :: x in table && x.row.user == user ==> x.row.date <= r.value.row.date)
  {
    DeltaDaysSleepStatisticsOrder(table, user);
    var all := DeltaDaysSleepStatistics(table, user);
    if all != [] {
      forall x | x in table && x.row.user == user ensures x.row.date <= all[0].row.date {
        assert x in all;
        var k :| 0 <= k < |all| && all[k] == x;
        if k > 0 {
          assert NewerStatisticsFirst(all[0], all[k]);
        }
      }
    } else {
      forall x | x in table ensures x.row.user != user {
        assert x !in all;
      }
    }
  }
}
