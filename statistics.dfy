/** The statistics calculator (sleep_statistic/calculate_sleep_statistic.py).
    Records are `Models.SessionFields` with every field nullable, as stored; a
    Python exception raised by a missing field (comparing or adding None,
    `int(None)`, indexing an empty query) is the `Raises` outcome. Amounts are
    exact reals: the source's float rounding is not modelled. */
module SleepStatistic {
  import opened Wrappers
  import Numeric
  import Clock
  import Sorting
  import opened Models
  import NumToStr
  import Text

  // ---------------------------------------------------------------------------
  // Calories

  /** Mifflin-St Jeor basal metabolic rate in kcal per day; the age is in months. */
  function Bmr(gender: int, weight: real, height: int, ageMonths: real): real {
    10.0 * weight + 6.25 * height as real - 5.0 * ageMonths / 12.0 + (if gender != 0 then 5.0 else -161.0)
  }

  /** `calculate_calories_burned` before its final rounding: the basal rate
      prorated to the minutes slept. */
  function CaloriesBurned(gender: int, weight: real, height: int, ageMonths: real, sleepDuration: int): (r: real)
    ensures r * 1440.0 == Bmr(gender, weight, height, ageMonths) * sleepDuration as real
  {
    Bmr(gender, weight, height, ageMonths) * (sleepDuration as real / 60.0) / 24.0
  }

  /** 70 kg, 175 cm, 360 months, male, 480 minutes: a third of 1648.75 kcal. */
  lemma CaloriesExample()
    ensures Bmr(1, 70.0, 175, 360.0) == 1648.75
    ensures CaloriesBurned(1, 70.0, 175, 360.0, 480) == 1648.75 / 3.0
  {
  }

  /** Minutes of sleep add up: the calories of two stretches are the calories of the whole. */
  lemma CaloriesAdditive(gender: int, weight: real, height: int, ageMonths: real, d1: int, d2: int)
    ensures CaloriesBurned(gender, weight, height, ageMonths, d1 + d2) ==
      CaloriesBurned(gender, weight, height, ageMonths, d1) + CaloriesBurned(gender, weight, height, ageMonths, d2)
  {
  }

  /** Every non-zero gender code gets the male constant, 166 kcal per day above the female one. */
  lemma CaloriesGenderGap(gender: int, weight: real, height: int, ageMonths: real, d: int)
    requires gender != 0
    ensures CaloriesBurned(gender, weight, height, ageMonths, d) - CaloriesBurned(0, weight, height, ageMonths, d) ==
      166.0 * d as real / 1440.0
  {
  }

  // ---------------------------------------------------------------------------
  // Effective bed and wake times

  /** `evaluate_bedtime`: the earlier of the two, the device's on a tie. */
  function EvaluateBedtime(deviceBedtime: int, bedtime: int): (r: int)
    ensures r <= deviceBedtime && r <= bedtime
    ensures r == deviceBedtime || r == bedtime
    ensures deviceBedtime <= bedtime ==> r == deviceBedtime
  {
    if deviceBedtime <= bedtime then deviceBedtime else bedtime
  }

  /** `evaluate_wake_time`: the later of the two, the device's on a tie. */
  function EvaluateWakeTime(deviceWakeUpTime: int, wakeUpTime: int): (r: int)
    ensures r >= deviceWakeUpTime && r >= wakeUpTime
    ensures r == deviceWakeUpTime || r == wakeUpTime
    ensures deviceWakeUpTime >= wakeUpTime ==> r == deviceWakeUpTime
  {
    if deviceWakeUpTime >= wakeUpTime then deviceWakeUpTime else wakeUpTime
  }

  /** On a stored record, where comparing a missing time raises. */
  function EffectiveBedtime(f: SessionFields): (r: Outcome<int>)
    ensures r.Ok? <==> f.deviceBedtime.Some? && f.bedtime.Some?
    ensures r.Ok? ==> r.value <= f.deviceBedtime.value && r.value <= f.bedtime.value
  {
    if f.deviceBedtime.Some? && f.bedtime.Some? then Ok(EvaluateBedtime(f.deviceBedtime.value, f.bedtime.value))
    else Raises
  }

  function EffectiveWakeTime(f: SessionFields): (r: Outcome<int>)
    ensures r.Ok? <==> f.deviceWakeUpTime.Some? && f.wakeUpTime.Some?
    ensures r.Ok? ==> r.value >= f.deviceWakeUpTime.value && r.value >= f.wakeUpTime.value
  {
    if f.deviceWakeUpTime.Some? && f.wakeUpTime.Some? then Ok(EvaluateWakeTime(f.deviceWakeUpTime.value, f.wakeUpTime.value))
    else Raises
  }

  // ---------------------------------------------------------------------------
  // Sleep cycles

  function SegmentMinutes(s: Segment): real {
    (s.endTime - s.startTime) as real / 60.0
  }

  predicate IsSleepState(state: int) {
    state == Light || state == Deep || state == Rem
  }

  /** Minutes of Light, Deep and REM in a run of segments; Awake minutes are not added. */
  function SleepMinutes(run: seq<Segment>): real {
    if run == [] then 0.0
    else
      var last := run[|run| - 1];
      SleepMinutes(run[..|run| - 1]) + (if IsSleepState(last.state) then SegmentMinutes(last) else 0.0)
  }

  predicate HasState(run: seq<Segment>, state: int) {
    run != [] && (HasState(run[..|run| - 1], state) || run[|run| - 1].state == state)
  }

  lemma {:induction false} HasStateMeans(run: seq<Segment>, state: int)
    ensures HasState(run, state) <==> exists i :: 0 <= i < |run| && run[i].state == state
  {
    if run != [] {
      HasStateMeans(run[..|run| - 1], state);
      if HasState(run[..|run| - 1], state) {
        var i :| 0 <= i < |run| - 1 && run[..|run| - 1][i].state == state;
        assert run[i].state == state;
      }
    }
  }

  /** A cycle counts when it lasts at least 90 minutes and holds Deep and REM sleep. */
  predicate Completes(run: seq<Segment>) {
    SleepMinutes(run) >= 90.0 && HasState(run, Deep) && HasState(run, Rem)
  }

  /** The segment closing the first cycle: the first Awake segment, or else the last one. */
  function CloseIndex(segs: seq<Segment>): (k: nat)
    requires segs != []
    ensures k < |segs|
    ensures forall i :: 0 <= i < k ==> segs[i].state != Awake
    ensures k < |segs| - 1 ==> segs[k].state == Awake
  {
    if segs[0].state == Awake || |segs| == 1 then 0 else 1 + CloseIndex(segs[1..])
  }

  /** The number of completed cycles, cutting the night after every Awake segment
      and at its end. Independent of the counting loop below. */
  function CompletedCycles(segs: seq<Segment>): nat
    decreases |segs|
  {
    if segs == [] then 0
    else
      var k := CloseIndex(segs);
      (if Completes(segs[..k + 1]) then 1 else 0) + CompletedCycles(segs[k + 1..])
  }

  /** A prefix that ends with an Awake segment is closed: cycles after it start afresh. */
  lemma {:induction false} CloseIndexOfExtension(a: seq<Segment>, b: seq<Segment>)
    requires a != [] && a[|a| - 1].state == Awake
    ensures CloseIndex(a + b) == CloseIndex(a)
    decreases |a|
  {
    if a[0].state != Awake && |a| > 1 {
      assert (a + b)[1..] == a[1..] + b;
      CloseIndexOfExtension(a[1..], b);
    }
  }

  lemma {:induction false} CyclesAppendRun(a: seq<Segment>, b: seq<Segment>)
    requires a == [] || a[|a| - 1].state == Awake
    requires b != [] && forall i :: 0 <= i < |b| - 1 ==> b[i].state != Awake
    ensures CompletedCycles(a + b) == CompletedCycles(a) + (if Completes(b) then 1 else 0)
    decreases |a|
  {
    if a == [] {
      assert a + b == b;
      var k := CloseIndex(b);
      assert k == |b| - 1;
      assert b[..k + 1] == b;
      assert b[k + 1..] == [];
      CyclesUnfold(b, k, b, []);
    } else {
      var k := CloseIndex(a);
      var first, rest := a[..k + 1], a[k + 1..];
      CloseIndexOfExtension(a, b);
      assert (a + b)[..k + 1] == first;
      assert (a + b)[k + 1..] == rest + b;
      CyclesAppendRun(rest, b);
      CyclesUnfold(a, k, first, rest);
      CyclesUnfold(a + b, k, first, rest + b);
    }
  }

  /** One step of `CompletedCycles`: the first cycle, then the rest of the night. */
  lemma CyclesUnfold(segs: seq<Segment>, k: nat, first: seq<Segment>, rest: seq<Segment>)
    requires segs != [] && k == CloseIndex(segs)
    requires first == segs[..k + 1] && rest == segs[k + 1..]
    ensures CompletedCycles(segs) == (if Completes(first) then 1 else 0) + CompletedCycles(rest)
  {
  }

  /** Extending the open run by one segment. */
  lemma RunExtend(segments: seq<Segment>, j: nat, i: nat)
    requires j <= i < |segments|
    ensures var x := segments[i];
      SleepMinutes(segments[j..i + 1]) == SleepMinutes(segments[j..i]) + (if IsSleepState(x.state) then SegmentMinutes(x) else 0.0) &&
      (HasState(segments[j..i + 1], Deep) <==> HasState(segments[j..i], Deep) || x.state == Deep) &&
      (HasState(segments[j..i + 1], Rem) <==> HasState(segments[j..i], Rem) || x.state == Rem)
  {
    assert segments[j..i + 1][..i - j] == segments[j..i];
  }

  /** Closing the open run adds its cycle, if it completes one, to the count so far. */
  lemma RunClose(segments: seq<Segment>, j: nat, i: nat)
    requires j <= i < |segments|
    requires j == 0 || segments[j - 1].state == Awake
    requires forall m :: j <= m < i ==> segments[m].state != Awake
    ensures CompletedCycles(segments[..i + 1]) == CompletedCycles(segments[..j]) + (if Completes(segments[j..i + 1]) then 1 else 0)
  {
    var run := segments[j..i + 1];
    assert segments[..i + 1] == segments[..j] + run;
    CyclesAppendRun(segments[..j], run);
  }

  /** What the counting loop knows after `i` segments: the runs closed before `j`
      are counted, and the open run `segments[j..i]` is summed up by the three
      running variables. */
  predicate Counted(segments: seq<Segment>, i: nat, j: nat, dur: real, deep: bool, rem: bool, count: nat) {
    j <= i <= |segments| && (j < i ==> i < |segments|) &&
    (j == 0 || j == |segments| || segments[j - 1].state == Awake) &&
    (forall m :: j <= m < i ==> segments[m].state != Awake) &&
    dur == SleepMinutes(segments[j..i]) && deep == HasState(segments[j..i], Deep) &&
    rem == HasState(segments[j..i], Rem) && count == CompletedCycles(segments[..j])
  }

  /** A segment that does not close the run extends it. */
  lemma CountOpen(segments: seq<Segment>, i: nat, j: nat, dur: real, deep: bool, rem: bool, count: nat,
                  dur': real, deep': bool, rem': bool)
    requires Counted(segments, i, j, dur, deep, rem, count) && i < |segments| - 1
    requires segments[i].state != Awake
    requires dur' == dur + (if IsSleepState(segments[i].state) then SegmentMinutes(segments[i]) else 0.0)
    requires deep' == (deep || segments[i].state == Deep) && rem' == (rem || segments[i].state == Rem)
    ensures Counted(segments, i + 1, j, dur', deep', rem', count)
  {
    RunExtend(segments, j, i);
  }

  /** An Awake segment, or the last one, closes the run and counts its cycle. */
  lemma CountClose(segments: seq<Segment>, i: nat, j: nat, dur: real, deep: bool, rem: bool, count: nat,
                   dur': real, deep': bool, rem': bool, count': nat)
    requires Counted(segments, i, j, dur, deep, rem, count) && i < |segments|
    requires segments[i].state == Awake || i == |segments| - 1
    requires dur' == dur + (if IsSleepState(segments[i].state) then SegmentMinutes(segments[i]) else 0.0)
    requires deep' == (deep || segments[i].state == Deep) && rem' == (rem || segments[i].state == Rem)
    requires count' == count + (if dur' >= 90.0 && deep' && rem' then 1 else 0)
    ensures Counted(segments, i + 1, i + 1, 0.0, false, false, count')
  {
    RunExtend(segments, j, i);
    RunClose(segments, j, i);
    assert segments[i + 1..i + 1] == [];
  }

  /** The counting loop of `calculate_cycle_count` over segments already in start order. */
  method CountCycles(segments: seq<Segment>) returns (cycleCount: nat)
    ensures cycleCount == CompletedCycles(segments)
  {
    cycleCount := 0;
    var currentCycleDuration := 0.0;
    var hasDeep := false;
    var hasRem := false;
    ghost var j := 0;
    assert segments[..0] == [];
    for i := 0 to |segments|
      invariant Counted(segments, i, j, currentCycleDuration, hasDeep, hasRem, cycleCount)
    {
      var seg := segments[i];
      ghost var d0, e0, r0, c0 := currentCycleDuration, hasDeep, hasRem, cycleCount;
      var durationMin := SegmentMinutes(seg);
      if IsSleepState(seg.state) {
        currentCycleDuration := currentCycleDuration + durationMin;
        if seg.state == Deep {
          hasDeep := true;
        }
        if seg.state == Rem {
          hasRem := true;
        }
      }
      if seg.state == Awake || i == |segments| - 1 {
        if currentCycleDuration >= 90.0 && hasDeep && hasRem {
          cycleCount := cycleCount + 1;
        }
        CountClose(segments, i, j, d0, e0, r0, c0, currentCycleDuration, hasDeep, hasRem, cycleCount);
        currentCycleDuration := 0.0;
        hasDeep := false;
        hasRem := false;
        j := i + 1;
      } else {
        CountOpen(segments, i, j, d0, e0, r0, c0, currentCycleDuration, hasDeep, hasRem);
      }
    }
    assert segments[..|segments|] == segments;
  }

  predicate StartsNoLater(a: Segment, b: Segment) {
    a.startTime <= b.startTime
  }

  /** `sleep_data.segments.order_by('start_time')`; the order among equal start
      times, which the database leaves open, is here the stored order. */
  function SegmentsByStart(segments: seq<Segment>): (r: seq<Segment>)
    ensures multiset(r) == multiset(segments)
  {
    Sorting.InsertionSort(segments, StartsNoLater)
  }

  lemma SegmentsByStartSorted(segments: seq<Segment>)
    ensures Sorting.SortedBy(SegmentsByStart(segments), StartsNoLater)
  {
    assert Sorting.TotalPreorder(StartsNoLater);
    Sorting.InsertionSortSorted(segments, StartsNoLater);
  }

  /** `calculate_cycle_count` on a record's segments. */
  method CalculateCycleCount(segments: seq<Segment>) returns (cycleCount: nat)
    ensures cycleCount == CompletedCycles(SegmentsByStart(segments))
  {
    cycleCount := CountCycles(SegmentsByStart(segments));
  }

  /** Every close resets the flags, so a night without a Deep (or without a REM)
      segment has no cycle at all. */
  lemma {:induction false} NoCycleWithoutState(segs: seq<Segment>, state: int)
    requires state == Deep || state == Rem
    requires forall i :: 0 <= i < |segs| ==> segs[i].state != state
    ensures CompletedCycles(segs) == 0
    decreases |segs|
  {
    if segs != [] {
      var k := CloseIndex(segs);
      HasStateMeans(segs[..k + 1], state);
      NoCycleWithoutState(segs[k + 1..], state);
    }
  }

  /** Light 30, Deep 60, REM 20 minutes and then Awake make one cycle. */
  lemma CycleExample()
    ensures CompletedCycles([
      Segment(1763848800, 1763850600, Light),
      Segment(1763850600, 1763854200, Deep),
      Segment(1763854200, 1763855400, Rem),
      Segment(1763855400, 1763855700, Awake)]) == 1
  {
    var segs := [
      Segment(1763848800, 1763850600, Light),
      Segment(1763850600, 1763854200, Deep),
      Segment(1763854200, 1763855400, Rem),
      Segment(1763855400, 1763855700, Awake)];
    assert CloseIndex(segs) == 3;
    assert segs[..4] == segs && segs[4..] == [];
    assert segs[..3] == segs[..4][..3];
    assert segs[..2] == segs[..3][..2];
    assert segs[..1] == segs[..2][..1];
    assert segs[..1][..0] == [];
    assert SleepMinutes(segs[..1]) == 30.0;
    assert SleepMinutes(segs[..2]) == 90.0;
    assert SleepMinutes(segs[..3]) == 110.0;
    assert SleepMinutes(segs) == 110.0;
    assert HasState(segs[..2], Deep);
    assert HasState(segs[..3], Deep);
    assert HasState(segs, Deep);
    assert HasState(segs[..3], Rem);
    assert HasState(segs, Rem);
    assert Completes(segs);
    assert CompletedCycles(segs) == 1 + CompletedCycles(segs[4..]);
  }

  /** The threshold is inclusive, and the last segment closes a cycle even when it
      is not Awake: 60 Deep + 30 REM minutes make one cycle. */
  lemma CycleThresholdInclusive()
    ensures CompletedCycles([Segment(0, 3600, Deep), Segment(3600, 5400, Rem)]) == 1
  {
    var segs := [Segment(0, 3600, Deep), Segment(3600, 5400, Rem)];
    assert CloseIndex(segs) == 1;
    assert segs[..2] == segs && segs[2..] == [];
    assert segs[..1][..0] == [];
    assert SleepMinutes(segs[..1]) == 60.0;
    assert SleepMinutes(segs) == 90.0;
    assert HasState(segs[..1], Deep);
  }

  // ---------------------------------------------------------------------------
  // Clock minutes and regularity

  /** `time_to_minutes`: minutes past `refHour` o'clock, wrapped into one day. */
  function TimeToMinutes(dt: Option<int>, refHour: int): (r: Option<int>)
    ensures r.None? <==> dt.None?
    ensures r.Some? ==> 0 <= r.value < 1440
  {
    if dt.None? then None
    else Some((Clock.Hour(dt.value) * 60 + Clock.Minute(dt.value) - refHour * 60) % 1440)
  }

  /** The seconds of the timestamp play no part. */
  lemma TimeToMinutesIgnoresSeconds(t: int, refHour: int)
    ensures TimeToMinutes(Some(t - Clock.Second(t)), refHour) == TimeToMinutes(Some(t), refHour)
  {
    var s := Clock.SecondOfDay(t);
    var sec := Clock.Second(t);
    var u := t - sec;
    Clock.ClockFieldsSplitTheDay(t);
    assert u == Clock.DayNumber(t) * Clock.SecondsPerDay + (s - sec);
    assert 0 <= s - sec < Clock.SecondsPerDay;
    assert Clock.SecondOfDay(u) == s - sec;
    assert s - sec == Clock.Hour(t) * 3600 + Clock.Minute(t) * 60;
    assert Clock.Hour(u) == Clock.Hour(t);
    assert Clock.Minute(u) == Clock.Minute(t);
  }

  /** 23:30 is 210 minutes past 20:00. */
  lemma TimeToMinutesExample()
    ensures TimeToMinutes(Some(1763854200), 20) == Some(210)
  {
    assert Clock.SecondOfDay(1763854200) == 84600;
  }

  /** The spread `numpy.std` measures, kept squared: the population variance
      of two or more samples, and 0 for fewer. */
  function Dispersion(xs: seq<int>): (r: real)
    ensures r >= 0.0
    ensures |xs| < 2 ==> r == 0.0
  {
    if |xs| >= 2 then
      var reals := seq(|xs|, i requires 0 <= i < |xs| => xs[i] as real);
      Numeric.VarianceNonNegative(reals);
      Numeric.Variance(reals)
    else 0.0
  }

  predicate HasBedtime(f: SessionFields) {
    f.bedtime.Some?
  }

  predicate HasWakeTime(f: SessionFields) {
    f.wakeUpTime.Some?
  }

  /** `[time_to_minutes(r.bedtime) for r in records if r.bedtime]`: the clock
      minutes of the records that have a bed time, in record order. */
  function BedtimeMinutes(records: seq<SessionFields>): (r: seq<int>)
    ensures |r| == |Text.Filter(records, HasBedtime)|
    ensures forall i :: 0 <= i < |r| ==> Some(r[i]) == TimeToMinutes(Text.Filter(records, HasBedtime)[i].bedtime, 20)
    ensures |r| <= |records|
    ensures forall i :: 0 <= i < |r| ==> 0 <= r[i] < 1440
    ensures (forall i :: 0 <= i < |records| ==> records[i].bedtime.Some?) ==> |r| == |records|
  {
    if records == [] then []
    else
      var rest := BedtimeMinutes(records[..|records| - 1]);
      var last := records[|records| - 1];
      if last.bedtime.Some? then rest + [TimeToMinutes(last.bedtime, 20).value] else rest
  }

  /** `[time_to_minutes(r.wake_up_time) for r in records if r.wake_up_time]`. */
  function WakeTimeMinutes(records: seq<SessionFields>): (r: seq<int>)
    ensures |r| == |Text.Filter(records, HasWakeTime)|
    ensures forall i :: 0 <= i < |r| ==> Some(r[i]) == TimeToMinutes(Text.Filter(records, HasWakeTime)[i].wakeUpTime, 20)
    ensures |r| <= |records|
    ensures forall i :: 0 <= i < |r| ==> 0 <= r[i] < 1440
    ensures (forall i :: 0 <= i < |records| ==> records[i].wakeUpTime.Some?) ==> |r| == |records|
  {
    if records == [] then []
    else
      var rest := WakeTimeMinutes(records[..|records| - 1]);
      var last := records[|records| - 1];
      if last.wakeUpTime.Some? then rest + [TimeToMinutes(last.wakeUpTime, 20).value] else rest
  }

  /** The two spreads; the standard deviations are their square roots. */
  datatype Regularity = Regularity(bedtimeDispersion: real, wakeTimeDispersion: real)

  /** `sleep_regularity`; None is the empty dict returned for no records. */
  function SleepRegularity(records: seq<SessionFields>): (r: Option<Regularity>)
    ensures r.None? <==> records == []
    ensures r.Some? ==> r.value.bedtimeDispersion >= 0.0 && r.value.wakeTimeDispersion >= 0.0
    ensures r.Some? && |BedtimeMinutes(records)| < 2 ==> r.value.bedtimeDispersion == 0.0
    ensures r.Some? && |WakeTimeMinutes(records)| < 2 ==> r.value.wakeTimeDispersion == 0.0
  {
    if records == [] then None
    else Some(Regularity(Dispersion(BedtimeMinutes(records)), Dispersion(WakeTimeMinutes(records))))
  }

  function OnlyTimes(bedtime: int, wakeUpTime: int): SessionFields {
    SessionFields(None, None, None, None, None, Some(wakeUpTime), Some(bedtime), None, None, None, None, None, None, None)
  }

  lemma ExampleBedtimes(records: seq<SessionFields>)
    requires records == [OnlyTimes(1763762400, 1763791200), OnlyTimes(1763852400, 1763881200)]
    ensures BedtimeMinutes(records) == [120, 180]
  {
    assert records[..1] == [records[0]] && records[..1][..0] == [];
    assert Clock.SecondOfDay(1763762400) == 79200 && Clock.SecondOfDay(1763852400) == 82800;
    assert TimeToMinutes(Some(1763762400), 20) == Some(120) && TimeToMinutes(Some(1763852400), 20) == Some(180);
  }

  lemma ExampleWakeTimes(records: seq<SessionFields>)
    requires records == [OnlyTimes(1763762400, 1763791200), OnlyTimes(1763852400, 1763881200)]
    ensures WakeTimeMinutes(records) == [600, 660]
  {
    assert records[..1] == [records[0]] && records[..1][..0] == [];
    assert Clock.SecondOfDay(1763791200) == 21600 && Clock.SecondOfDay(1763881200) == 25200;
    assert TimeToMinutes(Some(1763791200), 20) == Some(600) && TimeToMinutes(Some(1763881200), 20) == Some(660);
  }

  /** Bedtimes 22:00 and 23:00, wake times 06:00 and 07:00: both spread by 30 minutes. */
  lemma RegularityExample()
    ensures var records := [OnlyTimes(1763762400, 1763791200), OnlyTimes(1763852400, 1763881200)];
      SleepRegularity(records) == Some(Regularity(900.0, 900.0))
  {
    var records := [OnlyTimes(1763762400, 1763791200), OnlyTimes(1763852400, 1763881200)];
    ExampleBedtimes(records);
    ExampleWakeTimes(records);
    var b := seq(2, i requires 0 <= i < 2 => [120, 180][i] as real);
    assert b == [120.0, 180.0];
    Numeric.VarianceOfTwo(120.0, 180.0);
    var w := seq(2, i requires 0 <= i < 2 => [600, 660][i] as real);
    assert w == [600.0, 660.0];
    Numeric.VarianceOfTwo(600.0, 660.0);
  }

  // ---------------------------------------------------------------------------
  // Per-night metrics

  /** The earliest segment start: what the first row of the start-ordered query holds. */
  function FirstStart(segments: seq<Segment>): (r: int)
    requires segments != []
    ensures exists i :: 0 <= i < |segments| && segments[i].startTime == r
    ensures forall i :: 0 <= i < |segments| ==> r <= segments[i].startTime
  {
    if |segments| == 1 then segments[0].startTime
    else
      var rest := FirstStart(segments[1..]);
      assert forall i :: 1 <= i < |segments| ==> segments[1..][i - 1] == segments[i];
      if segments[0].startTime <= rest then segments[0].startTime else rest
  }

  datatype Metrics = Metrics(
    latencyMinutes: real,
    sleepEfficiency: real,
    sleepPhases: Phases,
    sleepFragmentationIndex: real,
    sleepCaloriesBurned: real)

  /** All that `calculate_sleep_statistics_metrics` needs in order not to raise. */
  predicate MetricsDefined(f: SessionFields, segments: seq<Segment>) {
    f.deviceBedtime.Some? && f.bedtime.Some? && f.deviceWakeUpTime.Some? && f.wakeUpTime.Some? &&
    segments != [] && f.duration.Some? &&
    (f.duration.value != 0 ==>
      f.sleepDeepDuration.Some? && f.sleepLightDuration.Some? && f.sleepRemDuration.Some? &&
      f.sleepAwakeDuration.Some? && f.awakeCount.Some? &&
      f.duration.value + f.sleepAwakeDuration.value != 0)
  }

  /** Share of `part` in `whole`, in percent. */
  function Percent(part: int, whole: int): (r: real)
    requires whole != 0
    ensures r * whole as real == part as real * 100.0
  {
    part as real / whole as real * 100.0
  }

  /** `calculate_sleep_statistics_metrics` on a record and its segments. */
  function CalculateMetrics(f: SessionFields, segments: seq<Segment>, ageMonths: real, gender: int, weight: real, height: int): (r: Outcome<Metrics>)
    ensures r.Ok? <==> MetricsDefined(f, segments)
    ensures r.Ok? ==>
      var bed := EffectiveBedtime(f).value;
      var wake := EffectiveWakeTime(f).value;
      var d := f.duration.value;
      r.value.latencyMinutes * 60.0 == (FirstStart(segments) - bed) as real &&
      (wake == bed ==> r.value.sleepEfficiency == 0.0) &&
      (wake != bed ==> r.value.sleepEfficiency * (wake - bed) as real == d as real * 6000.0) &&
      (d == 0 ==> r.value.sleepPhases == Phases(0.0, 0.0, 0.0, 0.0) && r.value.sleepFragmentationIndex == 0.0) &&
      (d != 0 ==> r.value.sleepFragmentationIndex * d as real == f.awakeCount.value as real * 60.0) &&
      r.value.sleepCaloriesBurned == CaloriesBurned(gender, weight, height, ageMonths, d)
    ensures r.Ok? && f.duration.value != 0 ==>
      r.value.sleepPhases.deep * (f.duration.value + f.sleepAwakeDuration.value) as real == f.sleepDeepDuration.value as real * 100.0
    ensures r.Ok? && f.duration.value != 0 ==>
      r.value.sleepPhases.light * (f.duration.value + f.sleepAwakeDuration.value) as real == f.sleepLightDuration.value as real * 100.0
    ensures r.Ok? && f.duration.value != 0 ==>
      r.value.sleepPhases.rem * (f.duration.value + f.sleepAwakeDuration.value) as real == f.sleepRemDuration.value as real * 100.0
    ensures r.Ok? && f.duration.value != 0 ==>
      r.value.sleepPhases.awake * (f.duration.value + f.sleepAwakeDuration.value) as real == f.sleepAwakeDuration.value as real * 100.0
  {
    if !MetricsDefined(f, segments) then Raises
    else
      var bed := EvaluateBedtime(f.deviceBedtime.value, f.bedtime.value);
      var wake := EvaluateWakeTime(f.deviceWakeUpTime.value, f.wakeUpTime.value);
      var latency := (FirstStart(segments) - bed) as real / 60.0;
      var timeInBedMin := (wake - bed) as real / 60.0;
      var d := f.duration.value;
      var efficiency := if timeInBedMin != 0.0 then d as real * 100.0 / timeInBedMin else 0.0;
      var phases :=
        if d != 0 then
          var whole := d + f.sleepAwakeDuration.value;
          Phases(Percent(f.sleepDeepDuration.value, whole), Percent(f.sleepLightDuration.value, whole),
                 Percent(f.sleepRemDuration.value, whole), Percent(f.sleepAwakeDuration.value, whole))
        else Phases(0.0, 0.0, 0.0, 0.0);
      var fragmentation := if d != 0 then f.awakeCount.value as real / (d as real / 60.0) else 0.0;
      Ok(Metrics(latency, efficiency, phases, fragmentation, CaloriesBurned(gender, weight, height, ageMonths, d)))
  }

  /** Asleep for the whole time in bed means an efficiency of 100 percent. */
  lemma EfficiencyFullWhenAsleepThroughout(f: SessionFields, segments: seq<Segment>, ageMonths: real, gender: int, weight: real, height: int)
    requires MetricsDefined(f, segments)
    requires EffectiveWakeTime(f).value - EffectiveBedtime(f).value == f.duration.value * 60 != 0
    ensures CalculateMetrics(f, segments, ageMonths, gender, weight, height).value.sleepEfficiency == 100.0
  {
    var d := f.duration.value as real;
    var bed := EvaluateBedtime(f.deviceBedtime.value, f.bedtime.value);
    var wake := EvaluateWakeTime(f.deviceWakeUpTime.value, f.wakeUpTime.value);
    var timeInBedMin := (wake - bed) as real / 60.0;
    assert timeInBedMin == d;
    Numeric.ScaleCancels(d, 100.0);
  }

  /** When the phase durations add up to the total, the four shares add up to 100 percent. */
  lemma PhasesSumToHundred(f: SessionFields, segments: seq<Segment>, ageMonths: real, gender: int, weight: real, height: int)
    requires MetricsDefined(f, segments) && f.duration.value != 0
    requires f.sleepDeepDuration.value + f.sleepLightDuration.value + f.sleepRemDuration.value == f.duration.value
    ensures var p := CalculateMetrics(f, segments, ageMonths, gender, weight, height).value.sleepPhases;
      p.deep + p.light + p.rem + p.awake == 100.0
  {
    var whole := f.duration.value + f.sleepAwakeDuration.value;
    var w := whole as real;
    var p := CalculateMetrics(f, segments, ageMonths, gender, weight, height).value.sleepPhases;
    assert p.deep + p.light + p.rem + p.awake ==
      (f.sleepDeepDuration.value + f.sleepLightDuration.value + f.sleepRemDuration.value + f.sleepAwakeDuration.value) as real / w * 100.0;
  }

  /** The record of the metrics unit test: bed 22:00 (device) / 22:30, wake 06:00
      (device) / 05:50, one segment from 22:10, 480 minutes of sleep. */
  lemma MetricsExample()
    ensures var f := SessionFields(Some(30), None, None, Some(1763848800), Some(180), Some(1763876400), Some(1763850600),
                                   Some(1), Some(480), None, Some(0), None, Some(270), Some(1763877600));
      CalculateMetrics(f, [Segment(1763849400, 1763878200, Light)], 360.0, 1, 70.0, 175) ==
        Ok(Metrics(10.0, 100.0, Phases(37.5, 56.25, 6.25, 0.0), 0.125, 1648.75 / 3.0))
  {
    var f := SessionFields(Some(30), None, None, Some(1763848800), Some(180), Some(1763876400), Some(1763850600),
                           Some(1), Some(480), None, Some(0), None, Some(270), Some(1763877600));
    var segs := [Segment(1763849400, 1763878200, Light)];
    assert FirstStart(segs) == 1763849400;
    CaloriesExample();
  }

  /** A duration Python counts as true: present and non-zero. */
  predicate IsTruthy(d: Option<int>) {
    d.Some? && d.value != 0
  }

  /** `xs` holds, one for one and in order, the values of `present`. */
  predicate PresentValues(xs: seq<int>, present: seq<Option<int>>) {
    |xs| == |present| && forall i :: 0 <= i < |xs| ==> Some(xs[i]) == present[i]
  }

  /** `avg_sleep_duration`: the truthy durations, i.e. present and non-zero. */
  function TruthyDurations(durations: seq<Option<int>>): (r: seq<int>)
    ensures |r| <= |durations|
    ensures forall i :: 0 <= i < |r| ==> r[i] != 0 && Some(r[i]) in durations
  {
    if durations == [] then []
    else
      var rest := TruthyDurations(durations[..|durations| - 1]);
      var last := durations[|durations| - 1];
      if last.Some? && last.value != 0 then rest + [last.value] else rest
  }

  /** The truthy durations are exactly the values of the present, non-zero
      entries, in their order. */
  lemma {:induction false} TruthyDurationsAreTheTruthyEntries(durations: seq<Option<int>>)
    ensures PresentValues(TruthyDurations(durations), Text.Filter(durations, IsTruthy))
  {
    if durations != [] {
      TruthyDurationsAreTheTruthyEntries(durations[..|durations| - 1]);
    }
  }

  /** The durations as reals, in order. */
  function AsReals(xs: seq<int>): (r: seq<real>)
    ensures |r| == |xs| && forall i :: 0 <= i < |xs| ==> r[i] == xs[i] as real
  {
    seq(|xs|, i requires 0 <= i < |xs| => xs[i] as real)
  }

  /** The mean truthy duration in hours (before rounding to 2 places), or 0: the
      result times 60 times the number of truthy durations is their sum. */
  function AvgSleepDuration(durations: seq<Option<int>>): (r: real)
    ensures TruthyDurations(durations) == [] ==> r == 0.0
    ensures TruthyDurations(durations) != [] ==>
      r * 60.0 * |TruthyDurations(durations)| as real == Numeric.Sum(AsReals(TruthyDurations(durations)))
  {
    var ds := TruthyDurations(durations);
    if ds == [] then 0.0
    else
      var xs := AsReals(ds);
      var r := Numeric.Mean(xs) / 60.0;
      assert |xs| == |ds|;
      MeanTimesCount(Numeric.Sum(xs), |ds| as real, r);
      r
  }

  /** (s / n / 60) * 60 * n == s for a positive count n. */
  lemma MeanTimesCount(s: real, n: real, r: real)
    requires n > 0.0 && r == s / n / 60.0
    ensures r * 60.0 * n == s
  {
  }

  /** Missing and zero durations leave the average unchanged. */
  lemma AvgSleepDurationSkipsFalsy(durations: seq<Option<int>>, extra: Option<int>)
    requires extra.None? || extra == Some(0)
    ensures AvgSleepDuration(durations + [extra]) == AvgSleepDuration(durations)
  {
    assert (durations + [extra])[..|durations|] == durations;
  }

  /** The average of durations between `lo` and `hi` minutes lies between `lo` and `hi` over 60. */
  lemma AvgSleepDurationBounds(durations: seq<Option<int>>, lo: int, hi: int)
    requires TruthyDurations(durations) != []
    requires forall i :: 0 <= i < |durations| && durations[i].Some? && durations[i].value != 0 ==>
      lo <= durations[i].value <= hi
    ensures lo as real / 60.0 <= AvgSleepDuration(durations) <= hi as real / 60.0
  {
    var ds := TruthyDurations(durations);
    var xs := AsReals(ds);
    forall i | 0 <= i < |xs| ensures lo as real <= xs[i] <= hi as real {
      var k :| 0 <= k < |durations| && durations[k] == Some(ds[i]);
    }
    Numeric.MeanBounds(xs, lo as real, hi as real);
  }

  /** 480 and 420 minutes average to 7.5 hours. */
  lemma AvgSleepDurationExample()
    ensures AvgSleepDuration([Some(480), Some(420)]) == 7.5
  {
    var durations: seq<Option<int>> := [Some(480), Some(420)];
    assert durations[..1] == [Some(480)];
    assert durations[..1][..0] == [];
    assert TruthyDurations(durations) == [480, 420];
    var xs := AsReals([480, 420]);
    assert xs == [480.0, 420.0];
    assert xs[..1] == [480.0] && xs[..1][..0] == [];
    assert Numeric.Sum(xs[..1]) == 480.0;
    assert Numeric.Sum(xs) == 900.0;
    assert Numeric.Mean(xs) == 450.0;
  }

  // ---------------------------------------------------------------------------
  // Chronotype

  /** What the loop of `chronotype_assessment` records of one night. */
  datatype Night = Night(midpointHour: real, hours: real, free: bool)

  function NightOf(f: SessionFields): (r: Outcome<Night>)
    ensures r.Ok? <==> EffectiveBedtime(f).Ok?
    ensures r.Ok? ==> 0.0 <= r.value.midpointHour < 24.0
    ensures r.Ok? ==> (r.value.free <==> Clock.Weekday(EffectiveBedtime(f).value) >= 5)
  {
    match EffectiveBedtime(f)
    case Raises => Raises
    case Ok(bed) =>
      var minutes := f.duration.GetOr(0);
      var midpoint := bed + minutes * 30;
      Clock.ClockFieldsSplitTheDay(midpoint);
      var hour := Clock.Hour(midpoint) as real + Clock.Minute(midpoint) as real / 60.0 + Clock.Second(midpoint) as real / 3600.0;
      assert hour == Clock.SecondOfDay(midpoint) as real / 3600.0;
      Ok(Night(hour, minutes as real / 60.0, Clock.Weekday(bed) >= 5))
  }

  function Nights(records: seq<SessionFields>): (r: Outcome<seq<Night>>)
    ensures r.Ok? ==> |r.value| == |records|
  {
    if records == [] then Ok([])
    else
      match Nights(records[..|records| - 1])
      case Raises => Raises
      case Ok(ns) =>
        match NightOf(records[|records| - 1])
        case Raises => Raises
        case Ok(n) => Ok(ns + [n])
  }

  /** Once a night raises, so does every longer list. */
  lemma {:induction false} NightsRaisesOnward(records: seq<SessionFields>, i: nat)
    requires i <= |records| && Nights(records[..i]).Raises?
    ensures Nights(records).Raises?
    decreases |records| - i
  {
    if i < |records| {
      assert records[..i + 1][..i] == records[..i];
      NightsRaisesOnward(records, i + 1);
    } else {
      assert records[..i] == records;
    }
  }

  function FreeMidpoints(ns: seq<Night>): seq<real> {
    if ns == [] then [] else FreeMidpoints(ns[..|ns| - 1]) + (if ns[|ns| - 1].free then [ns[|ns| - 1].midpointHour] else [])
  }

  function FreeHours(ns: seq<Night>): (r: seq<real>)
    ensures |r| == |FreeMidpoints(ns)|
  {
    if ns == [] then [] else FreeHours(ns[..|ns| - 1]) + (if ns[|ns| - 1].free then [ns[|ns| - 1].hours] else [])
  }

  function AllHours(ns: seq<Night>): (r: seq<real>)
    ensures |r| == |ns|
  {
    if ns == [] then [] else AllHours(ns[..|ns| - 1]) + [ns[|ns| - 1].hours]
  }

  /** The sleep-debt corrected mid-sleep on free days. */
  function CorrectedMidSleep(ns: seq<Night>): real
    requires FreeMidpoints(ns) != []
  {
    Numeric.Mean(FreeMidpoints(ns)) - 0.5 * (Numeric.Mean(FreeHours(ns)) - Numeric.Mean(AllHours(ns)))
  }

  /** When every night is a free night there is nothing to correct. */
  lemma {:induction false} AllFreeMeansNoCorrection(ns: seq<Night>)
    requires ns != [] && forall i :: 0 <= i < |ns| ==> ns[i].free
    ensures FreeMidpoints(ns) != []
    ensures CorrectedMidSleep(ns) == Numeric.Mean(FreeMidpoints(ns))
  {
    AllFreeHoursAreAllHours(ns);
    assert Numeric.Mean(FreeHours(ns)) - Numeric.Mean(AllHours(ns)) == 0.0;
  }

  lemma {:induction false} AllFreeHoursAreAllHours(ns: seq<Night>)
    requires forall i :: 0 <= i < |ns| ==> ns[i].free
    ensures FreeHours(ns) == AllHours(ns)
    ensures |FreeMidpoints(ns)| == |ns|
  {
    if ns != [] {
      AllFreeHoursAreAllHours(ns[..|ns| - 1]);
    }
  }

  /** Python's `int()` on a float: truncation towards zero. */
  function Truncate(x: real): (r: int)
    ensures x >= 0.0 ==> r == x.Floor
    ensures x < 0.0 ==> r == -((-x).Floor)
  {
    if x >= 0.0 then x.Floor else -((-x).Floor)
  }

  /** `time(hour=int(x), minute=int((x % 1) * 60))`, which raises unless the hour is 0..23.
      Truncation sends every value in (-1, 0) to hour 0. */
  function ClockOf(x: real): (r: Outcome<NumToStr.ClockTime>)
    ensures r.Ok? <==> -1.0 < x < 24.0
    ensures r.Ok? ==> 0 <= r.value.hour < 24 && 0 <= r.value.minute < 60
  {
    var hours := Truncate(x);
    var fraction := x - x.Floor as real;
    var minutes := (fraction * 60.0).Floor;
    if 0 <= hours < 24 then Ok(NumToStr.ClockTime(hours, minutes)) else Raises
  }

  datatype Chronotype = NoAssessment | Assessment(interpretation: map<string, string>, img: Option<string>)

  /** The `img` entry the result is given. */
  function ImageFor(interpretation: map<string, string>): Option<string> {
    if "skylark" in interpretation then Some("skylark.png")
    else if "pigeon" in interpretation then Some("pigeon.png")
    else if "owl" in interpretation then Some("owl.png")
    else None
  }

  /** Lines 54-78: the chronotype of the nights read, `NoAssessment` when none is free. */
  function AssessmentOf(ns: seq<Night>, table: NumToStr.Table): Outcome<Chronotype> {
    if FreeMidpoints(ns) == [] then Ok(NoAssessment)
    else
      match ClockOf(CorrectedMidSleep(ns))
      case Raises => Raises
      case Ok(t) =>
        match NumToStr.InterpretChronotype(t, table, "sleep_statistic", "ru")
        case Raises => Raises
        case Ok(m) => Ok(Assessment(m, ImageFor(m)))
  }

  /** `chronotype_assessment` as a function of the records and the description table;
      `NoAssessment` is the empty dict returned for no records or no free night. */
  function ChronotypeOf(records: seq<SessionFields>, table: NumToStr.Table): Outcome<Chronotype> {
    if records == [] then Ok(NoAssessment)
    else
      match Nights(records)
      case Raises => Raises
      case Ok(ns) => AssessmentOf(ns, table)
  }

  /** One more record with a bed time adds its night to the three lists the loop keeps. */
  lemma NightsStep(records: seq<SessionFields>, i: nat, ns: seq<Night>, hour: real, hours: real, free: bool)
    requires i < |records| && Nights(records[..i]) == Ok(ns)
    requires records[i].deviceBedtime.Some? && records[i].bedtime.Some?
    requires var f := records[i];
      var bed := EvaluateBedtime(f.deviceBedtime.value, f.bedtime.value);
      var midpoint := bed + f.duration.GetOr(0) * 30;
      hour == Clock.Hour(midpoint) as real + Clock.Minute(midpoint) as real / 60.0 + Clock.Second(midpoint) as real / 3600.0 &&
      hours == f.duration.GetOr(0) as real / 60.0 && free == (Clock.Weekday(bed) >= 5)
    ensures NightOf(records[i]) == Ok(Night(hour, hours, free))
    ensures Nights(records[..i + 1]) == Ok(ns + [Night(hour, hours, free)])
    ensures FreeMidpoints(ns + [Night(hour, hours, free)]) == FreeMidpoints(ns) + (if free then [hour] else [])
    ensures FreeHours(ns + [Night(hour, hours, free)]) == FreeHours(ns) + (if free then [hours] else [])
    ensures AllHours(ns + [Night(hour, hours, free)]) == AllHours(ns) + [hours]
  {
    assert records[..i + 1][..i] == records[..i];
    assert (ns + [Night(hour, hours, free)])[..|ns|] == ns;
  }

  /** The loop of `chronotype_assessment`, appending to the four lists. */
  method ChronotypeAssessment(records: seq<SessionFields>, table: NumToStr.Table) returns (r: Outcome<Chronotype>)
    ensures r == ChronotypeOf(records, table)
  {
    if records == [] {
      return Ok(NoAssessment);
    }
    var freeMidpoints: seq<real> := [];
    var allMidpoints: seq<real> := [];
    var freeDurations: seq<real> := [];
    var allDurations: seq<real> := [];
    ghost var ns: seq<Night> := [];
    for i := 0 to |records|
      invariant Nights(records[..i]) == Ok(ns)
      invariant freeMidpoints == FreeMidpoints(ns)
      invariant freeDurations == FreeHours(ns)
      invariant allDurations == AllHours(ns)
      invariant |allMidpoints| == i
    {
      var record := records[i];
      if record.deviceBedtime.None? || record.bedtime.None? {
        assert records[..i + 1][..i] == records[..i];
        NightsRaisesOnward(records, i + 1);
        return Raises;
      }
      var totalBedtime := EvaluateBedtime(record.deviceBedtime.value, record.bedtime.value);
      var midpoint := totalBedtime + record.duration.GetOr(0) * 30;
      var midpointHour := Clock.Hour(midpoint) as real + Clock.Minute(midpoint) as real / 60.0 + Clock.Second(midpoint) as real / 3600.0;
      var sleepHours := record.duration.GetOr(0) as real / 60.0;
      NightsStep(records, i, ns, midpointHour, sleepHours, Clock.Weekday(totalBedtime) >= 5);
      allMidpoints := allMidpoints + [midpointHour];
      allDurations := allDurations + [sleepHours];
      if Clock.Weekday(totalBedtime) >= 5 {
        freeMidpoints := freeMidpoints + [midpointHour];
        freeDurations := freeDurations + [sleepHours];
      }
      ns := ns + [Night(midpointHour, sleepHours, Clock.Weekday(totalBedtime) >= 5)];
    }
    assert records[..|records|] == records;
    r := ClassifyMidSleep(freeMidpoints, freeDurations, allDurations, table, ns);
  }

  /** Lines 54-78, after the loop: the corrected mid-sleep of the free nights,
      its clock time and the label's description and image. */
  method ClassifyMidSleep(freeMidpoints: seq<real>, freeDurations: seq<real>, allDurations: seq<real>,
                          table: NumToStr.Table, ghost ns: seq<Night>) returns (r: Outcome<Chronotype>)
    requires freeMidpoints == FreeMidpoints(ns) && freeDurations == FreeHours(ns) && allDurations == AllHours(ns)
    ensures r == AssessmentOf(ns, table)
  {
    if freeMidpoints == [] {
      return Ok(NoAssessment);
    }
    var msf := Numeric.Mean(freeMidpoints);
    var sdFree := Numeric.Mean(freeDurations);
    var sdWeek := Numeric.Mean(allDurations);
    var msfSc := msf - 0.5 * (sdFree - sdWeek);
    var hours := Truncate(msfSc);
    var minutes := ((msfSc - msfSc.Floor as real) * 60.0).Floor;
    if !(0 <= hours < 24) {
      return Raises;
    }
    var interpretation := NumToStr.InterpretChronotype(NumToStr.ClockTime(hours, minutes), table, "sleep_statistic", "ru");
    if interpretation.Raises? {
      return Raises;
    }
    var m := interpretation.value;
    var img: Option<string>;
    if "skylark" in m {
      img := Some("skylark.png");
    } else if "pigeon" in m {
      img := Some("pigeon.png");
    } else if "owl" in m {
      img := Some("owl.png");
    } else {
      img := None;
    }
    r := Ok(Assessment(m, img));
  }

  /** No record, or no night starting on a Saturday or Sunday, gives no assessment. */
  lemma ChronotypeNeedsAFreeNight(records: seq<SessionFields>, table: NumToStr.Table)
    requires forall i :: 0 <= i < |records| ==> EffectiveBedtime(records[i]).Ok? && Clock.Weekday(EffectiveBedtime(records[i]).value) < 5
    ensures ChronotypeOf(records, table) == Ok(NoAssessment)
  {
    NoFreeNights(records);
  }

  lemma {:induction false} NoFreeNights(records: seq<SessionFields>)
    requires forall i :: 0 <= i < |records| ==> EffectiveBedtime(records[i]).Ok? && Clock.Weekday(EffectiveBedtime(records[i]).value) < 5
    ensures Nights(records).Ok? && FreeMidpoints(Nights(records).value) == []
  {
    if records != [] {
      NoFreeNights(records[..|records| - 1]);
    }
  }

  /** The image names the label found, and there is none exactly when no label was
      found (05:00, or a table entry for the empty label). */
  lemma ChronotypeImageFollowsLabel(records: seq<SessionFields>, table: NumToStr.Table)
    requires ChronotypeOf(records, table).Ok? && ChronotypeOf(records, table).value.Assessment?
    ensures var a := ChronotypeOf(records, table).value;
      (a.img.None? <==> a.interpretation == map[]) &&
      (a.img.Some? ==> exists kind :: kind in a.interpretation && a.img.value == kind + ".png")
  {
    var a := ChronotypeOf(records, table).value;
    var ns := Nights(records).value;
    var t := ClockOf(CorrectedMidSleep(ns)).value;
    var kind := NumToStr.ChronotypeLabel(t);
    assert kind == "" || kind == "skylark" || kind == "pigeon" || kind == "owl";
    if kind != "" {
      assert kind in a.interpretation;
    }
  }

  /** One Saturday night from 23:00 for 480 minutes: mid-sleep 03:00, a pigeon. */
  lemma ChronotypeExample()
    ensures var f := SessionFields(None, None, None, Some(1763852400), None, Some(1763881200), Some(1763852400),
                                   None, Some(480), None, None, None, None, None);
      var table := map["sleep_statistic" := map["pigeon" := map["ru" := "d"]]];
      ChronotypeOf([f], table) == Ok(Assessment(map["pigeon" := "d"], Some("pigeon.png")))
  {
    ExampleNights();
    ExampleAssessment();
  }

  /** The night of the example: mid-sleep at 03:00 on a Saturday, eight hours long. */
  lemma ExampleNights()
    ensures Nights([SessionFields(None, None, None, Some(1763852400), None, Some(1763881200), Some(1763852400),
                                  None, Some(480), None, None, None, None, None)]) == Ok([Night(3.0, 8.0, true)])
  {
    var f := SessionFields(None, None, None, Some(1763852400), None, Some(1763881200), Some(1763852400),
                           None, Some(480), None, None, None, None, None);
    assert [f][..0] == [];
    assert Clock.SecondOfDay(1763852400 + 480 * 30) == 10800;
    assert Clock.DayNumber(1763852400) == 20414;
    assert EffectiveBedtime(f) == Ok(1763852400);
    assert NightOf(f) == Ok(Night(3.0, 8.0, true));
    assert Nights([f][..0]) == Ok([]);
    assert [f][|[f]| - 1] == f;
    assert [] + [Night(3.0, 8.0, true)] == [Night(3.0, 8.0, true)];
  }

  /** The single free night's corrected mid-sleep is its own mid-sleep, 03:00. */
  lemma ExampleMidSleep()
    ensures CorrectedMidSleep([Night(3.0, 8.0, true)]) == 3.0
  {
    var ns := [Night(3.0, 8.0, true)];
    assert ns[..0] == [];
    assert FreeMidpoints(ns) == [3.0];
    assert FreeHours(ns) == [8.0] && AllHours(ns) == [8.0];
    Numeric.MeanOfOne(3.0);
    Numeric.MeanOfOne(8.0);
  }

  /** A single free night with mid-sleep at 03:00 classifies as a pigeon. */
  lemma ExampleAssessment()
    ensures AssessmentOf([Night(3.0, 8.0, true)], map["sleep_statistic" := map["pigeon" := map["ru" := "d"]]])
      == Ok(Assessment(map["pigeon" := "d"], Some("pigeon.png")))
  {
    var ns := [Night(3.0, 8.0, true)];
    var table := map["sleep_statistic" := map["pigeon" := map["ru" := "d"]]];
    assert ns[..0] == [];
    assert FreeMidpoints(ns) == [3.0];
    ExampleMidSleep();
    ExampleClock();
    ExampleInterpretation();
    AssessmentSteps(ns, table, 3.0, NumToStr.ClockTime(3, 0), map["pigeon" := "d"]);
  }

  /** The assessment read off its three stages: the corrected mid-sleep, its clock time
      and the table's interpretation of that time. */
  lemma AssessmentSteps(ns: seq<Night>, table: NumToStr.Table, x: real, t: NumToStr.ClockTime, m: map<string, string>)
    requires FreeMidpoints(ns) != [] && CorrectedMidSleep(ns) == x
    requires ClockOf(x) == Ok(t)
    requires NumToStr.InterpretChronotype(t, table, "sleep_statistic", "ru") == Ok(m)
    ensures AssessmentOf(ns, table) == Ok(Assessment(m, ImageFor(m)))
  {
  }

  /** 3.0 hours is 03:00. */
  lemma ExampleClock()
    ensures ClockOf(3.0) == Ok(NumToStr.ClockTime(3, 0))
  {
  }

  /** 03:00 is a pigeon's mid-sleep, described by the table's Russian entry. */
  lemma ExampleInterpretation()
    ensures NumToStr.InterpretChronotype(NumToStr.ClockTime(3, 0), map["sleep_statistic" := map["pigeon" := map["ru" := "d"]]],
                                         "sleep_statistic", "ru") == Ok(map["pigeon" := "d"])
  {
  }

}
