/** The data shaping behind the charts (sleep_statistic/plot_diagram.py): pie
    slices of the last night's phases, the night's heart-rate points and the
    trends over several nights. Rounding and the logarithm of the slice size are
    parameters; so is the rendering of a day as a date string. */
module PlotDiagram {
  import opened Wrappers
  import opened Models
  import Clock
  import Text

  datatype Slice = Slice(name: string, y: real, z: real)

  const DeepName := "Глубокий"
  const LightName := "Легкий"
  const RemName := "REM"
  const AwakeName := "Бодрствование"

  /** `phases.get(key, 0)`. */
  function PhaseValue(phases: map<string, real>, key: string): real {
    if key in phases then phases[key] else 0.0
  }

  /** Lines 17-20: `round2` is `round(·, 2)`, `size` is `round(log(max(1, ·)), 2) * 5`. */
  function Point(name: string, key: string, phases: map<string, real>, round2: real -> real, size: real -> real): Slice {
    var val := round2(PhaseValue(phases, key));
    Slice(name, val, if val > 0.0 then size(val) else 0.0)
  }

  function Names(slices: seq<Slice>): (r: seq<string>)
    ensures |r| == |slices| && forall i :: 0 <= i < |slices| ==> r[i] == slices[i].name
  {
    seq(|slices|, i requires 0 <= i < |slices| => slices[i].name)
  }

  /** `get_sleep_phases_pie_data`; `stat` is the phases of the statistics row, or
      `None` when there is no row. */
  function PieData(stat: Option<map<string, real>>, round2: real -> real, size: real -> real): (r: seq<Slice>)
    ensures stat.None? ==> r == []
    ensures stat.Some? && PhaseValue(stat.value, "rem") == 0.0 ==> Names(r) == [DeepName, LightName, AwakeName]
    ensures stat.Some? && PhaseValue(stat.value, "rem") != 0.0 ==> Names(r) == [DeepName, LightName, RemName, AwakeName]
    ensures forall i :: 0 <= i < |r| && r[i].y <= 0.0 ==> r[i].z == 0.0
  {
    match stat
    case None => []
    case Some(phases) =>
      if PhaseValue(phases, "rem") == 0.0 then
        [Point(DeepName, "deep", phases, round2, size), Point(LightName, "light", phases, round2, size),
         Point(AwakeName, "awake", phases, round2, size)]
      else
        [Point(DeepName, "deep", phases, round2, size), Point(LightName, "light", phases, round2, size),
         Point(RemName, "rem", phases, round2, size), Point(AwakeName, "awake", phases, round2, size)]
  }

  /** The phase key each slice name shows. */
  function KeyOfName(name: string): string {
    if name == DeepName then "deep"
    else if name == LightName then "light"
    else if name == RemName then "rem"
    else "awake"
  }

  /** The REM slice appears exactly when the night has a non-zero REM share, and
      every slice shows the rounded value of its own phase (zero for a missing
      key) with a size only when that value is positive. */
  lemma PieSlicesShowTheirPhases(phases: map<string, real>, round2: real -> real, size: real -> real)
    ensures RemName in Names(PieData(Some(phases), round2, size)) <==> PhaseValue(phases, "rem") != 0.0
    ensures forall s :: s in PieData(Some(phases), round2, size) ==>
      s.y == round2(PhaseValue(phases, KeyOfName(s.name))) &&
      s.z == (if s.y > 0.0 then size(s.y) else 0.0)
  {
    var r := PieData(Some(phases), round2, size);
    if PhaseValue(phases, "rem") == 0.0 {
      assert Names(r) == [DeepName, LightName, AwakeName];
    }
  }

  // ---------------------------------------------------------------------------
  // Heart-rate points

  datatype BellCurve = BellCurve(date: seq<string>, bpm: seq<int>)

  function TwoDigits(n: nat): (r: string)
    requires n < 100
    ensures |r| == 2 && Text.IsDigit(r[0]) && Text.IsDigit(r[1])
  {
    [Text.DigitChar(n / 10), Text.DigitChar(n % 10)]
  }

  /** `strftime('%H:%M')` of a UTC instant. */
  function ClockLabel(t: int): (r: string)
    ensures |r| == 5 && r[2] == ':'
  {
    TwoDigits(Clock.Hour(t)) + ":" + TwoDigits(Clock.Minute(t))
  }

  function DigitValue(c: char): int {
    c as int - '0' as int
  }

  /** Reads the hour and minute back from an "HH:MM" label. */
  function ParseClockLabel(s: string): (int, int)
    requires |s| == 5
  {
    (DigitValue(s[0]) * 10 + DigitValue(s[1]), DigitValue(s[3]) * 10 + DigitValue(s[4]))
  }

  /** The label keeps exactly the hour and the minute of the instant. */
  lemma ClockLabelRoundTrip(t: int)
    ensures ParseClockLabel(ClockLabel(t)) == (Clock.Hour(t), Clock.Minute(t))
  {
    var h := Clock.Hour(t);
    var m := Clock.Minute(t);
    assert DigitValue(Text.DigitChar(h / 10)) == h / 10 && DigitValue(Text.DigitChar(h % 10)) == h % 10;
    assert DigitValue(Text.DigitChar(m / 10)) == m / 10 && DigitValue(Text.DigitChar(m % 10)) == m % 10;
  }

  /** `get_heart_rate_bell_curve_data`; `entries` are the record's night samples,
      `None` when there is no record. */
  function HeartRateBellCurve(entries: Option<seq<HeartRateRow>>): (r: BellCurve)
    ensures entries.None? ==> r == BellCurve([], [])
    ensures entries.Some? ==> |r.date| == |entries.value| && |r.bpm| == |entries.value|
    ensures entries.Some? ==> forall i :: 0 <= i < |entries.value| ==>
      r.bpm[i] == entries.value[i].bpm && |r.date[i]| == 5 && ParseClockLabel(r.date[i]) == (Clock.Hour(entries.value[i].time), Clock.Minute(entries.value[i].time))
  {
    match entries
    case None => BellCurve([], [])
    case Some(hr) =>
      if hr == [] then BellCurve([], [])
      else
        var dates := seq(|hr|, i requires 0 <= i < |hr| => ClockLabel(hr[i].time));
        assert forall i :: 0 <= i < |hr| ==> ParseClockLabel(dates[i]) == (Clock.Hour(hr[i].time), Clock.Minute(hr[i].time)) by {
          forall i | 0 <= i < |hr| ensures ParseClockLabel(dates[i]) == (Clock.Hour(hr[i].time), Clock.Minute(hr[i].time)) {
            ClockLabelRoundTrip(hr[i].time);
          }
        }
        BellCurve(dates, seq(|hr|, i requires 0 <= i < |hr| => hr[i].bpm))
  }

  /** Two samples at 23:00 and at midnight (of 2025-11-22/23) give those labels and bpm values in order. */
  lemma BellCurveExample()
    ensures HeartRateBellCurve(Some([HeartRateRow(1, 1763852400, 60), HeartRateRow(1, 1763856000, 62)]))
      == BellCurve(["23:00", "00:00"], [60, 62])
  {
    assert Clock.Hour(1763852400) == 23 && Clock.Minute(1763852400) == 0;
    assert Clock.Hour(1763856000) == 0 && Clock.Minute(1763856000) == 0;
    assert ClockLabel(1763852400) == "23:00";
    assert ClockLabel(1763856000) == "00:00";
  }

  // ---------------------------------------------------------------------------
  // Trends

  /** The duration trend; `dateLabel` renders a day number like `strftime('%Y-%m-%d')`. */
  datatype DurationTrend = DurationTrend(dates: seq<string>, sleepDuration: seq<Option<int>>)

  /** `get_sleep_duration_trend` (lines 56-76): one date and one duration per
      record, in input order; no records give two empty lists. */
  method SleepDurationTrend(items: seq<SleepRecord>, dateLabel: int -> string) returns (r: DurationTrend)
    ensures |r.dates| == |items| && |r.sleepDuration| == |items|
    ensures forall i :: 0 <= i < |items| ==>
      r.dates[i] == dateLabel(Clock.DayNumber(items[i].sleepDateTime)) && r.sleepDuration[i] == items[i].fields.duration
  {
    if items == [] {
      return DurationTrend([], []);
    }
    var dates: seq<string> := [];
    var durations: seq<Option<int>> := [];
    for i := 0 to |items|
      invariant |dates| == i && |durations| == i
      invariant forall j :: 0 <= j < i ==>
        dates[j] == dateLabel(Clock.DayNumber(items[j].sleepDateTime)) && durations[j] == items[j].fields.duration
    {
      dates := dates + [dateLabel(Clock.DayNumber(items[i].sleepDateTime))];
      durations := durations + [items[i].fields.duration];
    }
    r := DurationTrend(dates, durations);
  }

  datatype EfficiencyTrend = EfficiencyTrend(
    dates: seq<string>,
    latencyMinutes: seq<Option<real>>,
    sleepEfficiency: seq<Option<real>>,
    sleepFragmentationIndex: seq<Option<real>>,
    sleepCaloriesBurned: seq<Option<real>>)

  /** `round(v, 2) if v is not None else None`. */
  function RoundedOrNone(v: Option<real>, round2: real -> real): (r: Option<real>)
    ensures r.None? <==> v.None?
  {
    if v.Some? then Some(round2(v.value)) else None
  }

  /** The trend lists have one entry per row, in row order, each the row's date
      label and its metrics rounded, a missing metric staying missing. */
  predicate TrendOf(t: EfficiencyTrend, items: seq<StatisticsRow>, dateLabel: int -> string, round2: real -> real) {
    |t.dates| == |items| && |t.latencyMinutes| == |items| && |t.sleepEfficiency| == |items| &&
    |t.sleepFragmentationIndex| == |items| && |t.sleepCaloriesBurned| == |items| &&
    forall i :: 0 <= i < |items| ==>
      t.dates[i] == dateLabel(items[i].date) &&
      t.latencyMinutes[i] == RoundedOrNone(items[i].latencyMinutes, round2) &&
      t.sleepEfficiency[i] == RoundedOrNone(items[i].sleepEfficiency, round2) &&
      t.sleepFragmentationIndex[i] == RoundedOrNone(items[i].sleepFragmentationIndex, round2) &&
      t.sleepCaloriesBurned[i] == RoundedOrNone(items[i].sleepCaloriesBurned, round2)
  }

  /** `get_sleep_efficiency_trend` (lines 79-109): no rows give `{}` (`None`),
      unlike the duration trend; otherwise the lists of `TrendOf`. */
  method SleepEfficiencyTrend(items: seq<StatisticsRow>, dateLabel: int -> string, round2: real -> real)
    returns (r: Option<EfficiencyTrend>)
    ensures r.None? <==> items == []
    ensures r.Some? ==> TrendOf(r.value, items, dateLabel, round2)
  {
    if items == [] {
      return None;
    }
    var t := EfficiencyTrend([], [], [], [], []);
    for i := 0 to |items|
      invariant TrendOf(t, items[..i], dateLabel, round2)
    {
      var s := items[i];
      t := EfficiencyTrend(
        t.dates + [dateLabel(s.date)],
        t.latencyMinutes + [RoundedOrNone(s.latencyMinutes, round2)],
        t.sleepEfficiency + [RoundedOrNone(s.sleepEfficiency, round2)],
        t.sleepFragmentationIndex + [RoundedOrNone(s.sleepFragmentationIndex, round2)],
        t.sleepCaloriesBurned + [RoundedOrNone(s.sleepCaloriesBurned, round2)]);
    }
    assert items[..|items|] == items;
    r := Some(t);
  }
}
