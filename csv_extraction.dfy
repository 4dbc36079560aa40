/** The export parser (csv_data_extraction.py). The export is a table of
    (Key, Time, Value) rows whose Value cell holds JSON; decoding is outside the
    model, so a row carries the decoded value or `Undecodable`. Instants are whole
    seconds; the parser's output keeps them as integers, and the string rendering
    of `convert_to_readable_time` is modelled on its own. */
module CsvExtraction {
  import opened Wrappers
  import Text

  /** Decoded JSON (no floats). */
  datatype JsonValue =
    | JNull
    | JBool(b: bool)
    | JInt(i: int)
    | JStr(s: string)
    | JList(elems: seq<JsonValue>)
    | JObject(fields: map<string, JsonValue>)

  /** Python truthiness of a decoded value. */
  predicate Truthy(v: JsonValue) {
    match v
    case JNull => false
    case JBool(b) => b
    case JInt(i) => i != 0
    case JStr(s) => s != ""
    case JList(e) => e != []
    case JObject(f) => f != map[]
  }

  /** `json.loads` of one Value cell: text that is no JSON (JSONDecodeError), an
      empty cell, which pandas reads as NaN and `json.loads` refuses with a
      TypeError, or the decoded value. */
  datatype Decoded = Undecodable | Blank | Decoded(value: JsonValue)

  datatype RawRow = RawRow(key: string, time: int, value: Decoded)

  /** The export as read: its column names and its rows. */
  datatype Table = Table(columns: set<string>, rows: seq<RawRow>)

  // ---------------------------------------------------------------------------
  // The night window

  /** `mask_night` at one instant `t`: a window that may cross midnight, closed
      at its start, open at its end. A missing bound is NaT, and every comparison
      with NaT is false: `start < end` fails, so the else branch keeps `t < end`
      when only the start is missing, `t >= start` when only the end is, and
      nothing when both are. */
  predicate WindowAdmits(start: Option<int>, end: Option<int>, t: int) {
    if start.Some? && end.Some? && start.value < end.value then start.value <= t < end.value
    else (start.Some? && t >= start.value) || (end.Some? && t < end.value)
  }

  /** `mask_night`: the mask over the heart-rate index. */
  function MaskNight(index: seq<int>, start: Option<int>, end: Option<int>): (mask: seq<bool>)
    ensures |mask| == |index|
    ensures start.Some? && end.Some? && start.value < end.value ==>
      forall i :: 0 <= i < |index| ==> (mask[i] <==> start.value <= index[i] < end.value)
    ensures start.Some? && end.Some? && start.value >= end.value ==>
      forall i :: 0 <= i < |index| ==> (mask[i] <==> !(end.value <= index[i] < start.value))
    ensures start.None? && end.Some? ==> forall i :: 0 <= i < |index| ==> (mask[i] <==> index[i] < end.value)
    ensures start.Some? && end.None? ==> forall i :: 0 <= i < |index| ==> (mask[i] <==> start.value <= index[i])
    ensures start.None? && end.None? ==> forall i :: 0 <= i < |index| ==> !mask[i]
  {
    seq(|index|, i requires 0 <= i < |index| => WindowAdmits(start, end, index[i]))
  }

  // ---------------------------------------------------------------------------
  // Format signature

  /** Line 45's test of one decoded value. */
  predicate IsAcceptedPayload(d: Decoded) {
    d.Decoded? && d.value.JObject? &&
    var f := d.value.fields;
    "items" in f && "version" in f && f["version"] == JInt(2) && "has_stage" in f && Truthy(f["has_stage"])
  }

  /** Among the first five cells a blank one comes before any accepted payload:
      its TypeError is not among the exceptions line 48 catches. */
  predicate SignatureRaises(values: seq<Decoded>) {
    exists i :: 0 <= i < |values| && i < 5 && values[i].Blank? &&
      forall k :: 0 <= k < i ==> !IsAcceptedPayload(values[k])
  }

  /** None of the first five cells is accepted or blank: the loop ends with the flag unset. */
  predicate Unrecognised(values: seq<Decoded>) {
    forall i :: 0 <= i < |values| && i < 5 ==> !IsAcceptedPayload(values[i]) && !values[i].Blank?
  }

  /** The loop over `head(5)` with its `has_valid_sleep` flag: it stops at the
      first accepted payload, raises at a blank cell met before one, and skips
      cells that are no JSON. */
  method HasValidSleep(values: seq<Decoded>) returns (r: Outcome<bool>)
    ensures r.Raises? <==> SignatureRaises(values)
    ensures r == Ok(false) <==> Unrecognised(values)
    ensures r == Ok(true) <==>
      (exists i :: 0 <= i < |values| && i < 5 && IsAcceptedPayload(values[i]) && forall k :: 0 <= k < i ==> !values[k].Blank?)
  {
    var n := if |values| < 5 then |values| else 5;
    var i := 0;
    while i < n
      invariant 0 <= i <= n
      invariant forall k :: 0 <= k < i ==> !IsAcceptedPayload(values[k]) && !values[k].Blank?
    {
      if values[i].Blank? {
        return Raises;
      }
      if IsAcceptedPayload(values[i]) {
        return Ok(true);
      }
      i := i + 1;
    }
    return Ok(false);
  }

  /** `sleep_data[sleep_data['Key'] == key]`: the rows with that key, in table order. */
  function RowsWithKey(rows: seq<RawRow>, key: string): (r: seq<RawRow>)
    ensures r == Text.Filter(rows, (row: RawRow) => row.key == key)
    ensures forall i :: 0 <= i < |r| ==> r[i].key == key
  {
    if rows == [] then []
    else RowsWithKey(rows[..|rows| - 1], key) + (if rows[|rows| - 1].key == key then [rows[|rows| - 1]] else [])
  }

  function ValuesOf(rows: seq<RawRow>): (r: seq<Decoded>)
    ensures |r| == |rows| && forall i :: 0 <= i < |rows| ==> r[i] == rows[i].value
  {
    seq(|rows|, i requires 0 <= i < |rows| => rows[i].value)
  }

  predicate HasRequiredColumns(table: Table) {
    "Key" in table.columns && "Time" in table.columns && "Value" in table.columns
  }

  /** Lines 31-52: the export is refused (None) exactly in these cases. */
  predicate Refused(table: Table) {
    var sleep := RowsWithKey(table.rows, "sleep");
    !HasRequiredColumns(table) || sleep == [] || Unrecognised(ValuesOf(sleep))
  }

  /** Without a blank cell first, a signature that is not unrecognised is an
      accepted payload among the first five. */
  lemma AcceptedAmongFirstFive(values: seq<Decoded>)
    requires !Unrecognised(values) && !SignatureRaises(values)
    ensures exists i :: 0 <= i < |values| && i < 5 && IsAcceptedPayload(values[i])
  {
    var i :| 0 <= i < |values| && i < 5 && (IsAcceptedPayload(values[i]) || values[i].Blank?);
    if !IsAcceptedPayload(values[i]) {
      assert !forall k :: 0 <= k < i ==> !IsAcceptedPayload(values[k]);
    }
  }

  // ---------------------------------------------------------------------------
  // Sessions, metadata and segment items

  /** A kept sleep row: its Time and its decoded object. */
  datatype Session = Session(time: int, payload: map<string, JsonValue>)

  predicate IsVersion2(f: map<string, JsonValue>) {
    "version" in f && f["version"] == JInt(2)
  }

  /** Line 64 gives False for an object that is not version 2 and `has_stage`'s
      own value otherwise; the mask of line 65 selects rows only when every such
      value is a bool. A missing `has_stage` (None) raises ValueError, any other
      non-bool value makes pandas read the mask as column labels, which raises
      KeyError. A value that is not an object has no `.get` and raises too. */
  predicate Maskable(row: RawRow) {
    row.value.Decoded? && row.value.value.JObject? &&
    var f := row.value.value.fields;
    IsVersion2(f) ==> "has_stage" in f && f["has_stage"].JBool?
  }

  /** The rows line 65 keeps: version 2 with `has_stage` true. */
  predicate IsKept(row: RawRow) {
    row.value.Decoded? && row.value.value.JObject? &&
    var f := row.value.value.fields;
    IsVersion2(f) && "has_stage" in f && f["has_stage"] == JBool(true)
  }

  /** A row's Time and its decoded object (no fields when it is not one). */
  function SessionOf(row: RawRow): Session {
    Session(row.time, if row.value.Decoded? && row.value.value.JObject? then row.value.value.fields else map[])
  }

  function SessionsOf(rows: seq<RawRow>): (r: seq<Session>)
    ensures |r| == |rows| && forall i :: 0 <= i < |rows| ==> r[i] == SessionOf(rows[i])
  {
    seq(|rows|, i requires 0 <= i < |rows| => SessionOf(rows[i]))
  }

  /** Lines 62-65: every sleep row is decoded and masked; the whole step raises
      unless every row can be masked, and otherwise keeps exactly the rows with
      version 2 and `has_stage` true, in order. */
  function KeptSessions(sleep: seq<RawRow>): (r: Outcome<seq<Session>>)
    ensures r.Raises? <==> exists i :: 0 <= i < |sleep| && !Maskable(sleep[i])
    ensures r.Ok? ==> r.value == SessionsOf(Text.Filter(sleep, IsKept))
  {
    if sleep == [] then Ok([])
    else
      var init := sleep[..|sleep| - 1];
      var row := sleep[|sleep| - 1];
      UnmaskableStep(sleep, init);
      match KeptSessions(init)
      case Raises => Raises
      case Ok(kept) =>
        if !(row.value.Decoded? && row.value.value.JObject?) then Raises
        else
          var f := row.value.value.fields;
          if IsVersion2(f) && !("has_stage" in f && f["has_stage"].JBool?) then Raises
          else
            KeptStep(sleep);
            if IsVersion2(f) && f["has_stage"] == JBool(true) then Ok(kept + [Session(row.time, f)])
            else Ok(kept)
  }

  lemma UnmaskableStep(sleep: seq<RawRow>, init: seq<RawRow>)
    requires sleep != [] && init == sleep[..|sleep| - 1]
    ensures (exists i :: 0 <= i < |sleep| && !Maskable(sleep[i])) <==>
      (exists i :: 0 <= i < |init| && !Maskable(init[i])) || !Maskable(sleep[|sleep| - 1])
  {
    assert forall i :: 0 <= i < |init| ==> init[i] == sleep[i];
  }

  lemma KeptStep(sleep: seq<RawRow>)
    requires sleep != []
    ensures SessionsOf(Text.Filter(sleep, IsKept)) ==
      SessionsOf(Text.Filter(sleep[..|sleep| - 1], IsKept)) + (if IsKept(sleep[|sleep| - 1]) then [SessionOf(sleep[|sleep| - 1])] else [])
  {
    var init := Text.Filter(sleep[..|sleep| - 1], IsKept);
    if IsKept(sleep[|sleep| - 1]) {
      assert Text.Filter(sleep, IsKept) == init + [sleep[|sleep| - 1]];
    } else {
      assert Text.Filter(sleep, IsKept) == init;
    }
  }

  /** The fields `drop` removes from the metadata. */
  const Dropped: set<string> := {"items", "version", "timezone", "has_stage"}

  /** A column of a normalised table exists when any of its rows has the key. */
  predicate ColumnPresent(rows: seq<map<string, JsonValue>>, key: string) {
    exists i :: 0 <= i < |rows| && key in rows[i]
  }

  function Payloads(sessions: seq<Session>): (r: seq<map<string, JsonValue>>)
    ensures |r| == |sessions| && forall i :: 0 <= i < |sessions| ==> r[i] == sessions[i].payload
  {
    seq(|sessions|, i requires 0 <= i < |sessions| => sessions[i].payload)
  }

  /** A row of a normalised table, indexed by a session's Time. */
  datatype Row = Row(time: int, fields: map<string, JsonValue>)

  /** A metadata row, indexed by its session's Time. */
  type MetaRow = Row

  /** Lines 76-79: one row per kept session, without the dropped fields; dropping
      a column that no session has raises. */
  function MetaOf(sessions: seq<Session>): (r: Outcome<seq<MetaRow>>)
    ensures r.Ok? <==> forall k :: k in Dropped ==> ColumnPresent(Payloads(sessions), k)
    ensures r.Ok? ==> |r.value| == |sessions|
  {
    var ps := Payloads(sessions);
    if !(ColumnPresent(ps, "items") && ColumnPresent(ps, "version") && ColumnPresent(ps, "timezone") && ColumnPresent(ps, "has_stage"))
    then Raises
    else Ok(seq(|sessions|, i requires 0 <= i < |sessions| => Row(sessions[i].time, sessions[i].payload - Dropped)))
  }

  /** Each metadata row is its session's Time and its payload without the dropped
      fields, every other field kept with its value. */
  lemma MetaRowsOfSessions(sessions: seq<Session>)
    requires MetaOf(sessions).Ok?
    ensures var meta := MetaOf(sessions).value;
      forall i :: 0 <= i < |sessions| ==>
        meta[i].time == sessions[i].time &&
        (forall k :: k in meta[i].fields <==> k in sessions[i].payload && k !in Dropped) &&
        (forall k :: k in meta[i].fields ==> meta[i].fields[k] == sessions[i].payload[k])
  {
  }

  /** `explode`: a non-empty list gives its elements, an empty list one missing
      value, anything else itself. */
  function Exploded(v: JsonValue): (r: seq<JsonValue>)
    ensures |r| >= 1
    ensures v.JList? && v.elems != [] ==> r == v.elems
  {
    if v.JList? then (if v.elems != [] then v.elems else [JNull]) else [v]
  }

  /** `json_normalize` of one element: an object's fields, otherwise no field at all. */
  function Normalized(v: JsonValue): map<string, JsonValue> {
    if v.JObject? then v.fields else map[]
  }

  /** A segment row, indexed by its parent session's Time. */
  type ItemRow = Row

  function ItemRowsOf(time: int, elems: seq<JsonValue>): (r: seq<ItemRow>)
    ensures |r| == |elems|
    ensures forall i :: 0 <= i < |elems| ==> r[i] == Row(time, Normalized(elems[i]))
  {
    seq(|elems|, i requires 0 <= i < |elems| => Row(time, Normalized(elems[i])))
  }

  /** Lines 83-90: every element of every session's `items` becomes one row, in
      session order and list order; a session without `items` raises. */
  function ItemsOf(sessions: seq<Session>): (r: Outcome<seq<ItemRow>>)
    ensures r.Ok? <==> forall i :: 0 <= i < |sessions| ==> "items" in sessions[i].payload
  {
    if sessions == [] then Ok([])
    else
      var s := sessions[|sessions| - 1];
      match ItemsOf(sessions[..|sessions| - 1])
      case Raises => Raises
      case Ok(rows) =>
        if "items" !in s.payload then Raises
        else Ok(rows + ItemRowsOf(s.time, Exploded(s.payload["items"])))
  }

  /** Every item row carries the Time of a kept session, and a session whose `items`
      is a non-empty list contributes exactly its elements. */
  lemma {:induction false} ItemsBelongToSessions(sessions: seq<Session>)
    requires ItemsOf(sessions).Ok?
    ensures forall r :: r in ItemsOf(sessions).value ==> exists i :: 0 <= i < |sessions| && sessions[i].time == r.time
    ensures (forall i :: 0 <= i < |sessions| ==> sessions[i].payload["items"].JList? && sessions[i].payload["items"].elems != []) ==>
      |ItemsOf(sessions).value| == ElementCount(sessions)
  {
    if sessions != [] {
      var init := sessions[..|sessions| - 1];
      var s := sessions[|sessions| - 1];
      ItemsBelongToSessions(init);
      var rows := ItemsOf(init).value;
      var added := ItemRowsOf(s.time, Exploded(s.payload["items"]));
      forall r | r in ItemsOf(sessions).value ensures exists i :: 0 <= i < |sessions| && sessions[i].time == r.time {
        if r in rows {
          var i :| 0 <= i < |init| && init[i].time == r.time;
          assert sessions[i] == init[i];
        } else {
          assert r in added;
          assert sessions[|sessions| - 1].time == r.time;
        }
      }
    }
  }

  /** The number of elements of the sessions' `items` lists. */
  function ElementCount(sessions: seq<Session>): nat {
    if sessions == [] then 0
    else
      var s := sessions[|sessions| - 1];
      ElementCount(sessions[..|sessions| - 1]) +
      (if "items" in s.payload && s.payload["items"].JList? then |s.payload["items"].elems| else 0)
  }

  // ---------------------------------------------------------------------------
  // Heart rate and the night table

  /** A heart-rate sample; a missing `time` is NaT, which no window selects. */
  datatype Sample = Sample(time: Option<int>, bpm: Option<int>)

  function IntField(f: map<string, JsonValue>, key: string): Option<int> {
    if key in f && f[key].JInt? then Some(f[key].i) else None
  }

  /** A time in seconds as `to_datetime` reads it: an integer, else missing; any other value raises. */
  predicate TimeReadable(f: map<string, JsonValue>, key: string) {
    key !in f || f[key].JInt? || f[key].JNull?
  }

  function Normalize(rows: seq<RawRow>): (r: seq<map<string, JsonValue>>)
    requires forall i :: 0 <= i < |rows| ==> rows[i].value.Decoded?
    ensures |r| == |rows|
    ensures forall i :: 0 <= i < |rows| ==> r[i] == Normalized(rows[i].value.value)
  {
    seq(|rows|, i requires 0 <= i < |rows| => Normalized(rows[i].value.value))
  }

  /** Lines 93-97 succeed: every heart-rate row decodes, some row has a `time`,
      and every `time` present is an integer or null. */
  predicate HeartRatesReadable(hr: seq<RawRow>) {
    (forall i :: 0 <= i < |hr| ==> hr[i].value.Decoded?) &&
    ColumnPresent(Normalize(hr), "time") &&
    forall i :: 0 <= i < |hr| ==> TimeReadable(Normalized(hr[i].value.value), "time")
  }

  /** Lines 93-97: every heart-rate row is decoded, a `time` column must exist, and
      each sample is its time and bpm. */
  function HeartRateSamples(hr: seq<RawRow>): (r: Outcome<seq<Sample>>)
    ensures r.Ok? <==> HeartRatesReadable(hr)
    ensures r.Ok? ==> |r.value| == |hr|
    ensures r.Ok? ==> forall i :: 0 <= i < |hr| ==>
      r.value[i] == Sample(IntField(Normalized(hr[i].value.value), "time"), IntField(Normalized(hr[i].value.value), "bpm"))
  {
    if !(forall i :: 0 <= i < |hr| ==> hr[i].value.Decoded?) then Raises
    else
      var fs := Normalize(hr);
      if !ColumnPresent(fs, "time") || !(forall i :: 0 <= i < |fs| ==> TimeReadable(fs[i], "time")) then Raises
      else Ok(seq(|fs|, i requires 0 <= i < |fs| => Sample(IntField(fs[i], "time"), IntField(fs[i], "bpm"))))
  }

  /** A sample of the night table: its instant and bpm. */
  datatype NightSample = NightSample(time: int, bpm: Option<int>)

  /** A sample with a time that `mask_night(start, end)` admits. */
  function InMask(start: Option<int>, end: Option<int>): Sample -> bool {
    (s: Sample) => s.time.Some? && WindowAdmits(start, end, s.time.value)
  }

  /** `part` holds, one for one and in order, the samples of `kept` as night samples. */
  predicate NightSamplesOf(part: seq<NightSample>, kept: seq<Sample>) {
    |part| == |kept| && forall i :: 0 <= i < |part| ==> Sample(Some(part[i].time), part[i].bpm) == kept[i]
  }

  /** One session's part: the samples its window admits, in sample order. A
      session with one device time missing keeps one side of the window, and
      one with both missing selects nothing. */
  function NightPart(samples: seq<Sample>, start: Option<int>, end: Option<int>): (r: seq<NightSample>)
    ensures NightSamplesOf(r, Text.Filter(samples, InMask(start, end)))
    ensures |r| <= |samples|
    ensures start.None? && end.None? ==> r == []
    ensures start.Some? && end.Some? && start.value < end.value ==>
      forall x :: x in r ==> start.value <= x.time < end.value
    ensures start.Some? && end.Some? && start.value >= end.value ==>
      forall x :: x in r ==> !(end.value <= x.time < start.value)
    ensures start.None? && end.Some? ==> forall x :: x in r ==> x.time < end.value
    ensures start.Some? && end.None? ==> forall x :: x in r ==> start.value <= x.time
    ensures forall x :: x in r ==> Sample(Some(x.time), x.bpm) in samples
  {
    if samples == [] then []
    else
      var rest := NightPart(samples[..|samples| - 1], start, end);
      var s := samples[|samples| - 1];
      if s.time.Some? && WindowAdmits(start, end, s.time.value)
      then rest + [NightSample(s.time.value, s.bpm)]
      else rest
  }

  /** With one bound missing the window keeps one side: a sample before the
      wake time, or one after the bed time. */
  lemma MissingBoundKeepsOneSide()
    ensures NightPart([Sample(Some(5), Some(60)), Sample(Some(50), Some(61))], None, Some(10)) == [NightSample(5, Some(60))]
    ensures NightPart([Sample(Some(5), Some(60)), Sample(Some(50), Some(61))], Some(10), None) == [NightSample(50, Some(61))]
  {
    var samples := [Sample(Some(5), Some(60)), Sample(Some(50), Some(61))];
    assert samples[..1] == [samples[0]] && samples[..1][..0] == [];
  }

  /** Lines 102-105 read these two columns; a missing column raises. */
  predicate IntervalsReadable(meta: seq<MetaRow>) {
    var fs := seq(|meta|, i requires 0 <= i < |meta| => meta[i].fields);
    ColumnPresent(fs, "device_bedtime") && ColumnPresent(fs, "device_wake_up_time") &&
    forall i :: 0 <= i < |meta| ==> TimeReadable(meta[i].fields, "device_bedtime") && TimeReadable(meta[i].fields, "device_wake_up_time")
  }

  /** The session's device window admits `t`. */
  predicate Admits(m: MetaRow, t: int) {
    WindowAdmits(IntField(m.fields, "device_bedtime"), IntField(m.fields, "device_wake_up_time"), t)
  }

  /** The number of sessions whose night window admits `t`. */
  function AdmittingCount(meta: seq<MetaRow>, t: int): nat {
    if meta == [] then 0
    else AdmittingCount(meta[..|meta| - 1], t) + (if Admits(meta[|meta| - 1], t) then 1 else 0)
  }

  /** A session's part holds a sample its window admits as often as the samples do. */
  lemma {:induction false} NightPartCount(samples: seq<Sample>, start: Option<int>, end: Option<int>, t: int, b: Option<int>)
    ensures multiset(NightPart(samples, start, end))[NightSample(t, b)] ==
            if WindowAdmits(start, end, t) then multiset(samples)[Sample(Some(t), b)] else 0
  {
    if samples != [] {
      var init, s := samples[..|samples| - 1], samples[|samples| - 1];
      var x, y := NightSample(t, b), Sample(Some(t), b);
      var rest := NightPart(init, start, end);
      NightPartCount(init, start, end, t, b);
      SplitLast(samples);
      var added := if s.time.Some? && WindowAdmits(start, end, s.time.value) then [NightSample(s.time.value, s.bpm)] else [];
      AddedCount(s, start, end, t, b);
      PartStep(NightPart(samples, start, end), rest, added, x, multiset(init)[y], multiset([s])[y], WindowAdmits(start, end, t));
    }
  }

  /** A non-empty sequence holds its elements as its front and its last element do. */
  lemma SplitLast<T>(xs: seq<T>)
    requires xs != []
    ensures multiset(xs) == multiset(xs[..|xs| - 1]) + multiset([xs[|xs| - 1]])
  {
    assert xs == xs[..|xs| - 1] + [xs[|xs| - 1]];
  }

  /** A part grown by `added` holds `x` as often as its samples, grown by one
      sample, hold it, or not at all. */
  lemma PartStep(whole: seq<NightSample>, rest: seq<NightSample>, added: seq<NightSample>, x: NightSample,
                 before: nat, last: nat, admits: bool)
    requires whole == rest + added
    requires multiset(rest)[x] == if admits then before else 0
    requires multiset(added)[x] == if admits then last else 0
    ensures multiset(whole)[x] == if admits then before + last else 0
  {
    assert multiset(rest + added)[x] == multiset(rest)[x] + multiset(added)[x];
  }

  /** The last sample adds to the count of `NightSample(t, b)` exactly when it is
      that sample and the window admits it. */
  lemma AddedCount(s: Sample, start: Option<int>, end: Option<int>, t: int, b: Option<int>)
    ensures var added := if s.time.Some? && WindowAdmits(start, end, s.time.value) then [NightSample(s.time.value, s.bpm)] else [];
      multiset(added)[NightSample(t, b)] == if WindowAdmits(start, end, t) then multiset([s])[Sample(Some(t), b)] else 0
  {
  }

  /** Appending a part that holds `x` `c` times or not at all to a table that
      holds it `c * k` times. */
  lemma CountStep(whole: seq<NightSample>, rest: seq<NightSample>, part: seq<NightSample>, x: NightSample,
                  c: nat, k: nat, k': nat, admits: bool)
    requires whole == rest + part
    requires multiset(rest)[x] == c * k
    requires multiset(part)[x] == if admits then c else 0
    requires k' == k + (if admits then 1 else 0)
    ensures multiset(whole)[x] == c * k'
  {
    assert multiset(rest + part)[x] == multiset(rest)[x] + multiset(part)[x];
    assert c * k + (if admits then c else 0) == c * (k + (if admits then 1 else 0));
  }

  /** Lines 108-113: the concatenation, in session order, of every session's part. */
  function NightOf(meta: seq<MetaRow>, samples: seq<Sample>): seq<NightSample> {
    if meta == [] then []
    else
      var m := meta[|meta| - 1];
      NightOf(meta[..|meta| - 1], samples) +
      NightPart(samples, IntField(m.fields, "device_bedtime"), IntField(m.fields, "device_wake_up_time"))
  }

  /** A sample occurs in the night table once for every session whose window
      admits it; a night sample that is no sample does not occur. */
  lemma {:induction false} NightOfCount(meta: seq<MetaRow>, samples: seq<Sample>, t: int, b: Option<int>)
    ensures multiset(NightOf(meta, samples))[NightSample(t, b)] == multiset(samples)[Sample(Some(t), b)] * AdmittingCount(meta, t)
  {
    if meta != [] {
      var init, m := meta[..|meta| - 1], meta[|meta| - 1];
      var start, end := IntField(m.fields, "device_bedtime"), IntField(m.fields, "device_wake_up_time");
      var x, c := NightSample(t, b), multiset(samples)[Sample(Some(t), b)];
      NightOfCount(init, samples, t, b);
      NightPartCount(samples, start, end, t, b);
      CountStep(NightOf(meta, samples), NightOf(init, samples), NightPart(samples, start, end), x, c,
                AdmittingCount(init, t), AdmittingCount(meta, t), Admits(m, t));
    } else {
      assert NightOf(meta, samples) == [] && AdmittingCount(meta, t) == 0;
      assert multiset(samples)[Sample(Some(t), b)] * 0 == 0;
    }
  }

  /** Nothing is de-duplicated: a sample inside two windows is in the night table twice. */
  lemma NightKeepsDuplicates()
    ensures var meta := [Row(0, map["device_bedtime" := JInt(0), "device_wake_up_time" := JInt(100)]),
                         Row(1, map["device_bedtime" := JInt(10), "device_wake_up_time" := JInt(60)])];
      NightOf(meta, [Sample(Some(50), Some(60))]) == [NightSample(50, Some(60)), NightSample(50, Some(60))]
  {
    var meta := [Row(0, map["device_bedtime" := JInt(0), "device_wake_up_time" := JInt(100)]),
                 Row(1, map["device_bedtime" := JInt(10), "device_wake_up_time" := JInt(60)])];
    var samples := [Sample(Some(50), Some(60))];
    TwoSessions(meta[0], meta[1], samples);
    assert IntField(meta[0].fields, "device_bedtime") == Some(0) && IntField(meta[0].fields, "device_wake_up_time") == Some(100);
    assert IntField(meta[1].fields, "device_bedtime") == Some(10) && IntField(meta[1].fields, "device_wake_up_time") == Some(60);
    OneSamplePart(50, Some(60), Some(0), Some(100));
    OneSamplePart(50, Some(60), Some(10), Some(60));
  }

  /** The night table of two sessions is the first session's part, then the second's. */
  lemma TwoSessions(m0: MetaRow, m1: MetaRow, samples: seq<Sample>)
    ensures NightOf([m0, m1], samples) ==
      NightPart(samples, IntField(m0.fields, "device_bedtime"), IntField(m0.fields, "device_wake_up_time")) +
      NightPart(samples, IntField(m1.fields, "device_bedtime"), IntField(m1.fields, "device_wake_up_time"))
  {
    var p0 := NightPart(samples, IntField(m0.fields, "device_bedtime"), IntField(m0.fields, "device_wake_up_time"));
    assert [m0, m1][..1] == [m0] && [m0][..0] == [];
    assert NightOf([m0], samples) == [] + p0 == p0;
  }

  /** A single sample inside the window is the whole part. */
  lemma OneSamplePart(t: int, b: Option<int>, start: Option<int>, end: Option<int>)
    requires WindowAdmits(start, end, t)
    ensures NightPart([Sample(Some(t), b)], start, end) == [NightSample(t, b)]
  {
    assert [Sample(Some(t), b)][..0] == [];
  }

  // ---------------------------------------------------------------------------
  // Time columns

  /** The columns of a normalised table whose name contains "time" must hold an
      integer in every row for `astype(int)` to succeed. */
  predicate TimeColumnsConvertible(rows: seq<map<string, JsonValue>>) {
    forall i, k :: 0 <= i < |rows| && k in rows[i] && Text.Contains(k, "time") ==>
      forall j :: 0 <= j < |rows| ==> k in rows[j] && rows[j][k].JInt?
  }

  /** `convert_to_readable_time` on one row: each listed column the row holds is
      rendered with `fmt` (the `strftime` format); other columns are untouched. */
  function ConvertToReadableTime(columns: set<string>, row: map<string, JsonValue>, fmt: int -> string): (r: map<string, JsonValue>)
    ensures r.Keys == row.Keys
    ensures forall k :: k in row && k in columns && row[k].JInt? ==> r[k] == JStr(fmt(row[k].i))
    ensures forall k :: k in row && k !in columns ==> r[k] == row[k]
  {
    map k | k in row :: if k in columns && row[k].JInt? then JStr(fmt(row[k].i)) else row[k]
  }

  /** Lines 123-124: the columns selected for conversion. */
  function TimeColumns(rows: seq<map<string, JsonValue>>): (r: set<string>)
    ensures forall k :: k in r <==> Text.Contains(k, "time") && ColumnPresent(rows, k)
  {
    set i, k | 0 <= i < |rows| && k in rows[i] && Text.Contains(k, "time") :: k
  }

  // ---------------------------------------------------------------------------
  // The whole parse

  datatype SleepExport = SleepExport(meta: seq<MetaRow>, items: seq<ItemRow>, night: seq<NightSample>)

  /** None (`Invalid`), an exception (`Failed`) or the three tables with the
      progress steps reported. */
  datatype ParseResult = Invalid | Failed | Parsed(tables: SleepExport, progress: seq<nat>)

  const TotalSteps := 9

  /** The column maps of a table's rows, in row order. */
  function RowFields(rows: seq<Row>): (r: seq<map<string, JsonValue>>)
    ensures |r| == |rows| && forall i :: 0 <= i < |rows| ==> r[i] == rows[i].fields
  {
    seq(|rows|, i requires 0 <= i < |rows| => rows[i].fields)
  }

  /** `sleep_record_from_csv` as a function of the table. */
  function ParseExport(table: Table): ParseResult {
    if Refused(table) then Invalid
    else if SignatureRaises(ValuesOf(RowsWithKey(table.rows, "sleep"))) then Failed
    else ParseSessions(RowsWithKey(table.rows, "sleep"), RowsWithKey(table.rows, "heart_rate"))
  }

  /** Lines 62-90 on an accepted export. */
  function ParseSessions(sleep: seq<RawRow>, hr: seq<RawRow>): ParseResult {
    match KeptSessions(sleep)
    case Raises => Failed
    case Ok(sessions) =>
      match MetaOf(sessions)
      case Raises => Failed
      case Ok(meta) =>
        match ItemsOf(sessions)
        case Raises => Failed
        case Ok(items) => ParseNight(meta, items, hr)
  }

  /** Lines 93-128, once the metadata and the items exist. */
  function ParseNight(meta: seq<MetaRow>, items: seq<ItemRow>, hr: seq<RawRow>): ParseResult {
    match HeartRateSamples(hr)
    case Raises => Failed
    case Ok(samples) =>
      if !IntervalsReadable(meta) then Failed
      else NightTables(meta, items, samples)
  }

  /** Lines 108-128, once the heart-rate samples and the intervals are read. */
  function NightTables(meta: seq<MetaRow>, items: seq<ItemRow>, samples: seq<Sample>): ParseResult {
    if !TimeColumnsConvertible(RowFields(items)) || !TimeColumnsConvertible(RowFields(meta)) then Failed
    else Parsed(SleepExport(meta, items, NightOf(meta, samples)), Steps())
  }

  /** The progress reported: steps 1 to 9, each once, in increasing order. */
  function Steps(): (p: seq<nat>)
    ensures |p| == TotalSteps && forall i :: 0 <= i < |p| ==> p[i] == i + 1
  {
    [1, 2, 3, 4, 5, 6, 7, 8, 9]
  }

  /** The night parts, appended session by session. */
  method NightParts(meta: seq<MetaRow>, samples: seq<Sample>) returns (nightParts: seq<NightSample>)
    ensures nightParts == NightOf(meta, samples)
  {
    nightParts := [];
    for i := 0 to |meta|
      invariant nightParts == NightOf(meta[..i], samples)
    {
      var row := meta[i];
      assert meta[..i + 1][..i] == meta[..i];
      nightParts := nightParts + NightPart(samples, IntField(row.fields, "device_bedtime"), IntField(row.fields, "device_wake_up_time"));
    }
    assert meta[..|meta|] == meta;
  }

  /** The parser's steps in order, reporting progress as it goes. */
  method SleepRecordFromCsv(table: Table) returns (r: ParseResult)
    ensures r == ParseExport(table)
  {
    if !("Key" in table.columns && "Time" in table.columns && "Value" in table.columns) {
      return Invalid;
    }
    var sleepEntries := RowsWithKey(table.rows, "sleep");
    if sleepEntries == [] {
      return Invalid;
    }
    var hasValidSleep := HasValidSleep(ValuesOf(sleepEntries));
    if hasValidSleep.Raises? {
      return Failed;
    }
    if !hasValidSleep.value {
      return Invalid;
    }
    r := ReadSessions(sleepEntries, RowsWithKey(table.rows, "heart_rate"));
  }

  /** Lines 59-90 of the parser, with progress steps 1 to 5. */
  method ReadSessions(sleepEntries: seq<RawRow>, hr: seq<RawRow>) returns (r: ParseResult)
    ensures r == ParseSessions(sleepEntries, hr)
  {
    var progress: seq<nat> := [1];
    var kept := KeptSessions(sleepEntries);
    if kept.Raises? {
      return Failed;
    }
    progress := progress + [2, 3];
    var meta := MetaOf(kept.value);
    if meta.Raises? {
      return Failed;
    }
    progress := progress + [4];
    var items := ItemsOf(kept.value);
    if items.Raises? {
      return Failed;
    }
    progress := progress + [5];
    r := ReadNight(meta.value, items.value, hr, progress);
  }

  /** Lines 93-107 of the parser, with progress steps 6 and 7. */
  method ReadNight(meta: seq<MetaRow>, items: seq<ItemRow>, hr: seq<RawRow>, progress0: seq<nat>) returns (r: ParseResult)
    requires progress0 == [1, 2, 3, 4, 5]
    ensures r == ParseNight(meta, items, hr)
  {
    var progress := progress0;
    var heart := HeartRateSamples(hr);
    if heart.Raises? {
      return Failed;
    }
    progress := progress + [6];
    if !IntervalsReadable(meta) {
      return Failed;
    }
    progress := progress + [7];
    r := SplitNight(meta, items, heart.value, progress);
  }

  /** Lines 108-128 of the parser, with progress steps 8 and 9. */
  method SplitNight(meta: seq<MetaRow>, items: seq<ItemRow>, samples: seq<Sample>, progress0: seq<nat>) returns (r: ParseResult)
    requires progress0 == [1, 2, 3, 4, 5, 6, 7]
    ensures r == NightTables(meta, items, samples)
  {
    var progress := progress0;
    var night := NightParts(meta, samples);
    progress := progress + [8];
    if !TimeColumnsConvertible(RowFields(items)) || !TimeColumnsConvertible(RowFields(meta)) {
      return Failed;
    }
    progress := progress + [9];
    r := Parsed(SleepExport(meta, items, night), progress);
  }

  /** An accepted export is parsed or raises, never refused. */
  lemma RefusedOnlyBySignature(table: Table)
    ensures ParseExport(table).Invalid? <==> Refused(table)
  {
    if !Refused(table) {
      var sleep := RowsWithKey(table.rows, "sleep");
      var hr := RowsWithKey(table.rows, "heart_rate");
      match KeptSessions(sleep)
      case Raises =>
      case Ok(sessions) =>
        match MetaOf(sessions)
        case Raises =>
        case Ok(meta) =>
          match ItemsOf(sessions)
          case Raises =>
          case Ok(items) => assert !ParseNight(meta, items, hr).Invalid?;
    }
  }

  /** None exactly when a required column is missing, there is no sleep row, or
      none of the first five sleep rows has the expected signature or a blank cell. */
  lemma InvalidExactly(table: Table)
    ensures ParseExport(table) == Invalid <==>
      !HasRequiredColumns(table) || RowsWithKey(table.rows, "sleep") == [] ||
      forall i :: 0 <= i < |RowsWithKey(table.rows, "sleep")| && i < 5 ==>
        !IsAcceptedPayload(RowsWithKey(table.rows, "sleep")[i].value) && !RowsWithKey(table.rows, "sleep")[i].value.Blank?
  {
    var sleep := RowsWithKey(table.rows, "sleep");
    RefusedOnlyBySignature(table);
    assert Unrecognised(ValuesOf(sleep)) <==>
      forall i :: 0 <= i < |sleep| && i < 5 ==> !IsAcceptedPayload(sleep[i].value) && !sleep[i].value.Blank?;
  }

  /** A blank first sleep cell raises in the signature loop, whatever follows it. */
  lemma BlankFirstCellRaises(table: Table)
    requires HasRequiredColumns(table)
    requires RowsWithKey(table.rows, "sleep") != [] && RowsWithKey(table.rows, "sleep")[0].value.Blank?
    ensures ParseExport(table) == Failed
  {
    var values := ValuesOf(RowsWithKey(table.rows, "sleep"));
    assert values[0].Blank?;
    assert SignatureRaises(values);
    assert !Unrecognised(values);
  }

  /** Sleep rows after the fifth never decide whether the export is refused. */
  lemma OnlyFirstFiveInspected(t1: Table, t2: Table)
    requires HasRequiredColumns(t1) && HasRequiredColumns(t2)
    requires var s1 := RowsWithKey(t1.rows, "sleep"); var s2 := RowsWithKey(t2.rows, "sleep");
      s1 != [] && s2 != [] &&
      (|s1| >= 5 ==> |s2| >= 5) && (|s2| >= 5 ==> |s1| >= 5) && (|s1| < 5 ==> |s2| == |s1|) &&
      forall i :: 0 <= i < 5 && i < |s1| ==> s1[i].value == s2[i].value
    ensures ParseExport(t1).Invalid? <==> ParseExport(t2).Invalid?
  {
    RefusedOnlyBySignature(t1);
    RefusedOnlyBySignature(t2);
    SameHeadSameSignature(ValuesOf(RowsWithKey(t1.rows, "sleep")), ValuesOf(RowsWithKey(t2.rows, "sleep")));
  }

  lemma SameHeadSameSignature(v1: seq<Decoded>, v2: seq<Decoded>)
    requires (|v1| >= 5 ==> |v2| >= 5) && (|v2| >= 5 ==> |v1| >= 5) && (|v1| < 5 ==> |v2| == |v1|)
    requires forall i :: 0 <= i < 5 && i < |v1| ==> v1[i] == v2[i]
    ensures Unrecognised(v1) <==> Unrecognised(v2)
  {
    if !Unrecognised(v1) {
      var i :| 0 <= i < |v1| && i < 5 && (IsAcceptedPayload(v1[i]) || v1[i].Blank?);
      assert v2[i] == v1[i];
    }
    if !Unrecognised(v2) {
      var i :| 0 <= i < |v2| && i < 5 && (IsAcceptedPayload(v2[i]) || v2[i].Blank?);
      assert v1[i] == v2[i];
    }
  }

  /** An accepted export has at least one kept session: the one that passed the signature test. */
  lemma AcceptedPayloadIsKept(sleep: seq<RawRow>, k: nat)
    requires k < |sleep| && IsAcceptedPayload(sleep[k].value) && KeptSessions(sleep).Ok?
    ensures exists j :: 0 <= j < |KeptSessions(sleep).value| && KeptSessions(sleep).value[j] == Session(sleep[k].time, sleep[k].value.value.fields)
  {
    assert Maskable(sleep[k]);
    var kept := Text.Filter(sleep, IsKept);
    assert sleep[k] in kept;
    var j :| 0 <= j < |kept| && kept[j] == sleep[k];
    assert KeptSessions(sleep).value[j] == SessionOf(sleep[k]);
  }

  /** On success there is at least one session, and the metadata has one row per
      kept session, carrying its Time and none of the dropped fields. */
  lemma ParsedShape(table: Table)
    requires ParseExport(table).Parsed?
    ensures var sessions := KeptSessions(RowsWithKey(table.rows, "sleep")).value;
      var e := ParseExport(table).tables;
      |e.meta| == |sessions| && |sessions| >= 1 &&
      (forall i :: 0 <= i < |e.meta| ==> e.meta[i].time == sessions[i].time && e.meta[i].fields.Keys !! Dropped)
  {
    var sleep := RowsWithKey(table.rows, "sleep");
    ParsedMeta(table);
    AcceptedAmongFirstFive(ValuesOf(sleep));
    var i :| 0 <= i < |sleep| && i < 5 && IsAcceptedPayload(ValuesOf(sleep)[i]);
    MetaShape(sleep, i);
  }

  lemma MetaShape(sleep: seq<RawRow>, k: nat)
    requires k < |sleep| && IsAcceptedPayload(sleep[k].value)
    requires KeptSessions(sleep).Ok? && MetaOf(KeptSessions(sleep).value).Ok?
    ensures var sessions := KeptSessions(sleep).value;
      var meta := MetaOf(sessions).value;
      |meta| == |sessions| && |sessions| >= 1 &&
      (forall i :: 0 <= i < |meta| ==> meta[i].time == sessions[i].time && meta[i].fields.Keys !! Dropped)
  {
    AcceptedPayloadIsKept(sleep, k);
    MetaRowsOfSessions(KeptSessions(sleep).value);
  }

  /** The metadata of a parsed export is that of its kept sessions. */
  lemma ParsedMeta(table: Table)
    requires ParseExport(table).Parsed?
    ensures !Refused(table) && !SignatureRaises(ValuesOf(RowsWithKey(table.rows, "sleep")))
    ensures KeptSessions(RowsWithKey(table.rows, "sleep")).Ok?
    ensures MetaOf(KeptSessions(RowsWithKey(table.rows, "sleep")).value).Ok?
    ensures ParseExport(table).tables.meta == MetaOf(KeptSessions(RowsWithKey(table.rows, "sleep")).value).value
  {
  }
}
