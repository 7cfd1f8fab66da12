/**
 * The data side of `RealTimeVisualizer`: two parallel bounded FIFOs of
 * timestamps and temperatures, one pair of bounded FIFOs per sensor, and
 * running statistics. The minimum and maximum cover every point added since
 * the last clear; the average covers only the points still retained.
 */
module Visualiser {
  import opened Wrappers

  /** A point in time, as a count of microseconds. */
  type Timestamp = int

  // ---------------------------------------------------------------------
  // Bounded FIFOs: `deque(maxlen=n)`
  // ---------------------------------------------------------------------

  /** The last `n` elements of `s` (all of them when there are fewer). */
  function LastN<T>(s: seq<T>, n: nat): (r: seq<T>)
    ensures |r| == if |s| <= n then |s| else n
  {
    if |s| <= n then s else s[|s| - n..]
  }

  /** `append` on a deque bounded by `n`: the oldest elements past the bound are evicted. */
  function Append<T>(window: seq<T>, x: T, n: nat): seq<T>
  {
    LastN(window + [x], n)
  }

  /**
   * A deque never holds more than `n` elements: below the bound `x` is added
   * at the end, at the bound the oldest element makes room for it.
   */
  lemma AppendBounded<T>(window: seq<T>, x: T, n: nat)
    ensures |Append(window, x, n)| <= n
    ensures |window| < n ==> Append(window, x, n) == window + [x]
    ensures n > 0 && |window| == n ==> Append(window, x, n) == window[1..] + [x]
  {
  }

  /**
   * A window that holds the last `n` elements of a history still holds the
   * last `n` elements once the history and the window both get `x`.
   */
  lemma {:induction false} AppendKeepsWindow<T>(history: seq<T>, x: T, n: nat)
    ensures Append(LastN(history, n), x, n) == LastN(history + [x], n)
  {
    var w := LastN(history, n);
    var h := history + [x];
    if |h| > n {
      assert (w + [x])[|w| + 1 - n..] == h[|h| - n..];
    }
  }

  // ---------------------------------------------------------------------
  // Minimum, maximum and mean
  // ---------------------------------------------------------------------

  /** `min(m, t)` where a missing `m` stands for `float('inf')`. */
  function Lower(m: Option<real>, t: real): real {
    if m.Some? && m.value <= t then m.value else t
  }

  /** `max(m, t)` where a missing `m` stands for `float('-inf')`. */
  function Higher(m: Option<real>, t: real): real {
    if m.Some? && m.value >= t then m.value else t
  }

  /** The running minimum over `s`, absent for an empty `s`. */
  function MinOf(s: seq<real>): (r: Option<real>)
    ensures r.None? <==> s == []
    decreases |s|
  {
    if s == [] then None else Some(Lower(MinOf(s[..|s| - 1]), s[|s| - 1]))
  }

  /** The running maximum over `s`, absent for an empty `s`. */
  function MaxOf(s: seq<real>): (r: Option<real>)
    ensures r.None? <==> s == []
    decreases |s|
  {
    if s == [] then None else Some(Higher(MaxOf(s[..|s| - 1]), s[|s| - 1]))
  }

  /** The minimum and maximum of a non-empty sequence are elements of it and bound all of it. */
  lemma {:induction false} ExtremesBound(s: seq<real>)
    requires s != []
    ensures MinOf(s).value in s && MaxOf(s).value in s
    ensures forall t :: t in s ==> MinOf(s).value <= t <= MaxOf(s).value
    decreases |s|
  {
    var p := s[..|s| - 1];
    assert s == p + [s[|s| - 1]];
    if p != [] {
      ExtremesBound(p);
    }
  }

  /** Adding a point to the history updates the running minimum and maximum. */
  lemma ExtremesSnoc(s: seq<real>, t: real)
    ensures MinOf(s + [t]) == Some(Lower(MinOf(s), t))
    ensures MaxOf(s + [t]) == Some(Higher(MaxOf(s), t))
  {
    assert (s + [t])[..|s|] == s;
  }

  /** `sum(s)`. */
  function Sum(s: seq<real>): real
    decreases |s|
  {
    if s == [] then 0.0 else Sum(s[..|s| - 1]) + s[|s| - 1]
  }

  /** The value `avg_temp` takes for the window `s`: its mean, or 0 while it is empty. */
  function Average(s: seq<real>): real
  {
    if |s| > 0 then Sum(s) / |s| as real else 0.0
  }

  /** A sum of values between `lo` and `hi` lies between `|s|·lo` and `|s|·hi`. */
  lemma {:induction false} SumBounds(s: seq<real>, lo: real, hi: real)
    requires forall t :: t in s ==> lo <= t <= hi
    ensures |s| as real * lo <= Sum(s) <= |s| as real * hi
    decreases |s|
  {
    if s != [] {
      var p := s[..|s| - 1];
      assert forall t :: t in p ==> t in s;
      assert s[|s| - 1] in s;
      SumBounds(p, lo, hi);
    }
  }

  lemma QuotientBounds(total: real, n: real, lo: real, hi: real)
    requires n > 0.0 && n * lo <= total <= n * hi
    ensures lo <= total / n <= hi
  {
    var q := total / n;
    assert total == n * q;
  }

  /** The mean of a non-empty window lies between its minimum and its maximum. */
  lemma AverageBounds(s: seq<real>)
    requires s != []
    ensures MinOf(s).value <= Average(s) <= MaxOf(s).value
  {
    var lo, hi := MinOf(s).value, MaxOf(s).value;
    ExtremesBound(s);
    SumBounds(s, lo, hi);
    var n := |s| as real;
    QuotientBounds(Sum(s), n, lo, hi);
  }

  /** `(min(s), max(s))` for a non-empty `s`. */
  function RangeOf(s: seq<real>): (r: Option<(real, real)>)
    ensures r.Some? <==> s != []
  {
    if s == [] then None else Some((MinOf(s).value, MaxOf(s).value))
  }

  /** The range of a non-empty window is made of two of its values and bounds all of them. */
  lemma RangeBounds(s: seq<real>)
    requires s != []
    ensures var (lo, hi) := RangeOf(s).value;
      lo in s && hi in s && forall t :: t in s ==> lo <= t <= hi
  {
    ExtremesBound(s);
  }

  // ---------------------------------------------------------------------
  // The visualiser's data store
  // ---------------------------------------------------------------------

  /** The per-sensor deques of `sensor_data` (the plot colour is not modelled). */
  datatype Series = Series(timestamps: seq<Timestamp>, temperatures: seq<real>)

  const NoSeries := Series([], [])

  /** Each deque of a series bounded by `n`. */
  function SeriesWindow(s: Series, n: nat): Series {
    Series(LastN(s.timestamps, n), LastN(s.temperatures, n))
  }

  /** `self.stats`; a missing minimum or maximum stands for the initial infinities. */
  datatype Stats = Stats(minTemp: Option<real>, maxTemp: Option<real>, avgTemp: real, dataPoints: int,
                         lastUpdate: Option<Timestamp>)

  const InitialStats := Stats(None, None, 0.0, 0, None)

  /** The dictionary `get_data_summary` returns; the time range is the span between the oldest and newest retained timestamp. */
  datatype DataSummary = DataSummary(totalPoints: int, sensors: seq<string>, timeRange: Option<int>,
                                     temperatureRange: Option<(real, real)>, statistics: Stats)

  predicate Distinct(ids: seq<string>) {
    forall i, j :: 0 <= i < j < |ids| ==> ids[i] != ids[j]
  }

  /**
   * The per-sensor store: the ids in insertion order are exactly the keys,
   * each once, and every sensor's deques hold the last `n` of its points.
   */
  ghost predicate SensorsHold(ids: seq<string>, data: map<string, Series>, past: map<string, Series>, n: nat) {
    && Distinct(ids)
    && (forall id :: id in ids <==> id in data)
    && past.Keys == data.Keys
    && (forall id :: id in data ==> data[id] == SeriesWindow(past[id], n))
  }

  /** The series of `id` in `data`, or an empty one when `id` has none yet. */
  function SeriesOf(data: map<string, Series>, id: string): Series {
    if id in data then data[id] else NoSeries
  }

  /** `s` with one more point at its end. */
  function Extend(s: Series, t: Timestamp, temperature: real): Series {
    Series(s.timestamps + [t], s.temperatures + [temperature])
  }

  /** `s` with one more point appended to each deque bounded by `n`. */
  function Push(s: Series, t: Timestamp, temperature: real, n: nat): Series {
    Series(Append(s.timestamps, t, n), Append(s.temperatures, temperature, n))
  }

  /** Updating a key overwrites whatever an earlier update of the same key stored. */
  lemma Overwrite<V>(m: map<string, V>, m1: map<string, V>, k: string, v: V)
    requires m1 == m || (k in m1 && m1 == m[k := m1[k]])
    ensures m1[k := v] == m[k := v]
  {
    if m1 != m {
      assert m[k := m1[k]][k := v] == m[k := v];
    }
  }

  /** Registering `id` on first sight keeps the id list free of repeats and in step with the keys. */
  lemma RegisterStep(ids: seq<string>, keys: set<string>, id: string)
    requires Distinct(ids) && forall x :: x in ids <==> x in keys
    ensures var ids' := if id in keys then ids else ids + [id];
      Distinct(ids') && forall x :: x in ids' <==> x in keys || x == id
  {
    if id !in keys {
      var ids' := ids + [id];
      forall i, j | 0 <= i < j < |ids'|
        ensures ids'[i] != ids'[j]
      {
        if j == |ids| {
          assert ids'[i] == ids[i] && ids[i] in ids;
        }
      }
      assert forall x :: x in ids' <==> x in ids || x == id;
    }
  }

  /** Adding a point for `id` keeps the per-sensor store consistent. */
  lemma {:induction false} SensorsStep(ids: seq<string>, data: map<string, Series>, past: map<string, Series>, n: nat,
                                       id: string, t: Timestamp, temperature: real)
    requires SensorsHold(ids, data, past, n)
    ensures SensorsHold(if id in data then ids else ids + [id],
                        data[id := Push(SeriesOf(data, id), t, temperature, n)],
                        past[id := Extend(SeriesOf(past, id), t, temperature)], n)
  {
    var data' := data[id := Push(SeriesOf(data, id), t, temperature, n)];
    var past' := past[id := Extend(SeriesOf(past, id), t, temperature)];
    RegisterStep(ids, data.Keys, id);
    var h := SeriesOf(past, id);
    assert SeriesOf(data, id) == SeriesWindow(h, n);
    AppendKeepsWindow(h.timestamps, t, n);
    AppendKeepsWindow(h.temperatures, temperature, n);
    forall x | x in data'
      ensures data'[x] == SeriesWindow(past'[x], n)
    {
      if x != id {
        assert data'[x] == data[x] && past'[x] == past[x];
      }
    }
  }

  class RealTimeVisualizer {
    const maxPoints: nat
    var timestamps: seq<Timestamp>
    var temperatures: seq<real>
    /** The keys of `sensor_data` in insertion order. */
    var sensorIds: seq<string>
    var sensorData: map<string, Series>
    var stats: Stats

    /** Everything added since the last clear, overall and per sensor. */
    ghost var history: seq<real>
    ghost var timeHistory: seq<Timestamp>
    ghost var sensorHistory: map<string, Series>

    /** The two global deques hold the last `maxPoints` points since the last clear. */
    ghost predicate WindowsHold()
      reads this`history, this`timeHistory, this`temperatures, this`timestamps
    {
      && |history| == |timeHistory|
      && temperatures == LastN(history, maxPoints)
      && timestamps == LastN(timeHistory, maxPoints)
    }

    /**
     * The statistics: the count, minimum and maximum of every point since
     * the last clear, and the average of the retained window.
     */
    ghost predicate StatsHold()
      reads this`stats, this`history, this`temperatures
    {
      && stats.dataPoints == |history|
      && stats.minTemp == MinOf(history)
      && stats.maxTemp == MaxOf(history)
      && stats.avgTemp == Average(temperatures)
      && (stats.lastUpdate.None? <==> stats.dataPoints == 0)
    }

    ghost predicate Valid()
      reads this
    {
      WindowsHold() && StatsHold() && SensorsHold(sensorIds, sensorData, sensorHistory, maxPoints)
    }

    /** `RealTimeVisualizer(max_points)`: empty store and initial statistics. */
    constructor (maxPoints: nat)
      ensures Valid()
      ensures this.maxPoints == maxPoints
      ensures timestamps == [] && temperatures == [] && sensorIds == [] && sensorData == map[]
      ensures stats == InitialStats
    {
      this.maxPoints := maxPoints;
      timestamps, temperatures := [], [];
      sensorIds, sensorData := [], map[];
      stats := InitialStats;
      history, timeHistory, sensorHistory := [], [], map[];
    }

    /**
     * `update_stats`: count the point, fold it into the running minimum and
     * maximum, stamp the update time and recompute the average of the window
     * when the window is not empty.
     */
    method UpdateStats(temperature: real, now: Timestamp)
      modifies this`stats
      ensures stats == Stats(
        Some(Lower(old(stats.minTemp), temperature)),
        Some(Higher(old(stats.maxTemp), temperature)),
        if |temperatures| > 0 then Average(temperatures) else old(stats.avgTemp),
        old(stats.dataPoints) + 1,
        Some(now))
    {
      var minTemp := Lower(stats.minTemp, temperature);
      var maxTemp := Higher(stats.maxTemp, temperature);
      var avgTemp := stats.avgTemp;
      if |temperatures| > 0 {
        avgTemp := Sum(temperatures) / |temperatures| as real;
      }
      stats := Stats(Some(minTemp), Some(maxTemp), avgTemp, stats.dataPoints + 1, Some(now));
    }

    /**
     * The sensor-specific part of `add_data_point`: create the sensor's
     * deques on its first point, then append to both.
     */
    method AddToSensor(sensorId: string, t: Timestamp, temperature: real)
      requires SensorsHold(sensorIds, sensorData, sensorHistory, maxPoints)
      modifies this`sensorIds, this`sensorData, this`sensorHistory
      ensures SensorsHold(sensorIds, sensorData, sensorHistory, maxPoints)
      ensures sensorIds == if sensorId in old(sensorData) then old(sensorIds) else old(sensorIds) + [sensorId]
      ensures sensorData == old(sensorData)[sensorId := Push(SeriesOf(old(sensorData), sensorId), t, temperature, maxPoints)]
      ensures sensorHistory == old(sensorHistory)[sensorId := Extend(SeriesOf(old(sensorHistory), sensorId), t, temperature)]
    {
      SensorsStep(sensorIds, sensorData, sensorHistory, maxPoints, sensorId, t, temperature);
      ghost var data0, past0 := sensorData, sensorHistory;
      if sensorId !in sensorData {
        sensorData := sensorData[sensorId := NoSeries];
        sensorIds := sensorIds + [sensorId];
        sensorHistory := sensorHistory[sensorId := NoSeries];
      }
      var series := sensorData[sensorId];
      var past := sensorHistory[sensorId];
      ghost var data1, past1 := sensorData, sensorHistory;
      sensorData := sensorData[sensorId := Series(Append(series.timestamps, t, maxPoints),
                                                  Append(series.temperatures, temperature, maxPoints))];
      sensorHistory := sensorHistory[sensorId := Series(past.timestamps + [t], past.temperatures + [temperature])];
      Overwrite(data0, data1, sensorId, Push(series, t, temperature, maxPoints));
      Overwrite(past0, past1, sensorId, Extend(past, t, temperature));
    }

    /** The global part of `add_data_point`: append to both global deques. */
    method AddToWindows(t: Timestamp, temperature: real)
      requires WindowsHold()
      modifies this`timestamps, this`temperatures, this`history, this`timeHistory
      ensures WindowsHold()
      ensures history == old(history) + [temperature] && timeHistory == old(timeHistory) + [t]
      ensures temperatures == Append(old(temperatures), temperature, maxPoints)
      ensures timestamps == Append(old(timestamps), t, maxPoints)
    {
      AppendKeepsWindow(timeHistory, t, maxPoints);
      AppendKeepsWindow(history, temperature, maxPoints);
      timestamps := Append(timestamps, t, maxPoints);
      temperatures := Append(temperatures, temperature, maxPoints);
      history, timeHistory := history + [temperature], timeHistory + [t];
    }

    /**
     * `add_data_point`: append to both global deques and to the sensor's
     * own deques, then update the statistics. A missing timestamp is the
     * current time `now`.
     */
    method AddDataPoint(sensorId: string, temperature: real, timestamp: Option<Timestamp>, now: Timestamp)
      requires Valid()
      modifies this
      ensures Valid()
      ensures var t := if timestamp.Some? then timestamp.value else now;
        && history == old(history) + [temperature]
        && timeHistory == old(timeHistory) + [t]
        && temperatures == Append(old(temperatures), temperature, maxPoints)
        && timestamps == Append(old(timestamps), t, maxPoints)
        && sensorData == old(sensorData)[sensorId := Push(SeriesOf(old(sensorData), sensorId), t, temperature, maxPoints)]
      ensures sensorIds == if sensorId in old(sensorData) then old(sensorIds) else old(sensorIds) + [sensorId]
      ensures stats.lastUpdate == Some(now)
    {
      var t := if timestamp.Some? then timestamp.value else now;
      ExtremesSnoc(history, temperature);
      AddToWindows(t, temperature);
      AddToSensor(sensorId, t, temperature);
      assert WindowsHold();
      UpdateStats(temperature, now);
      assert WindowsHold() && SensorsHold(sensorIds, sensorData, sensorHistory, maxPoints);
      assert |temperatures| == 0 ==> maxPoints == 0 && old(temperatures) == [];
    }

    /** `clear_data`: empty every deque and the sensor map and restore the initial statistics. */
    method ClearData()
      modifies this
      ensures Valid()
      ensures timestamps == [] && temperatures == [] && sensorIds == [] && sensorData == map[]
      ensures stats == InitialStats
      ensures GetDataSummary() == DataSummary(0, [], None, None, InitialStats)
    {
      timestamps, temperatures := [], [];
      sensorIds, sensorData := [], map[];
      stats := InitialStats;
      history, timeHistory, sensorHistory := [], [], map[];
    }

    /**
     * `get_data_summary`: the window size, the sensors in insertion order,
     * the span of the retained timestamps when there are at least two, the
     * range of the retained temperatures when there is one, and the statistics.
     */
    function GetDataSummary(): (r: DataSummary)
      reads this
      ensures r.totalPoints == |temperatures| && r.sensors == sensorIds && r.statistics == stats
      ensures r.timeRange.Some? <==> |timestamps| > 1
      ensures r.timeRange.Some? ==> r.timeRange.value == timestamps[|timestamps| - 1] - timestamps[0]
      ensures r.temperatureRange.Some? <==> |temperatures| > 0
      ensures r.temperatureRange.Some? ==> r.temperatureRange == RangeOf(temperatures)
    {
      DataSummary(
        |temperatures|,
        sensorIds,
        if |timestamps| > 1 then Some(timestamps[|timestamps| - 1] - timestamps[0]) else None,
        RangeOf(temperatures),
        stats)
    }

    /**
     * What a consistent store reports: the two deques have the same length,
     * since the last clear they hold `min(data_points, max_points)` points,
     * all between the running minimum and maximum, and the average lies
     * within the window's range.
     */
    lemma SummaryWithinStats()
      requires Valid()
      ensures var r := GetDataSummary();
        && r.totalPoints == (if stats.dataPoints <= maxPoints then stats.dataPoints else maxPoints)
        && (r.temperatureRange.Some? ==>
              stats.minTemp.Some? && stats.maxTemp.Some?
              && stats.minTemp.value <= r.temperatureRange.value.0
              && r.temperatureRange.value.1 <= stats.maxTemp.value
              && r.temperatureRange.value.0 <= stats.avgTemp <= r.temperatureRange.value.1)
      ensures |timestamps| == |temperatures| <= maxPoints
      ensures stats.dataPoints > 0 ==> stats.minTemp.Some? && stats.maxTemp.Some?
      ensures forall t :: t in temperatures ==> stats.minTemp.value <= t <= stats.maxTemp.value
    {
      if |temperatures| > 0 {
        ExtremesBound(temperatures);
        ExtremesBound(history);
        assert temperatures == history[|history| - |temperatures|..];
        assert forall t :: t in temperatures ==> t in history;
        assert MinOf(temperatures).value in history;
        assert MaxOf(temperatures).value in history;
        AverageBounds(temperatures);
      }
    }
  }
}
