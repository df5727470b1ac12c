/**
 * Extraction of a calendar-anchored window of hourly weather records and
 * the six driver series derived from it (GERDPy/weather_data.py).
 *
 * The spreadsheet is an in-memory sequence of rows; the requested number of
 * time steps, the start month and the start day are plain parameters.
 */
module WeatherData {
  import opened Wrappers

  /** One hourly observation: the columns the extractor reads. */
  datatype Row = Row(
    month: int,           // column 0
    day: int,             // column 1
    precipitation: real,  // column 3, mm/h
    temperature: real,    // column 4, degrees Celsius
    humidity: real,       // column 5, percent
    windSpeed: real,      // column 6, m/s
    cloudOctants: real    // column 7, eighths of sky covered
  )

  /** The six index-aligned driver series handed to the simulation. */
  datatype WeatherSeries = WeatherSeries(
    windSpeed: seq<real>,
    temperature: seq<real>,
    snowfall: seq<real>,
    cloudiness: seq<real>,
    humidity: seq<real>,
    precipitation: seq<real>
  )

  /** Reported when no row carries the requested date. */
  datatype LookupError = DateNotFound(month: int, day: int)

  /** At or above this temperature precipitation is taken to fall as rain. */
  const RainThreshold: real := 1.0
  /** Cloud cover is given in eighths of the sky. */
  const OctantsPerSky: real := 8.0
  /** Relative humidity is given in percent. */
  const PercentPerUnit: real := 100.0

  predicate IsDate(row: Row, month: int, day: int)
  {
    row.month == month && row.day == day
  }

  // ---------------------------------------------------------------------
  // Start-row lookup
  // ---------------------------------------------------------------------

  /** The indices of the rows at or after `from` that carry the date, in
      table order: the boolean-mask index list the lookup builds. */
  function MatchingRows(data: seq<Row>, month: int, day: int, from: nat): (m: seq<nat>)
    requires from <= |data|
    decreases |data| - from
    ensures forall k :: 0 <= k < |m| ==> from <= m[k] < |data| && IsDate(data[m[k]], month, day)
    ensures forall i :: from <= i < |data| && IsDate(data[i], month, day) ==> i in m
    ensures forall j, k :: 0 <= j < k < |m| ==> m[j] < m[k]
  {
    if from == |data| then []
    else (if IsDate(data[from], month, day) then [from] else [])
         + MatchingRows(data, month, day, from + 1)
  }

  /** The first index of the match list, or None where the list is empty
      (the Python code indexes it with [0] and fails there). */
  function StartIndex(data: seq<Row>, month: int, day: int): (r: Option<nat>)
    ensures r.Some? <==> exists i :: 0 <= i < |data| && IsDate(data[i], month, day)
    ensures r.Some? ==> r.value < |data| && IsDate(data[r.value], month, day)
    ensures r.Some? ==> forall j :: 0 <= j < r.value ==> !IsDate(data[j], month, day)
  {
    var m := MatchingRows(data, month, day, 0);
    if |m| == 0 then None
    else
      assert forall j :: 0 <= j < |m| ==> m[0] <= m[j];
      Some(m[0])
  }

  // ---------------------------------------------------------------------
  // Window selection
  // ---------------------------------------------------------------------

  /** Python's range(lo, hi): empty when hi <= lo. */
  function Range(lo: nat, hi: int): (r: seq<nat>)
    decreases hi - lo
    ensures |r| == if hi <= lo then 0 else hi - lo
    ensures forall k :: 0 <= k < |r| ==> r[k] == lo + k
  {
    if hi <= lo then [] else [lo] + Range(lo + 1, hi)
  }

  /** The row indices of the window that starts at `start` and asks for
      `nt` steps of a table of `n` rows. */
  function SelectRows(start: nat, nt: int, n: nat): (rows: seq<nat>)
    requires start < n
    ensures |rows| <= n
    ensures forall k :: 0 <= k < |rows| ==> rows[k] < n
    ensures forall j, k :: 0 <= j < k < |rows| ==> rows[j] != rows[k]
  {
    if start + nt > n then
      if start != 0 then Range(start, n) + Range(0, start)
      else Range(0, n)
    else Range(start, start + nt)
  }

  lemma RangeSplit(lo: nat, mid: nat, hi: nat)
    requires lo <= mid <= hi
    ensures Range(lo, hi) == Range(lo, mid) + Range(mid, hi)
  {
  }

  /** Every branch, read as arithmetic: entry k is row (start + k) mod n,
      and the window is `nt` long when it fits and the whole table otherwise. */
  lemma SelectRowsModular(start: nat, nt: int, n: nat)
    requires start < n
    ensures |SelectRows(start, nt, n)| == if start + nt <= n then (if nt < 0 then 0 else nt) else n
    ensures forall k :: 0 <= k < |SelectRows(start, nt, n)| ==> SelectRows(start, nt, n)[k] == (start + k) % n
  {
    var rows := SelectRows(start, nt, n);
    if start + nt <= n {
      forall k | 0 <= k < |rows| ensures rows[k] == (start + k) % n {
        ModSmall(start + k, n);
      }
    } else if start != 0 {
      forall k | 0 <= k < |rows| ensures rows[k] == (start + k) % n {
        if k < n - start {
          ModSmall(start + k, n);
        } else {
          ModShift(start + k, n);
        }
      }
    } else {
      forall k | 0 <= k < |rows| ensures rows[k] == (start + k) % n {
        ModSmall(k, n);
      }
    }
  }

  lemma ModSmall(x: nat, n: nat)
    requires x < n
    ensures x % n == x
  {
  }

  lemma ModShift(x: nat, n: nat)
    requires 0 < n <= x < 2 * n
    ensures x % n == x - n
  {
    assert x == 1 * n + (x - n);
  }

  /** When the request fits (including start + nt == n) the window is the
      contiguous block start, start+1, ..., start+nt-1. */
  lemma ContiguousWindow(start: nat, nt: nat, n: nat)
    requires start < n && start + nt <= n
    ensures |SelectRows(start, nt, n)| == nt
    ensures forall k :: 0 <= k < nt ==> SelectRows(start, nt, n)[k] == start + k
  {
  }

  /** When the request overruns the table from a nonzero start, the window
      is [start, n) followed by [0, start): n entries, not nt, and a
      permutation of all row indices. */
  lemma WrapAroundWindow(start: nat, nt: int, n: nat)
    requires start < n && start + nt > n && start != 0
    ensures SelectRows(start, nt, n) == Range(start, n) + Range(0, start)
    ensures |SelectRows(start, nt, n)| == n
    ensures multiset(SelectRows(start, nt, n)) == multiset(Range(0, n))
    ensures forall i :: 0 <= i < n ==> i in SelectRows(start, nt, n)
  {
    var rows := SelectRows(start, nt, n);
    RangeSplit(0, start, n);
    assert multiset(rows) == multiset(Range(start, n)) + multiset(Range(0, start));
    assert multiset(Range(0, n)) == multiset(Range(0, start)) + multiset(Range(start, n));
    forall i | 0 <= i < n ensures i in rows {
      assert Range(0, n)[i] == i;
      assert i in multiset(Range(0, n));
    }
  }

  /** From start 0 with a request longer than the table: all rows in order. */
  lemma ZeroStartOverflow(nt: int, n: nat)
    requires 0 < n < nt
    ensures |SelectRows(0, nt, n)| == n
    ensures forall k :: 0 <= k < n ==> SelectRows(0, nt, n)[k] == k
  {
  }

  /** The three windows documented for a 100-row table. */
  lemma DocumentedWindows()
    ensures SelectRows(10, 5, 100) == [10, 11, 12, 13, 14]
    ensures |SelectRows(95, 10, 100)| == 100
    ensures SelectRows(95, 10, 100)[..5] == [95, 96, 97, 98, 99]
    ensures forall k :: 5 <= k < 100 ==> SelectRows(95, 10, 100)[k] == k - 5
    ensures |SelectRows(0, 500, 100)| == 100
    ensures forall k :: 0 <= k < 100 ==> SelectRows(0, 500, 100)[k] == k
  {
  }

  // ---------------------------------------------------------------------
  // Channel derivation
  // ---------------------------------------------------------------------

  /** The relation between a selected window of the table and the six
      series: entry k of every series comes from row rows[k]. */
  predicate Aligned(data: seq<Row>, rows: seq<nat>, w: WeatherSeries)
  {
    |w.windSpeed| == |rows| && |w.temperature| == |rows| && |w.snowfall| == |rows|
    && |w.cloudiness| == |rows| && |w.humidity| == |rows| && |w.precipitation| == |rows|
    && forall k :: 0 <= k < |rows| ==>
         rows[k] < |data|
         && w.windSpeed[k] == data[rows[k]].windSpeed
         && w.temperature[k] == data[rows[k]].temperature
         && w.snowfall[k] == (if data[rows[k]].temperature >= RainThreshold then 0.0
                              else data[rows[k]].precipitation)
         && w.cloudiness[k] == data[rows[k]].cloudOctants / OctantsPerSky
         && w.humidity[k] == data[rows[k]].humidity / PercentPerUnit
         && w.precipitation[k] == data[rows[k]].precipitation
  }

  /** Snowfall rate: a copy of the precipitation column in which every
      entry whose temperature is at least 1 degree is overwritten with 0. */
  method Snowfall(temperature: seq<real>, precipitation: seq<real>) returns (snow: seq<real>)
    requires |temperature| == |precipitation|
    ensures |snow| == |precipitation|
    ensures forall k :: 0 <= k < |snow| ==>
              snow[k] == if temperature[k] >= RainThreshold then 0.0 else precipitation[k]
  {
    var sw := new real[|precipitation|](i requires 0 <= i < |precipitation| => precipitation[i]);
    for i := 0 to |temperature|
      invariant forall k :: 0 <= k < i ==>
                  sw[k] == if temperature[k] >= RainThreshold then 0.0 else precipitation[k]
      invariant forall k :: i <= k < sw.Length ==> sw[k] == precipitation[k]
    {
      if temperature[i] >= RainThreshold {
        sw[i] := 0.0;
      }
    }
    snow := sw[..];
  }

  /** The whole extractor: locate the start row, select the window and
      derive the six series over it. */
  method GetWeatherData(nt: int, month: int, day: int, data: seq<Row>)
    returns (r: Result<WeatherSeries, LookupError>)
    ensures StartIndex(data, month, day).None? ==> r == Failure(DateNotFound(month, day))
    ensures StartIndex(data, month, day).Some? ==>
              r.Success? && Aligned(data, SelectRows(StartIndex(data, month, day).value, nt, |data|), r.value)
  {
    var found := StartIndex(data, month, day);
    if found.None? {
      return Failure(DateNotFound(month, day));
    }
    var rows := SelectRows(found.value, nt, |data|);
    var wind := seq(|rows|, k requires 0 <= k < |rows| => data[rows[k]].windSpeed);
    var theta := seq(|rows|, k requires 0 <= k < |rows| => data[rows[k]].temperature);
    var raw := seq(|rows|, k requires 0 <= k < |rows| => data[rows[k]].precipitation);
    var snow := Snowfall(theta, raw);
    var cloud := seq(|rows|, k requires 0 <= k < |rows| => data[rows[k]].cloudOctants / OctantsPerSky);
    var phi := seq(|rows|, k requires 0 <= k < |rows| => data[rows[k]].humidity / PercentPerUnit);
    var rr := seq(|rows|, k requires 0 <= k < |rows| => data[rows[k]].precipitation);
    r := Success(WeatherSeries(wind, theta, snow, cloud, phi, rr));
  }

  // ---------------------------------------------------------------------
  // Properties of the derived series
  // ---------------------------------------------------------------------

  /** The six series are determined by the window: two results aligned
      with the same rows are equal. */
  lemma AlignedUnique(data: seq<Row>, rows: seq<nat>, w1: WeatherSeries, w2: WeatherSeries)
    requires Aligned(data, rows, w1) && Aligned(data, rows, w2)
    ensures w1 == w2
  {
  }

  /** Snowfall against the series' own temperature and total precipitation:
      zero when warm, the raw precipitation otherwise, so always one of the two. */
  lemma SnowfallIsRainOrZero(data: seq<Row>, rows: seq<nat>, w: WeatherSeries, k: nat)
    requires Aligned(data, rows, w) && k < |rows|
    ensures w.temperature[k] >= RainThreshold ==> w.snowfall[k] == 0.0
    ensures w.temperature[k] < RainThreshold ==> w.snowfall[k] == w.precipitation[k]
    ensures w.snowfall[k] == 0.0 || w.snowfall[k] == w.precipitation[k]
    ensures w.precipitation[k] >= 0.0 ==> 0.0 <= w.snowfall[k] <= w.precipitation[k]
  {
  }

  /** The scalings are undone by multiplying back. */
  lemma ScalingInverse(data: seq<Row>, rows: seq<nat>, w: WeatherSeries, k: nat)
    requires Aligned(data, rows, w) && k < |rows|
    ensures w.cloudiness[k] * OctantsPerSky == data[rows[k]].cloudOctants
    ensures w.humidity[k] * PercentPerUnit == data[rows[k]].humidity
  {
  }

  /** Octants in [0, 8] and humidity percentages in [0, 100] give cloud
      cover and relative humidity in [0, 1]. */
  lemma UnitRanges(data: seq<Row>, rows: seq<nat>, w: WeatherSeries)
    requires Aligned(data, rows, w)
    requires forall k :: 0 <= k < |rows| ==> 0.0 <= data[rows[k]].cloudOctants <= OctantsPerSky
    requires forall k :: 0 <= k < |rows| ==> 0.0 <= data[rows[k]].humidity <= PercentPerUnit
    ensures forall k :: 0 <= k < |rows| ==> 0.0 <= w.cloudiness[k] <= 1.0
    ensures forall k :: 0 <= k < |rows| ==> 0.0 <= w.humidity[k] <= 1.0
  {
  }
}
