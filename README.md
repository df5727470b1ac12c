# GERDPy weather-window extractor

A Dafny model of `get_weather_data` in `GERDPy/weather_data.py`. The function prepares
the weather drivers of the snow-melt simulation. It finds the first hourly row of a
weather table that carries the requested start month and day. It then picks a window
of row indices from that start: `Nt` contiguous rows when they fit, a wrap-around
over the whole table otherwise. Over that window it derives six series: wind speed,
ambient temperature, snowfall rate, cloudiness, relative humidity and total
precipitation.

The table is a `seq<Row>` holding only the columns the code reads: month (0), day (1),
precipitation (3), temperature (4), humidity (5), wind speed (6) and cloud octants (7).
Measurements are `real`, so the `/ 8` and `/ 100` scalings are exact. `Nt`, the month
and the day are parameters.

Files:
- `wrappers.dfy`: `Option` and `Result`.
- `weather_data.dfy`: module `WeatherData`, which holds the lookup (`MatchingRows`,
  `StartIndex`), the window policy (`Range`, `SelectRows` and its lemmas), the snowfall
  loop (`Snowfall`, a method over an array zeroed in place), the whole extractor
  (`GetWeatherData`) and the properties of its output (`Aligned` and its lemmas).

The model keeps the code's behaviour on these edges:
- An empty table gets no error of its own. It has no matching row, so it gives
  `DateNotFound`, as the code's only failure is the empty match list.
- `Nt` is any integer. A non-positive `Nt` gives an empty window, as Python's `range` does.
- The wrap-around window has the table's length, not `Nt`. This is kept as written.

A missing date, where the code fails by indexing an empty list, is reported as
`Failure(DateNotFound(month, day))`.

## Model

| member | source | states |
|---|---|---|
| `WeatherData.MatchingRows` | GERDPy/weather_data.py:25 | the match list holds exactly the indices of the rows carrying the month and day, in strictly increasing table order |
| `WeatherData.StartIndex` | GERDPy/weather_data.py:25 | Some exactly when some row carries the date; the index is then in range, its row carries the date and no earlier row does |
| `WeatherData.Range` | GERDPy/weather_data.py:29-33 | Python's `range(lo, hi)`: length `hi - lo` (0 when `hi <= lo`) and entry k is `lo + k` |
| `WeatherData.SelectRows` | GERDPy/weather_data.py:27-33 | in every branch the window has at most `len(data)` entries, each a valid row index, none repeated |
| `WeatherData.SelectRowsModular` | GERDPy/weather_data.py:27-33 | entry k of every window is row `(start + k) mod len(data)`; the length is `Nt` (0 if negative) when the request fits and `len(data)` otherwise |
| `WeatherData.ContiguousWindow` | GERDPy/weather_data.py:27-33 | when `start + Nt <= len(data)`, boundary included, the window is `start, ..., start + Nt - 1`, length `Nt` |
| `WeatherData.WrapAroundWindow` | GERDPy/weather_data.py:27-29 | when the request overruns from a nonzero start the window is `[start, n)` then `[0, start)`, length `n` (not `Nt`), a permutation of all row indices |
| `WeatherData.ZeroStartOverflow` | GERDPy/weather_data.py:30-31 | from start 0 with `Nt > len(data)` the window is every row in order |
| `WeatherData.DocumentedWindows` | GERDPy/weather_data.py:27-33 | on 100 rows: start 10 with 5 steps gives 10..14; start 95 with 10 steps gives 95..99 then 0..94, 100 entries; start 0 with 500 steps gives 0..99 |
| `WeatherData.Snowfall` | GERDPy/weather_data.py:42-46 | the copied precipitation column with entry k set to 0 exactly where temperature k is at least 1, unchanged elsewhere, same length |
| `WeatherData.GetWeatherData` | GERDPy/weather_data.py:8-60 | fails with `DateNotFound(month, day)` exactly when no row carries the date; otherwise the six series are aligned with the selected window of the first matching row |
| `WeatherData.AlignedUnique` | GERDPy/weather_data.py:36-58 | the alignment relation determines the six series: two results aligned with the same window are equal |
| `WeatherData.SnowfallIsRainOrZero` | GERDPy/weather_data.py:42-58 | snowfall is 0 where the output temperature is at least 1 and equals total precipitation otherwise, so it is always one of the two and never exceeds a non-negative precipitation |
| `WeatherData.ScalingInverse` | GERDPy/weather_data.py:48-55 | cloudiness times 8 gives the raw octants back, humidity times 100 the raw percentage |
| `WeatherData.UnitRanges` | GERDPy/weather_data.py:48-55 | with the selected rows' octants in [0, 8] and humidity in [0, 100], cloudiness and relative humidity lie in [0, 1] |

## Left out

- Reading the spreadsheet (`pd.read_excel` on the path from the UI text field, lines 15 and 18): file I/O through a library outside the model. The table is a parameter.
- The UI widget reads of day and month (lines 21-22): they become parameters.
- numpy and pandas mechanics and dtypes: columns are `seq<real>`, month and day are `int`. A spreadsheet cell read as a float or a missing value (NaN) is not modelled.
- IEEE floating point: the divisions by 8 and 100 and the comparison with 1 degree are exact on reals. NaN temperatures, which the code's `>=` leaves unzeroed, do not arise.
- Column 2 of the table is never read by the code and is not part of `Row`.
- `GERDPy/heatpipes.py` as a whole: the `Heatpipes` constructor and `__repr__` only cast and format strings, `xy_mat` is sine/cosine floating-point geometry, and `visualize_hp_config` is plotting.
- Validation of the radius ordering and a separate empty-table error: no code performs either.
