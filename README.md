# F1 session dashboard: display transformations

This project models the small amount of real logic in the Streamlit
dashboard `f1app.py`. That logic is the set of table-to-display
transformations that turn a loaded FastF1 session into what the tabs show.
The session's contents are taken as plain input sequences: result rows, and
laps with driver, stint and compound. The provider's colour lookups are
taken as given functions.

- `DriverColors` models `get_driver_colors`. It walks the result rows in
  order. Each driver gets the provider colour with its leading `#` removed.
  A driver whose colour an earlier row already took gets the neutral
  `808080`. The operation is a method with a loop over the colour map and
  the set of used colours. It is proved against `KeptColour`, a
  set-free statement of the colour each row keeps.
- `Results` models the "Session Results" tab. For a race or sprint it
  covers positions gained or lost (`GridPosition - Position`, 0 when either
  is missing, with the status in parentheses when the driver did not
  finish), positions and grid shown as `"0"` when missing, and points
  truncated to an integer. For qualifying it covers the position and the
  three segment times.
- `LapTime` models `format_time`: `"N/A"` for a missing time, otherwise
  `MM:` followed by the seconds with three decimals in a field of width 5.
  Durations are whole milliseconds. A parser reads every rendering back.
- `Stints` models `groupby(["Driver", "Stint", "Compound"]).size()`. The
  rows come out in ascending key order, and each counts the laps of its key.
- `StintBars` models the tyre-strategy loop. Drivers are taken in finishing
  order. Each driver's bars start at lap 0 and lie end to end through the
  `previous_stint_end` accumulator. A global set of compounds makes only the
  first bar of each compound show in the legend.
- `Decimal` renders integers as Python's `str` does, zero-pads as the `:02`
  format does, and parses the result back. `Options` holds `Option` and
  `Result`.

## Model

| member | source | states |
|---|---|---|
| `DriverColors.GetDriverColors` | f1app.py:32-49 | Every result-row driver, and no one else, gets an entry. Each entry is the fallback or that driver's provider colour without leading `#`, so no entry starts with `#`. A driver's entry is the colour kept by its last row: the stripped colour unless an earlier row claimed it, then `808080`. No colour other than `808080` is held by two drivers. |
| `DriverColors.StripHashes` | f1app.py:40 | `lstrip('#')`: the result is a suffix of the input. Everything removed is `#`, and the result does not start with `#`. |
| `DriverColors.KeptColoursDistinct` | f1app.py:43-47 | Two rows keep the same colour only if it is the fallback. A later row whose provider colour equals an earlier row's gets the fallback. The first row to claim a colour keeps it. |
| `DriverColors.SharedColourScenario` | f1app.py:40-47 | Two drivers with `#1E90FF`: the first keeps `1E90FF`, the second gets `808080`. |
| `Decimal.NatToString` | f1app.py:97 | `str(n)` is a non-empty digit string of value n with no leading zero, one digit exactly below 10. |
| `Decimal.IntToStringRoundTrip` | f1app.py:97 | `str(i)` parses back to i for every integer, negative ones included, and contains no space. |
| `LapTime.FormatRoundTrip` | f1app.py:109-114 | Parsing `format_time`'s output gives back the input: "not set" for a missing time, the exact milliseconds otherwise. |
| `LapTime.FormatInjective` | f1app.py:109-114 | Two different times, missing or not, never render to the same text. |
| `LapTime.SecondsField` | f1app.py:113-114 | The seconds field is below 60. It is 5 characters wide (no leading zero) exactly when under ten seconds, and never wider than 6. |
| `LapTime.FormatScenarios` | f1app.py:109-114 | Missing is `N/A`; 65 123 ms is `01:5.123`; 83 456 ms is `01:23.456`. |
| `Results.ProjectResults` | f1app.py:95-131 | A race or sprint always gives one display row per result row. Qualifying gives a table exactly when every position is present; otherwise the integer conversion fails and no table is shown. |
| `Results.Truncate` | f1app.py:129 | `astype(int)` on points: truncation toward zero, within 1 of the value. |
| `Results.GainedLostRoundTrip` | f1app.py:96-99 | The gained/lost cell parses back as `Grid - Position` (0 when either is missing). The status in parentheses follows exactly when the status is not `"Finished"`. |
| `Results.RaceTableRows` | f1app.py:100-107 | Race/sprint row i reads back as result row i: position and grid (0 when missing), gained/lost as above, points truncated (0 when missing), name, team and status unchanged. |
| `Results.QualifyingTableRows` | f1app.py:118-125 | Qualifying row i reads back as result row i: the position, and each of Q1 to Q3 as its time or the not-set marker. |
| `Results.MissingShownAsZero` | f1app.py:97-129 | A missing position or grid is shown as `"0"`, missing points as 0, and a missing operand makes the difference 0, so the gained/lost cell reads back as 0. |
| `Results.GainedLostScenarios` | f1app.py:96-99 | Grid 3, finish 1 gives `2`; grid 1, finish 1 gives `0`; an unclassified retirement with status `Engine` gives `0 (Engine)`. |
| `Stints.GroupStints` | f1app.py:326-327 | The grouped table is strictly ascending in (Driver, Stint, Compound). Every count is positive, and the count of each key is the number of laps with that key. |
| `Stints.StintLengthCounts` | f1app.py:327 | Each row's `StintLength` equals the number of laps with that row's key, and is positive. |
| `Stints.GroupKeys` | f1app.py:327 | A key has a row exactly when some lap carries it. |
| `Stints.DriverTotal` | f1app.py:326-336 | The stint lengths of one driver sum to that driver's laps with stint and compound recorded. |
| `Stints.DriverStintOrder` | f1app.py:327-340 | A driver's stints are visited by stint number, then compound. |
| `StintBars.LayoutBars` | f1app.py:326-359 | The loop's bars equal `Layout`: for each driver of the finishing order, that driver's stints, each with its base, length and legend flag. |
| `StintBars.StintChart` | f1app.py:335-359 | Each bar is on its driver's row and as long as its stint's lap count. A driver's first bar starts at 0 and each next bar where the previous one ended. The last bar ends at the driver's lap count. |
| `StintBars.LegendFirst` | f1app.py:330-345 | A bar shows in the legend exactly when no earlier bar, across all drivers, has its compound. |
| `StintBars.LegendOnce` | f1app.py:343-345 | Every compound drawn is in the legend exactly once, through the first bar of that compound. |

## Left out

- Session loading and its error display (`load_session`), and the year, event and session selection: network I/O and UI.
- Figure construction, layout, axes and styling, and the lap-time scatter plot of the third tab: rendering only.
- FastF1 calls with no visible logic (`get_driver_color`, `get_compound_color`, `pick_fastest`, `pick_quicklaps`, `get_car_data().add_distance()`). The colour lookups are function parameters. The quick-lap threshold lives in the library.
- The telemetry plots of the second tab, including which drivers are selected. Only the best-lap time text there is modelled, through the same `FormatLapTime`.
- Float lap times: durations are non-negative whole milliseconds, so `divmod` and the `.3f` rounding are exact. A float time that rounds up to 60.000 seconds is not modelled.
- The `except AttributeError` branch of `format_time`, which returns a non-duration value unchanged: it depends on dynamic typing.
- The finishing order (`sort_values("Position")` with NaN last) is an input sequence.
- Status is always a string; a missing status is not modelled.
- Positions and stint numbers are modelled as integers, although pandas holds them as floats.
