# Record normaliser and sleep annotator of the baby-tracking charts

This project models, in Dafny, the data layer of a small web page that
charts exported baby-tracking records (sleeps, feeds, diapers). That layer is
`js/data.js`, and it has two parts:

- **`Data`** takes an array of raw export records. Each raw record becomes a
  fresh "cleansed" object. White space is trimmed from both ends of every key.
  Every field whose raw key contains "date" or "time", in any letter case,
  becomes a `Date` (`new Date(value)`). Every other value is copied unchanged.
  `Excretions` and `Feeds` are `Data` with nothing added.
- **`Sleeps`** normalises its records as `Data` does and then settles the
  day/night hour: `dayNightHour || 8`, followed by a `console.assert` that it
  is below 12. It then updates every sleep in place:
  - "Start Time" and "End Time" are re-wrapped as Dates when they are truthy.
  - "Mid Time" is set to the midpoint of start and end, or to the start when
    there is no end.
  - "Nap" is set to whether the local hour of "Mid Time" lies in
    `[dayNightHour, dayNightHour + 12)`.
  - A sleep with no Start Time makes `.getTime()` or `.getHours()` throw a
    `TypeError`.

Modules:

- `JsValues` (`js_values.dfy`) holds the JavaScript values a field can take
  (string, number, boolean, Date, `undefined`, `null`). It also defines
  truthiness, `TimeClip`, and what `new Date(v)` makes of each kind of value.
  A Date's time value has the type `DateTime`: NaN, or a time within
  ±8.64e15 ms.
- `Keys` (`keys.dfy`) defines `String.prototype.trim` over the ECMAScript
  white-space and line-terminator characters. It also defines the test
  `/date|time/i`.
- `Normaliser` (`data.dfy`) defines the per-record function `Cleanse` and the
  loops `CleanseRecord` (the `_.each` over one record's keys) and `Normalise`
  (the `_.map` over the records). The class `Data` is built on them.
- `SleepAnnotator` (`sleeps.dfy`) defines the per-sleep specification
  `AnnotateSleep`. It also holds the class `Sleeps`, whose `AnnotateAll` loop
  updates `data` record by record, and `NewSleeps`, the whole constructor
  including its `TypeError`.

Things the host provides are parameters of type `Host`. The model does not
interpret them:

- `parse`: how a date string is parsed by `new Date(string)`. As with a
  number argument, the result then goes through TimeClip.
- `hourOf`: the local-time hour of a time value (`getHours`), which depends on
  the time zone. It always lies in 0..23.

## Model

| member | source | states |
|---|---|---|
| `JsValues.TimeClip` | js/data.js:30 | `new Date(number)`: a time value exists exactly when the number is within ±8.64e15 ms, and it is then the number truncated toward zero |
| `JsValues.ToDate` | js/data.js:26-27 | `new Date(d)` of a Date `d` keeps `d`'s time value; a parsed string is clipped like a number, so every Date holds NaN or a time within ±8.64e15 ms |
| `Keys.TrimBounds` | js/data.js:7 | `key.trim()` removes a white-space prefix and suffix, and the result has white space at neither end |
| `Keys.MatchesDateTimeTrim` | js/data.js:7 | the `date`/`time` test gives the same answer on a raw key and on its trimmed form |
| `Normaliser.Convert` | js/data.js:7 | a value becomes a Date when its key contains "date" or "time" in any letter case, and is copied unchanged otherwise |
| `Normaliser.CleanseRecord` | js/data.js:4-9 | the key-by-key loop builds exactly the cleansed record `Cleanse` specifies |
| `Normaliser.Normalise` | js/data.js:3-10 | there is one cleansed record per raw record, in the same order, each being `Cleanse` of its raw record |
| `Normaliser.CleanseKeys` | js/data.js:5-7 | the cleansed key set equals the set of trimmed raw keys |
| `Normaliser.CleanseKeysTrimmed` | js/data.js:7 | no cleansed key has leading or trailing white space |
| `Normaliser.CleanseLastWins` | js/data.js:5-7 | when no later raw key trims to the same string, that pair's converted value is the one kept: the last assignment wins |
| `Normaliser.CleanseEntry` | js/data.js:5-8 | each cleansed entry comes from the last raw pair with that trimmed key; its value is `new Date(raw value)` when the trimmed key contains "date" or "time" in any letter case, and the raw value otherwise |
| `Normaliser.CleansedDateField` | js/data.js:7 | a cleansed field whose key names a date or a time always holds a Date |
| `Normaliser.Data.constructor` | js/data.js:2-11 | `data` holds the normalised records, one per raw record, in order |
| `SleepAnnotator.DayNightHour` | js/data.js:23 | the hour is 8 when the argument is absent or 0, and is the argument otherwise |
| `SleepAnnotator.Rewrap` | js/data.js:26-27 | `v && new Date(v)` leaves a falsy value as it is, turns a truthy one into a Date, and leaves an existing Date's time value unchanged |
| `SleepAnnotator.TruncOfHalf` | js/data.js:30 | truncating `n / 2` toward zero, as `new Date` does, is the integer halving that rounds toward zero |
| `SleepAnnotator.Midpoint` | js/data.js:29-30 | the midpoint is Invalid when either end is Invalid; otherwise it is `trunc((start + end) / 2)` and, when start ≤ end, it lies between them |
| `SleepAnnotator.NapOf` | js/data.js:35 | Nap is true exactly when Mid Time is a valid time whose local hour h satisfies `dayNightHour <= h < dayNightHour + 12` |
| `SleepAnnotator.NightSleepHours` | js/data.js:35 | for `0 <= dayNightHour < 12` and a valid Mid Time, Nap is false exactly when the local hour lies in `[dayNightHour + 12, 24)` or `[0, dayNightHour)` |
| `SleepAnnotator.AnnotateSleep` | js/data.js:26-35 | per sleep: fails with a TypeError exactly when Start Time is falsy; on success it writes exactly Start/End/Mid Time and Nap, leaves every other field alone, re-wraps the times, and derives Mid Time and Nap |
| `SleepAnnotator.MidTimeBetween` | js/data.js:29-33 | for a sleep with a valid start no later than its valid end, Mid Time is `trunc((start+end)/2)` and lies between them; with no End Time, Mid Time is Start Time |
| `SleepAnnotator.NapHourCountClosed` | js/data.js:35 | the nap window holds `max(0, min(n, dnh+12) - max(0, dnh))` of the hours in `[0, n)` |
| `SleepAnnotator.NapHalfDay` | js/data.js:23-35 | with the asserted range `0 <= dayNightHour < 12`, exactly 12 of the 24 hours are nap hours, so every sleep is either a nap or a night sleep by half-days; no hour value gives more than 12 |
| `SleepAnnotator.Sleeps.constructor` | js/data.js:21-24 | records are normalised as `Data` does, and `dayNightHour` is `dayNightHour || 8` |
| `SleepAnnotator.Sleeps.AnnotateAll` | js/data.js:25-36 | the in-place loop succeeds exactly when every sleep has a truthy Start Time, and then every record is its `AnnotateSleep` result; on a throw, the records before the failing one are annotated and the rest are untouched |
| `SleepAnnotator.NewSleeps` | js/data.js:21-37 | `new Sleeps(...)` succeeds exactly when every normalised sleep has a Start Time; it then holds the annotated records and the settled hour; otherwise it yields the TypeError of the first failing sleep |
| `SleepAnnotator.StartTimeIsDate` | js/data.js:26-27 | after normalisation, Start Time is truthy exactly when it is present, because it is always a Date |
| `SleepAnnotator.StartTimeFromRawKey` | js/data.js:5-7 | Start Time is present exactly when some raw key trims to "Start Time" |

## Left out

- `naps` and `nightSleeps` (js/data.js:39-45): these getters compute a `_.where` filter and discard it. They have no `return`, so they yield `undefined` and change nothing. There is nothing to model.
- `Excretions` and `Feeds` (js/data.js:14-18) add nothing to `Data`, so they are not modelled separately.
- How `new Date(string)` parses a date string, and the local time zone behind `getHours`: both are host behaviour. They are the `parse` and `hourOf` parameters.
- `console.assert` (js/data.js:24) only logs a message, and that is I/O. The model goes on for any hour, as the source does. The 12-hour split (`NapHalfDay`) is proved for the asserted range.
- Numbers are finite reals. NaN and ±Infinity as raw values are not modelled.
- `SleepAnnotator.DayNightHour`: the argument is an optional integer. Fractional values and non-numeric arguments (strings, NaN, and so on) are not modelled.
- `SleepAnnotator.Midpoint`: `start + end` is computed exactly. In JavaScript it is a double, which rounds once `|start + end|` exceeds 2^53 ms.
- `SleepAnnotator.Sleeps.AnnotateAll`: the sleep that throws is left as it was. In the source, its Start Time and End Time (and possibly Mid Time) have already been overwritten when the exception leaves the constructor, but the object is then unreachable.
- The raw record's pairs are taken in the order given. JavaScript's own order for object keys (integer-like keys first, in ascending order) is not modelled.
- Special property names: assigning to `__proto__` and lodash's treatment of a record with a numeric `length` key as array-like are not modelled.
- js/charts.js, js/milestonesCarousel.js, js/flickr.js, js/headerShrink.js and Gruntfile.js are not part of this model: they are chart widgets, DOM and carousel UI, a network photo feed, a scroll effect and build configuration. The aggregation methods js/charts.js calls (`largest`, `longestDurationsDataTable`, `dataView`, `medianTimeBetweenFeedings`, `diapersPerDay`, `weightWithPercentiles`) are defined in none of the repository files modelled here.
