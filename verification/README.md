# Year-wheel sequencer of polaryearplot

A model of the frame sequencer that turns a date-ordered stream of daily maximum temperatures
into an animated polar "year wheel": angle is the day of the year, radius the temperature. Every
frame takes one sample. The year being drawn grows as one polyline. The years already completed
are kept as a background polyline. When the calendar year changes, the current year is
flushed onto the end of the background. Feb 29 is drawn half a day before the counter and does
not advance it. Once the samples run out, pause frames hold the picture. A small rule picks the
frame rate and the frame count from the sample count, the target duration and the output name.

Files:

- `wrappers.dfy`: `Option` and `Result`.
- `calendar.dfy`: Gregorian dates, the next-day function, and the non-leap day-of-year ordinal.
  The ordinal uses the same month table as the month ticks of the wheel.
- `year_wheel.dfy`: the sequencer state as a value (`State`), one data frame (`Step`, made of the
  change of year `Flushed` and the placing of the sample `Placed`), `init`
  (`Cleared`), one animation frame (`FrameStep`), runs of frames (`Run`, `Frames`), the invariant
  every frame keeps (`WellFormed`), and lemmas about single steps and about runs.
- `year_blocks.dfy`: an independent description of what a run produces. It splits the input into
  maximal same-year blocks and places each sample at the count of non-Feb-29 samples before it in
  its block. `RunMatchesBlocks` proves that the step-by-step sequencer produces exactly this.
- `year_plot.dfy`: the sequencer as the program runs it. A class holds the module-level
  accumulators, and its `Init` and `Animate` methods update them in place. Each method is proved
  to perform the corresponding step of `year_wheel.dfy` and to keep the invariant.
- `frame_rate.dfy`: frames per second, pause frames and the total frame count, with their
  properties.

Representation choices:

- A position is an integer number of half-days after the start of the year. An ordinary day with
  counter `d` is at `2·d`, and Feb 29 at `2·d − 1`. The drawn angle, `2π·pos/730`, is a monotone
  function of it and is not modelled.
- Temperatures are `real`; nothing computes with them.
- The stored year starts as the integer `0` and is compared with year strings, so it never equals
  a sample's year. It is modelled as `Option<int>`, and `None` is the sentinel.
- The values of a path (`Values`) and the values of the samples (`SampleValues`) are the same
  projection on two element types. Only the first carries a contract.
- Years are compared as integers. For the four-digit years of the data, the formatted year strings
  are equal exactly when the integers are.

Details of the code the model follows:

- The day counter is reset when the year of a sample differs from the stored year
  (polaryearplot.py:247-249), not on Jan 1. If the data begins in the middle of a year, that first
  sample is drawn at position 0 (−1, half a day earlier, if that sample is Feb 29).
  `FirstSample` states this.
- The counter is reset on every change of year, even when the current path is empty. Only the
  flush depends on the path being non-empty (polaryearplot.py:249-251).
- Each line receives one colour value per point, so N values for N−1 segments
  (polaryearplot.py:259, 272, 292). The model keeps these per-point value arrays. It does not
  assign a value to each segment.
- `init` does not reset the stored year or the counter (polaryearplot.py:223-228). See
  "## Findings".

## Model

| member | source | states |
|---|---|---|
| `YearWheel.Fresh` | polaryearplot.py:44-49 | the module-level start state (empty accumulators, sentinel year, counter 0) satisfies the invariant and is unchanged by `init` |
| `YearWheel.Position` | polaryearplot.py:275-281 | a position rounds up to the counter in force, and is an odd number of half-days exactly on Feb 29 |
| `YearWheel.Flushed` | polaryearplot.py:247-266 | a change of year loses nothing: background followed by current path, and likewise their values, are as before; the current path is empty, the year stored, the counter 0, marker and title kept; when the current path was not empty, its values and line are emptied and the background segments rebuilt over the whole background, otherwise values and both segment lists are unchanged |
| `YearWheel.Placed` | polaryearplot.py:271-293 | placing a sample keeps the current path as a prefix and appends one point at the position for the counter in force, carrying the sample's value; appends the value; advances the counter except on Feb 29; leaves background, its values and segments and the year; the current line's segments are rebuilt over the whole new path; marker is the new point and title the date |
| `YearWheel.Step` | polaryearplot.py:239-293 | one data step adds exactly one point over current path and background, stores the sample's year, and leaves the marker on the last point, carrying the sample's value |
| `YearWheel.Cleared` | polaryearplot.py:223-232 | `init` empties both paths, their value arrays, both lines and the title, keeps the stored year, counter and marker, and keeps the invariant |
| `YearWheel.FrameStep` | polaryearplot.py:239-296 | a frame at or past the sample count changes nothing; an earlier frame stores sample t's year and ends the current path with sample t's value |
| `YearWheel.Run` | polaryearplot.py:235-298 | a run over k samples adds exactly k points over current path and background, and leaves the last sample's year stored |
| `YearWheel.Frames` | polaryearplot.py:323-329 | k frames add min(k, n) points over current path and background |
| `YearWheel.Pairs` | polaryearplot.py:258 | pairing two equally long point arrays gives one segment per index, joining the i-th points |
| `YearWheel.Segments` | polaryearplot.py:288 | a path of N ≥ 1 points has N−1 segments, segment i runs from point i to point i+1; an empty path has none |
| `YearWheel.SegmentsJoin` | polaryearplot.py:255-258 | rebuilding the background over the concatenation gives both years' segments plus the joining segment from the last point of one year to the first point of the next |
| `YearWheel.SegmentsExtend` | polaryearplot.py:283-288 | rebuilding the segments from the whole path after appending a point equals the old list with one new segment from the previous last point |
| `YearWheel.ValuesConcat` | polaryearplot.py:259 | the values of a concatenated path are the concatenated values |
| `YearWheel.FirstSample` | polaryearplot.py:247-251 | on the first sample the sentinel differs, the counter is reset to 0, nothing is flushed, the background and its segments stay empty, the current path is the single new point |
| `YearWheel.NewYearFlushes` | polaryearplot.py:247-266 | a sample of a new year with a non-empty current path: background = old background + old current points, background values = old + old current values, background segments rebuilt over the whole background, current path = only the new point placed with counter 0 |
| `YearWheel.SameYearExtends` | polaryearplot.py:271-288 | a sample of the stored year appends exactly one point at the current counter and one value, and leaves the background, its values and segments and the stored year unchanged |
| `YearWheel.DayCounterRule` | polaryearplot.py:274-281 | with counter d in force, an ordinary day is placed at d and the counter becomes d+1; Feb 29 is placed at d−½ and the counter stays d |
| `YearWheel.StepKeepsWellFormed` | polaryearplot.py:259-293 | each data step keeps value arrays equal to the values of the point arrays (so equal lengths), segment lists equal to the segments of the paths, a non-negative counter; adds exactly one point overall, with the sample's value; the marker is the point just appended |
| `YearWheel.RunKeepsWellFormed` | polaryearplot.py:235-298 | the invariant holds after any number of data frames |
| `YearWheel.BackgroundAppendOnly` | polaryearplot.py:251-255 | the background before a run is a prefix of the background after it |
| `YearWheel.RunCons` | polaryearplot.py:235-298 | running a sample and then the rest equals stepping the first sample and running the rest |
| `YearWheel.FramesArePrefixRun` | polaryearplot.py:239-293 | the first k ≤ n frames are the data steps for the first k samples |
| `YearWheel.PauseFramesHold` | polaryearplot.py:294-296 | any number of frames at or past the sample count ends in the state of the last data frame; no accumulator, stored year or counter changes, and the last year is never flushed |
| `YearWheel.InitRestartsOnNewYear` | polaryearplot.py:223-249 | after `init`, a run whose first year differs from the stored year ends exactly as a run from the initial state |
| `YearWheel.InitLeaksCounterAcrossRuns` | polaryearplot.py:223-228 | `init` does not reset the stored year or the counter: re-running the two-day input 2021-01-01, 2021-01-02 places its points at positions 4 and 6 instead of 0 and 2 |
| `YearWheel.RunPrefixStep` | polaryearplot.py:235-298 | the data frames for the first k samples are those for the first k−1 followed by the step for sample k−1 |
| `YearWheel.RunPair` | polaryearplot.py:235-298 | two data frames in a row are two steps, in input order |
| `YearWheel.Restart` | polaryearplot.py:44-49 | the corrected reset empties both paths and restores the sentinel year and counter 0 |
| `YearWheel.RestartMakesRunsRepeatable` | polaryearplot.py:44-49 | after the corrected reset, any non-empty run ends in the same state as a run from the initial state, whatever the previous run left |
| `YearBlocks.BlockStart` | polaryearplot.py:245-249 | the trailing block of samples sharing the last sample's year is maximal and non-empty for non-empty input |
| `YearBlocks.CountDays` | polaryearplot.py:274-281 | the number of non-Feb-29 samples, at most the number of samples |
| `YearBlocks.YearPath` | polaryearplot.py:271-286 | the reference path of a block has one point per sample |
| `YearBlocks.YearPathSnoc` | polaryearplot.py:283-286 | appending a sample to a block appends its point, placed at the count of earlier non-Feb-29 samples |
| `YearBlocks.CountDaysSnoc` | polaryearplot.py:274-281 | appending a sample adds one to the count unless it is Feb 29 |
| `YearBlocks.SameYearKeepsBlocks` | polaryearplot.py:271-288 | a step with a same-year sample keeps the state equal to the block description |
| `YearBlocks.NewYearStartsBlock` | polaryearplot.py:247-288 | a step with a new-year sample keeps the state equal to the block description: the old block joins the background, the new block has one sample |
| `YearBlocks.FirstSampleStartsBlock` | polaryearplot.py:247-251 | after the first data frame the current path is the first sample's one-point block, the counter its count, and the background empty |
| `YearBlocks.StepMatchesBlocks` | polaryearplot.py:247-286 | whichever the year of the next sample, a data step keeps the state equal to the block description |
| `YearBlocks.RunMatchesBlocks` | polaryearplot.py:235-298 | after the data frames, the current path is the last year block's path, the counter is the count of its non-Feb-29 samples, the background is all earlier blocks' paths in order, the stored year is the last sample's |
| `YearBlocks.CompletedValues` | polaryearplot.py:259 | the values along the concatenated block paths are the samples' values in order |
| `YearBlocks.YearPathValues` | polaryearplot.py:272 | the values along a block's path are its samples' values |
| `YearBlocks.SampleValuesSplit` | polaryearplot.py:272 | the sample values split at any index into the values before and after it |
| `YearBlocks.EverySampleOnce` | polaryearplot.py:251-272 | background values followed by current values are exactly the input's values in order; the background has one point per sample before the last year block, the current path one per sample of that block and at least one |
| `YearBlocks.CounterIsNoLeapOrdinal` | polaryearplot.py:274-281 | in a block of consecutive days from Jan 1, the counter in force at each sample is its non-leap day of year |
| `YearBlocks.CalendarPositions` | polaryearplot.py:153-154 | in such a block every day but Feb 29 sits at twice its non-leap day of year, leap year or not: the first of each month is on its month tick and Dec 31 is at 728 half-days; Feb 29 is half a day before Mar 1 |
| `Calendar.IsLeapDay` | polaryearplot.py:275 | the "-02-29" test; a valid date passing it lies in a leap year |
| `Calendar.NextDayOrdinal` | polaryearplot.py:274-281 | inside a year, the next day has the next non-leap ordinal, except after Feb 29, which shares Mar 1's ordinal |
| `Calendar.MonthStart` | polaryearplot.py:153 | days before the first of each month in a non-leap year, the month-tick table; every entry is below 365 |
| `Calendar.MonthStartAccumulates` | polaryearplot.py:153 | each table entry is the previous one plus that month's length in a non-leap year, and December's start plus its 31 days is 365 |
| `Calendar.NoLeapOrdinalRange` | polaryearplot.py:153 | non-leap ordinals lie in 0..364, Feb 29 shares Mar 1's, Dec 31 is 364 |
| `Animation.YearPlot.constructor` | polaryearplot.py:44-49 | the module-level start state: empty accumulators, stored year sentinel, counter 0 |
| `Animation.YearPlot.Init` | polaryearplot.py:216-233 | empties the four point and value accumulators, both lines and the title; stored year, counter and marker unchanged; invariant kept |
| `Animation.YearPlot.Animate` | polaryearplot.py:235-298 | frame t performs the data step for sample t while t < n, otherwise changes nothing; invariant kept; the marker is the point just placed, carrying the sample's value |
| `Animation.YearPlot.DataFrame` | polaryearplot.py:239-293 | performs exactly the model's data step: on a change of year the flush, then the placing of the sample |
| `Animation.YearPlot.StartYear` | polaryearplot.py:247-266 | the new state is the model's change of year: year stored, counter 0, a non-empty current path and its values moved to the end of the background, background segments rebuilt, current line cleared |
| `Animation.YearPlot.MoveToBackground` | polaryearplot.py:252-266 | the background becomes the old background followed by the current path, and likewise for the values; background segments are rebuilt over the whole background; current path, values and line are emptied; year, counter, marker and title unchanged |
| `Animation.YearPlot.Place` | polaryearplot.py:271-293 | the new state is the model's placing of the sample: value and point (Feb 29 half a day earlier) appended, counter advanced except on Feb 29, segments rebuilt, marker and title set |
| `Animation.YearPlot.Extend` | polaryearplot.py:283-288 | the current path becomes the old path followed by the new point, the current line's segments are rebuilt over it, and every other field is unchanged |
| `FrameRate.Contains` | polaryearplot.py:311-314 | Python's `in` on strings; a string containing `sub` is at least as long as `sub` |
| `FrameRate.ContainsAt` | polaryearplot.py:311-314 | a match at any index makes the `in` test true |
| `FrameRate.ContainsWitness` | polaryearplot.py:311-314 | a true `in` test has a match at some index |
| `FrameRate.ContainsIff` | polaryearplot.py:311-314 | the `in` test holds exactly when `sub` starts at some index of the string |
| `FrameRate.Fps` | polaryearplot.py:304-319 | a chosen rate is at least 1; without a target it is 60 |
| `FrameRate.PauseFrames` | polaryearplot.py:321 | the pause lasts 5 seconds at the chosen rate: 5·fps frames, so for fps ≥ 1 the frame count divided by the rate is 5 |
| `FrameRate.WritesAnimation` | polaryearplot.py:333-337 | the animation is saved, so its frames run, exactly when the output path contains ".mp4" or ".gif"; such a path has at least 4 characters |
| `FrameRate.TotalFrames` | polaryearplot.py:327 | for a rate of at least 1, the frames asked for cover every sample plus at least 5 pause frames |
| `FrameRate.TruncDiv` | polaryearplot.py:312 | `int(n/d)`: for positive d the largest q with q·d ≤ n; for negative d a non-positive quotient truncated toward zero |
| `FrameRateProperties.FpsFailsExactly` | polaryearplot.py:307-321 | no rate is produced exactly for ".mp4" with a target equal to the pause (division by zero) and for a target with a name holding neither ".mp4" nor ".gif" (rate unbound) |
| `FrameRateProperties.FpsAtLeastOne` | polaryearplot.py:312-327 | a chosen rate is at least 1, the pause is at least 5 frames, the total is exactly n plus 5·fps |
| `FrameRateProperties.FixedFpsWithoutVideoTarget` | polaryearplot.py:314-319 | without a target, or for ".gif" without ".mp4", the rate is 60 |
| `FrameRateProperties.VideoFpsMeetsTarget` | polaryearplot.py:307-312 | for ".mp4" with T > 5 and n ≥ T−5: fps·(T−5) ≤ n < (fps+1)·(T−5), and the whole animation lasts at least T seconds |
| `FrameRateProperties.VideoFpsFloor` | polaryearplot.py:312 | for ".mp4" with T < 5, or fewer samples than T−5, the rate is 1 |
| `FrameRateProperties.AnimationEndsOnLastSample` | polaryearplot.py:321-337 | when the animation is saved (a ".mp4" or ".gif" name), the frame count exceeds n and running all frames ends in the state of the last data frame |
| `FrameRateExample.SeattleInvocation` | polaryearplot.py:345-349 | the program's own 65-second ".mp4" call gives n div 60 frames per second for n ≥ 60 samples |

## Findings

| source | as written | input that shows it | evidently intended | confidence | as-written member | corrected member |
|---|---|---|---|---|---|---|
| polaryearplot.py:223-228 | `init` empties the point and value arrays but keeps the module-level stored year and day counter, so state leaks from one call of `create_max_temp_graphic` into the next in the same process | two calls in one process on the same input 2021-01-01 = 10.0, 2021-01-02 = 100.0: the second call places the two days at counters 2 and 3 (positions 4 and 6 half-days) instead of 0 and 1 (positions 0 and 2) | every run starts with the sentinel year and counter 0, so re-running an input gives identical frames | medium, not executed | `YearWheel.InitLeaksCounterAcrossRuns` | `YearWheel.RestartMakesRunsRepeatable` |

## Left out

- Loading the CSV file and interpolating missing days (polaryearplot.py:69-77) are file I/O and
  library numerics. The input is a date-ordered sequence of (date, value) samples.
- Plot limits, the figure and its axes, colour maps and normalisation, the centre circle, tick
  lists, month tick labels and annotations (polaryearplot.py:80-213) are rendering calls into a
  library that is not modelled. The month tick table reappears as `Calendar.MonthStart`.
- The float angle `2π·d/365`, or `2π·(d−½)/365` on Feb 29, i.e. `2π·pos/730` (polaryearplot.py:276,
  279), is floating-point arithmetic. Positions are kept exact, in half-days.
- Which colour value matplotlib assigns to which segment is decided by the rendering library. The
  model keeps the per-point value arrays the code hands over.
- Progress bar updates (polaryearplot.py:268-269, 295-296, 331, 341-343), `FuncAnimation`, the
  ffmpeg and gif writers and `savefig` (polaryearplot.py:323-339) are I/O and external tools.
  When the animation is saved, `FuncAnimation` drives frames 0 .. total−1, and `Frames` models
  that.
- The output path without ".mp4" or ".gif" (polaryearplot.py:333-339) is not modelled. With no
  target, such a name still gets a rate of 60, but the animation is never saved, `animate` never
  runs, and the PNG written at line 339 shows whatever the figure held before any frame.
  `AnimationEndsOnLastSample` therefore covers only names for which the animation is written.
- The point arrays are `None` before the first `init` (polaryearplot.py:46-47). They are modelled
  as empty, because the animation calls `init` before any frame.
- The values `init` returns and `animate` returns for blitting (polaryearplot.py:233, 298) only tell
  the renderer which artists to redraw, so they are not modelled.
- `FrameRate.TruncDiv` models `int(n/d)` exactly on integers. It does not model the float rounding
  of `n/d`, which for sample counts far beyond 2^53 could differ.
- `FrameRate.Fps` takes the target duration as an integer, as documented at polaryearplot.py:61. A
  fractional target is not modelled.
- `FrameRate.Fps` takes the joined output path as its argument. Joining the directory and the file
  name (polaryearplot.py:301) is left out.
