# PerfTimer and InputParser, modelled in Dafny

This project models two small C++ utility classes and proves properties about them.

**`PerfTimer`** is an interval timer. Each `startTimer`/`stopTimer` pair appends one nanosecond sample to `_timeDiff`. `reportStats` reports statistics over the samples:

- the number of trials;
- the total;
- the average;
- the population standard deviation;
- the fastest and slowest runs.

Each of the five timing statistics is scaled to its own unit by `_converter`, and the unit's text ("ns", "µs", "ms", "s", "mins" or "hrs") is written after the number. `saveTimingData` writes the same report, then a line with the raw samples separated by commas.

**`InputParser`** stores the command-line tokens after the program name. It answers two questions:

- whether a flag is present;
- which token follows the flag's first occurrence.

The second query fails in two ways: the flag is missing, or its first occurrence is the last token. A later occurrence is never looked at.

Files and modules:

- `time_units.dfy` (`TimeUnits`): the bracket table of `_converter` and the converter itself.
- `timing_stats.dfy` (`TimingStats`): total, mean, population variance, minimum and maximum over integer samples, with lemmas about them.
- `data_line.dfy` (`DataLine`): the comma-joined data line, and the split/parse functions that read it back.
- `perf_timer.dfy` (`Timing`): the `PerfTimer` class as written. It also holds a corrected `GuardedTimer` (see Findings) and client methods that drive both timers.
- `arg_parser.dfy` (`ArgParser`): the `InputParser` class and `std::find`.

Modelling choices:

- **Clock.** The clock is a parameter. `StartTimer(now)` and `StopTimer(now)` take the clock reading in nanoseconds.
- **Samples.** A sample is an `int`. The source converts an integer nanosecond count to `double`.
- **Initial start time.** `_startTime` is never set before the first `startTimer`. It then holds the clock's epoch, which the model writes as 0.
- **Statistics.** Statistics are exact `real`s.
- **Standard deviation.** It is carried as its square, the variance. `ConverterOfRoot` chooses the unit of `sqrt(variance)` by comparing the variance with the squared thresholds. `RootBracket` proves that this picks the same unit `_converter` would pick for the root.

The model follows the code as written:

- A second `startTimer` restarts the interval. The doc comment at PerfTimer.h:56-60 says such a start does nothing (see Findings).
- `stopTimer` has no guard. A stop on a fresh timer measures from the epoch.
- Statistics and export on an empty timer are undefined behaviour in the code: a division by zero, a dereference of the end iterator, and `_timeDiff[0]`. So a non-empty timer is a precondition.

## Model

| member | source | states |
|---|---|---|
| TimeUnits.Converter | Templates/Cpp-Templates/PerfTimer.h:239-277 | The chosen unit is the bracket that contains `time`, with inclusive upper bounds 1e3, 1e6, 1e9, 6e11 and 1.08e13 ns. The value is scaled by that unit's factor: 1, 1e-3, 1e-6, 1e-9, 1e-9/60 or 1e-9/3600. |
| TimeUnits.BracketExists | Templates/Cpp-Templates/PerfTimer.h:241-275 | Every duration falls in some bracket. |
| TimeUnits.BracketUnique | Templates/Cpp-Templates/PerfTimer.h:241-275 | No duration falls in two brackets. Together with BracketExists, the six brackets partition the number line. |
| TimeUnits.LabelDistinct | Templates/Cpp-Templates/PerfTimer.h:244-274 | The six unit texts are pairwise different, so the text written after a number identifies its bracket. |
| TimeUnits.ScaledReadable | Templates/Cpp-Templates/PerfTimer.h:241-275 | A positive duration scales to a human-sized number of its unit: at most 1000 ns, µs or ms; more than 1 µs, ms or s; at most 600 s; 10 to 180 minutes; or more than 3 hours. |
| TimeUnits.ConverterOfRoot | Templates/Cpp-Templates/PerfTimer.h:183 | The conversion of the standard deviation, computed from the variance. The unit satisfies the squared-threshold test, and the returned value is the square of the scaled deviation. |
| TimeUnits.RootBracket | Templates/Cpp-Templates/PerfTimer.h:183 | For a non-negative root, the squared-threshold test holds exactly when the root lies in the bracket. So the unit is the one `_converter` chooses for the standard deviation. |
| TimingStats.Min | Templates/Cpp-Templates/PerfTimer.h:175-176 | The fastest run is one of the samples, and no sample is smaller. |
| TimingStats.Max | Templates/Cpp-Templates/PerfTimer.h:175-177 | The slowest run is one of the samples, and no sample is larger. |
| TimingStats.Sum | Templates/Cpp-Templates/PerfTimer.h:172 | The total time, a left fold of the samples from 0. Non-negative samples give a non-negative total. |
| TimingStats.Mean | Templates/Cpp-Templates/PerfTimer.h:173 | The average time, the total divided by the count: the average taken once per sample adds up to the total. |
| TimingStats.SumAppend | Templates/Cpp-Templates/PerfTimer.h:172 | The total of concatenated sample runs is the sum of their totals. |
| TimingStats.SumBounded | Templates/Cpp-Templates/PerfTimer.h:172 | If every sample lies in [lo, hi], the total lies between count·lo and count·hi. |
| TimingStats.MeanBetweenMinAndMax | Templates/Cpp-Templates/PerfTimer.h:172-177 | The average (total divided by count) lies between the fastest and the slowest run. |
| TimingStats.Variance | Templates/Cpp-Templates/PerfTimer.h:282-291 | `_standardDeviation` squared: the squared deviations from the mean divided by the count (not count − 1). It is never negative, so the `sqrt` at line 291 is defined. |
| TimingStats.VarianceOfConstant | Templates/Cpp-Templates/PerfTimer.h:282-291 | Identical runs average to their common value and have zero variance. |
| TimingStats.ExampleStatistics | Templates/Cpp-Templates/PerfTimer.h:282-291 | For [100, 200, 300] ns: total 600, mean 200, min 100, max 300. The variance is 20000/3, the population divisor; dividing by n−1 would give 10000. |
| DataLine.RenderParse | Templates/Cpp-Templates/PerfTimer.h:219-224 | A rendered sample is non-empty, contains no comma, and parses back to the sample. |
| DataLine.SplitExtendLast | Templates/Cpp-Templates/PerfTimer.h:219-224 | Comma-free text written after a line only lengthens the line's last field; the earlier fields are unchanged. |
| DataLine.SplitJoin | Templates/Cpp-Templates/PerfTimer.h:219-227 | Splitting a comma-joined line of comma-free items on "," gives back the items, in order. |
| DataLine.JoinEnds | Templates/Cpp-Templates/PerfTimer.h:219-227 | The joined line begins with the first item's first character and ends with the last item's last character. |
| DataLine.DataLineRoundTrip | Templates/Cpp-Templates/PerfTimer.h:219-227 | The data line parses back to exactly the recorded samples, in order. It has no leading or trailing comma. |
| Timing.PerfTimer.constructor | Templates/Cpp-Templates/PerfTimer.h:135-139 | A new timer has the given name and no samples. `_activeTimer` is false and the start time is the epoch. |
| Timing.PerfTimer.StartTimer | Templates/Cpp-Templates/PerfTimer.h:143-154 | In every reachable state the flag is false, so the "already active" branch is dead. The start time is always overwritten with `now`, and the samples are unchanged. |
| Timing.PerfTimer.StopTimer | Templates/Cpp-Templates/PerfTimer.h:158-165 | Appends exactly one sample, `now` minus the start time, at the end; earlier samples are unchanged. Leaves the flag false. |
| Timing.Describe | Templates/Cpp-Templates/PerfTimer.h:180-185 | A statistic labelled and converted to the unit of its own bracket, followed by that unit's text. |
| Timing.DescribeRoot | Templates/Cpp-Templates/PerfTimer.h:183 | The standard deviation labelled and converted to the unit of its root's bracket. |
| Timing.PerfTimer.ReportStats | Templates/Cpp-Templates/PerfTimer.h:169-193 | For a non-empty timer, the report holds the header "Timer name: " + name and the trial count. Then come total, average, standard deviation, fastest and slowest, in that order, each with its fixed label and its own independently chosen unit. |
| Timing.PerfTimer.SaveTimingData | Templates/Cpp-Templates/PerfTimer.h:198-231 | For a non-empty timer, writes the same report as ReportStats, then the samples joined by "," in recorded order. The data line reads back to the samples and has no leading or trailing comma. |
| Timing.JoinRenderStep | Templates/Cpp-Templates/PerfTimer.h:219-224 | Each loop iteration extends the data line of the first i samples by a comma and sample i, which is what the line of the first i+1 samples is. |
| Timing.StopAddsToTotal | Templates/Cpp-Templates/PerfTimer.h:158-165 | A stop adds exactly one sample. It raises the reported total by the interval just measured, and the slowest run is then at least that interval. |
| Timing.RecordRuns | Templates/Cpp-Templates/PerfTimer.h:143-165 | After n start/stop pairs, a fresh timer holds exactly n samples. Sample i is stop i minus start i. |
| Timing.RestartAsWritten | Templates/Cpp-Templates/PerfTimer.h:143-154 | Start at t0, start again at t1, stop at t2: the sample is t2 − t1, not t2 − t0. |
| Timing.GuardedTimer.constructor | Templates/Cpp-Templates/PerfTimer.h:135-139 | The corrected timer starts inactive and has no samples. |
| Timing.GuardedTimer.StartTimer | Templates/Cpp-Templates/PerfTimer.h:56-60 | The corrected start. If the timer is active, the start time is kept; otherwise it is set to `now`. Either way the timer is active afterwards. |
| Timing.GuardedTimer.StopTimer | Templates/Cpp-Templates/PerfTimer.h:158-165 | Appends one sample measured from the kept start, and deactivates the timer. |
| Timing.RestartIntended | Templates/Cpp-Templates/PerfTimer.h:56-60 | On the corrected timer, the same calls give the sample t2 − t0, measured from the first start. |
| ArgParser.Find | Templates/Cpp-Templates/cppArgParser.h:68 | `std::find` returns the index of the first token equal to the option, or the token count when there is none. |
| ArgParser.InputParser.constructor | Templates/Cpp-Templates/cppArgParser.h:81-85 | The tokens are argv[1..argc), in order: the program name is dropped and there are argc − 1 tokens. |
| ArgParser.InputParser.CmdOptionExists | Templates/Cpp-Templates/cppArgParser.h:66-70 | True if and only if the option occurs among the tokens. |
| ArgParser.InputParser.GetCmdOption | Templates/Cpp-Templates/cppArgParser.h:34-54 | "Not found", with its message, exactly when the option is absent. Otherwise, at the option's first occurrence i, the result is token i+1 when one exists, whatever it is, and "empty argument" with its message when i is the last index. |
| ArgParser.OnlyPrefixMatters | Templates/Cpp-Templates/cppArgParser.h:43-47 | The result depends only on the tokens up to one past the first occurrence. Later tokens, including later occurrences of the flag, are never examined. |
| ArgParser.FollowerMayBeAFlag | Templates/Cpp-Templates/cppArgParser.h:43-53 | Over the tokens `-a -b`: `-a` yields `-b` even though it is a flag, `-b` (the last token) fails with "empty argument", and `-c` fails with "not found". |

## Left out

- Templates/Cpp-Templates/PersistentCommunicator.h is not part of this model. It passes requests through to MPI's persistent send/receive calls, which the model cannot see.
- Reading `high_resolution_clock::now()` is replaced by the `now` parameter. Samples are not assumed non-negative, because that clock need not be steady.
- Console and file I/O is left out:
  - opening the file and reporting `errno`/`strerror`;
  - the "yes I'm open" print;
  - the diagnostic of the dead "already active" branch;
  - `std::endl`;
  - writing to a stream that failed to open.

  The report is a structured value, and the data line is the string the loop builds.
- The `std::ostream` formatting of doubles and `std::sqrt` are not modelled. The standard deviation is kept as its square (`RootOf`).
- Double arithmetic is not modelled. Totals, means, variances and scale factors are exact reals, so rounding of `1.E-3` and similar factors is ignored.
- Timing.PerfTimer.SaveTimingData: renders each sample as its exact decimal integer. The stream's default precision of six significant digits is not modelled, and it would print samples of 1e6 ns or more rounded, in exponent form. So the round trip is proved for exact rendering only.
- TimingStats.VarianceOfConstant: proves only that identical runs have zero variance. The converse, that zero variance means identical runs, is not proved.
- ArgParser.InputParser.constructor: `argc` is the length of the `argv` sequence. The `char**` pointer handling is not modelled.
- Concurrency is left out: the classes are used from one thread.

## Findings

| source | as written | input that shows it | evidently intended | confidence | as-written member | corrected member |
|---|---|---|---|---|---|---|
| Templates/Cpp-Templates/PerfTimer.h:143-154 | `startTimer` never sets `_activeTimer` to true. The "already active" check is dead, and a second start overwrites `_startTime`. | start at 0, start at 5, stop at 12: the recorded sample is 7 | The doc comment at lines 58-59 says a start on an active timer does nothing, so the sample would be 12 | high; not executed | Timing.RestartAsWritten | Timing.RestartIntended |
