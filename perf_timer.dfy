/** PerfTimer: an interval timer that records one sample per start/stop pair
    and reports statistics over them. The clock is a parameter: `now` is the
    reading, in nanoseconds, of the clock at the moment of the call. */
module Timing {
  import opened TimeUnits
  import opened TimingStats
  import opened DataLine

  /** A reported number: the value itself, or (for the standard deviation)
      the square root of `square`, which the model keeps unrooted. */
  datatype Amount = Exact(value: real) | RootOf(square: real)

  /** One labelled statistic with the unit chosen for it alone and the text
      written after the number for that unit. */
  datatype Field = Field(title: string, amount: Amount, unit: Unit, suffix: string)

  /** What PerfTimer::reportStats writes: the header line naming the timer,
      the number of trials and five labelled statistics. */
  datatype Report = Report(header: string, trials: nat, fields: seq<Field>)

  /** `f` reports the nanosecond quantity `x` under `title`, converted to the
      unit of the bracket `x` falls in. */
  predicate Shows(f: Field, title: string, x: real)
  {
    && f.title == title && InBracket(x, f.unit) && f.suffix == Label(f.unit)
    && f.amount == Exact(x * Factor(f.unit))
  }

  /** `f` reports the square root of the nanosecond² quantity `v` under
      `title`, in the unit of the bracket that root falls in. */
  predicate ShowsRoot(f: Field, title: string, v: real)
  {
    && f.title == title && InRootBracket(v, f.unit) && f.suffix == Label(f.unit)
    && f.amount == RootOf(v * Factor(f.unit) * Factor(f.unit))
  }

  /** `r` is the report of the timer `name` over `samples`: total, average,
      standard deviation, fastest and slowest run, in that order. */
  predicate IsReportOf(r: Report, name: string, samples: seq<int>)
    requires |samples| > 0
  {
    && r.header == "Timer name: " + name
    && r.trials == |samples|
    && |r.fields| == 5
    && Shows(r.fields[0], "Total time", Sum(samples) as real)
    && Shows(r.fields[1], "Average Time", Mean(samples))
    && ShowsRoot(r.fields[2], "Standard Deviation", Variance(samples))
    && Shows(r.fields[3], "Fastest Run", Min(samples) as real)
    && Shows(r.fields[4], "Slowest Run", Max(samples) as real)
  }

  /** One statistic converted by PerfTimer::_converter and labelled. */
  method Describe(title: string, x: real) returns (f: Field)
    ensures Shows(f, title, x)
  {
    var scaled, unit := Converter(x);
    f := Field(title, Exact(scaled), unit, Label(unit));
  }

  /** The standard deviation `sqrt(variance)` converted and labelled. */
  method DescribeRoot(title: string, variance: real) returns (f: Field)
    ensures ShowsRoot(f, title, variance)
  {
    var scaledSquare, unit := ConverterOfRoot(variance);
    f := Field(title, RootOf(scaledSquare), unit, Label(unit));
  }

  /** The timer as the source writes it. `activeTimer` starts false and no
      method ever sets it, so it is false in every reachable state. */
  class PerfTimer {
    var startTime: int
    var timeDiff: seq<int>
    var activeTimer: bool
    const name: string

    ghost predicate Valid()
      reads this
    {
      !activeTimer
    }

    /** The start time is the clock's epoch until the first start. */
    constructor (name: string)
      ensures Valid()
      ensures this.name == name && timeDiff == [] && startTime == 0
    {
      this.name := name;
      startTime := 0;
      timeDiff := [];
      activeTimer := false;
    }

    /** The "already active" branch cannot be taken: every start overwrites
        the start time. */
    method StartTimer(now: int)
      requires Valid()
      modifies this
      ensures Valid()
      ensures startTime == now && timeDiff == old(timeDiff)
    {
      if activeTimer {
        assert false;
      } else {
        startTime := now;
      }
    }

    /** Appends one sample, the time since the last start (since the epoch
        on a timer never started), and clears the flag; earlier samples are
        untouched. */
    method StopTimer(now: int)
      modifies this
      ensures Valid()
      ensures timeDiff == old(timeDiff) + [now - old(startTime)]
      ensures startTime == old(startTime)
    {
      var diff := now - startTime;
      timeDiff := timeDiff + [diff];
      activeTimer := false;
    }

    /** The statistics part of PerfTimer::reportStats. */
    method ReportStats() returns (report: Report)
      requires |timeDiff| > 0
      ensures IsReportOf(report, name, timeDiff)
    {
      var total := Describe("Total time", Sum(timeDiff) as real);
      var average := Describe("Average Time", Mean(timeDiff));
      var stdDev := DescribeRoot("Standard Deviation", Variance(timeDiff));
      var fastest := Describe("Fastest Run", Min(timeDiff) as real);
      var slowest := Describe("Slowest Run", Max(timeDiff) as real);
      report := Report("Timer name: " + name, |timeDiff|, [total, average, stdDev, fastest, slowest]);
    }

    /** PerfTimer::saveTimingData: the report, then the samples on one line,
        comma-separated. The first sample is read before any size check, so a
        timer without samples is outside the operation's domain. */
    method SaveTimingData() returns (report: Report, dataLine: string)
      requires |timeDiff| > 0
      ensures IsReportOf(report, name, timeDiff)
      ensures dataLine == Join(RenderAll(timeDiff))
      ensures ParseDataLine(dataLine) == timeDiff
      ensures dataLine[0] != ',' && dataLine[|dataLine| - 1] != ','
    {
      report := ReportStats();
      dataLine := Render(timeDiff[0]);
      for i := 1 to |timeDiff|
        invariant dataLine == Join(RenderAll(timeDiff[..i]))
      {
        JoinRenderStep(timeDiff, i);
        dataLine := dataLine + "," + Render(timeDiff[i]);
      }
      assert timeDiff[..|timeDiff|] == timeDiff;
      DataLineRoundTrip(timeDiff);
    }
  }

  /** The timer as its documentation describes it: a start while the timer is
      active is ignored, so the interval runs from the first start. */
  class GuardedTimer {
    var startTime: int
    var timeDiff: seq<int>
    var activeTimer: bool
    const name: string

    constructor (name: string)
      ensures this.name == name && timeDiff == [] && startTime == 0 && !activeTimer
    {
      this.name := name;
      startTime := 0;
      timeDiff := [];
      activeTimer := false;
    }

    method StartTimer(now: int)
      modifies this
      ensures activeTimer && timeDiff == old(timeDiff)
      ensures startTime == if old(activeTimer) then old(startTime) else now
    {
      if !activeTimer {
        startTime := now;
        activeTimer := true;
      }
    }

    method StopTimer(now: int)
      modifies this
      ensures !activeTimer
      ensures timeDiff == old(timeDiff) + [now - old(startTime)]
      ensures startTime == old(startTime)
    {
      var diff := now - startTime;
      timeDiff := timeDiff + [diff];
      activeTimer := false;
    }
  }

  /** Two starts at `t0` and `t1`, then a stop at `t2`, on the timer as
      written: the sample is measured from the second start. */
  method RestartAsWritten(t0: int, t1: int, t2: int) returns (sample: int)
    ensures sample == t2 - t1
    ensures t0 != t1 ==> sample != t2 - t0
  {
    var timer := new PerfTimer("restart");
    timer.StartTimer(t0);
    timer.StartTimer(t1);
    timer.StopTimer(t2);
    sample := timer.timeDiff[0];
  }

  /** The same calls on the guarded timer: the sample is measured from the
      first start, as the documentation of startTimer promises. */
  method RestartIntended(t0: int, t1: int, t2: int) returns (sample: int)
    ensures sample == t2 - t0
  {
    var timer := new GuardedTimer("restart");
    timer.StartTimer(t0);
    timer.StartTimer(t1);
    timer.StopTimer(t2);
    sample := timer.timeDiff[0];
  }

  /** Every stop adds one sample, so after `n` stops a fresh timer holds `n`
      samples, each the time between that stop and the start before it. */
  method RecordRuns(name: string, starts: seq<int>, stops: seq<int>) returns (samples: seq<int>)
    requires |starts| == |stops|
    ensures |samples| == |stops|
    ensures forall i :: 0 <= i < |stops| ==> samples[i] == stops[i] - starts[i]
  {
    var timer := new PerfTimer(name);
    for i := 0 to |stops|
      invariant timer.Valid()
      invariant |timer.timeDiff| == i
      invariant forall j :: 0 <= j < i ==> timer.timeDiff[j] == stops[j] - starts[j]
    {
      timer.StartTimer(starts[i]);
      timer.StopTimer(stops[i]);
    }
    samples := timer.timeDiff;
  }

  /** One more sample adds a comma and that sample to the data line. */
  lemma JoinRenderStep(s: seq<int>, i: int)
    requires 0 < i < |s|
    ensures Join(RenderAll(s[..i + 1])) == Join(RenderAll(s[..i])) + "," + Render(s[i])
  {
    assert RenderAll(s[..i + 1])[..i] == RenderAll(s[..i]);
  }

  /** Stopping a timer raises its reported total by exactly the interval just
      measured, and the slowest run is at least that interval. */
  method StopAddsToTotal(timer: PerfTimer, now: int)
    modifies timer
    ensures |timer.timeDiff| == |old(timer.timeDiff)| + 1
    ensures Sum(timer.timeDiff) == Sum(old(timer.timeDiff)) + (now - old(timer.startTime))
    ensures now - old(timer.startTime) <= Max(timer.timeDiff)
  {
    timer.StopTimer(now);
    assert timer.timeDiff[|timer.timeDiff| - 1] == now - old(timer.startTime);
  }
}
