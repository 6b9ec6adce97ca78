/** Unit selection of PerfTimer::_converter: a duration in nanoseconds is put in
    one of six brackets (ns, µs, ms, s, mins, hrs) by fixed thresholds whose
    upper bounds are inclusive, and scaled to that bracket's unit. */
module TimeUnits {

  datatype Unit = Ns | Us | Ms | Sec | Mins | Hrs

  /** The label the source writes after a scaled value. */
  function Label(u: Unit): string
  {
    match u
    case Ns => "ns"
    case Us => "\U{00B5}s"
    case Ms => "ms"
    case Sec => "s"
    case Mins => "mins"
    case Hrs => "hrs"
  }

  /** Different units are written differently, so the text after a number
      tells which bracket it came from. */
  lemma LabelDistinct(u: Unit, v: Unit)
    ensures Label(u) == Label(v) <==> u == v
  {
  }

  /** Position of a unit on the ladder, from 0 (ns) to 5 (hrs). */
  function Rank(u: Unit): (k: nat)
    ensures k < 6
  {
    match u
    case Ns => 0
    case Us => 1
    case Ms => 2
    case Sec => 3
    case Mins => 4
    case Hrs => 5
  }

  /** Inclusive upper bounds, in nanoseconds, of the brackets of ranks 0 to 4;
      the bracket of rank 5 (hours) has no upper bound. */
  const Bounds: seq<real> := [1000.0, 1000000.0, 1000000000.0, 600000000000.0, 10800000000000.0]

  /** The factor that turns nanoseconds into the unit. */
  function Factor(u: Unit): real
  {
    match u
    case Ns => 1.0
    case Us => 0.001
    case Ms => 0.000001
    case Sec => 0.000000001
    case Mins => 0.000000001 / 60.0
    case Hrs => 0.000000001 / 3600.0
  }

  /** `t` lies in the bracket of `u`: above the bound of the rank below, and at
      most the bound of its own rank. */
  predicate InBracket(t: real, u: Unit)
  {
    && (Rank(u) == 0 || Bounds[Rank(u) - 1] < t)
    && (Rank(u) == 5 || t <= Bounds[Rank(u)])
  }

  /** The bracket of the square root of `v` (for `v >= 0`), decided on `v` itself
      by comparing it with the squared bounds. */
  predicate InRootBracket(v: real, u: Unit)
  {
    && (Rank(u) == 0 || Bounds[Rank(u) - 1] * Bounds[Rank(u) - 1] < v)
    && (Rank(u) == 5 || v <= Bounds[Rank(u)] * Bounds[Rank(u)])
  }

  /** PerfTimer::_converter: `time` is rewritten to the scaled value and `unit`
      is set to the bracket's unit. */
  method Converter(time: real) returns (scaled: real, unit: Unit)
    ensures InBracket(time, unit)
    ensures scaled == time * Factor(unit)
  {
    if time <= 1000.0 {
      scaled, unit := time, Ns;
    } else if time <= 1000000.0 {
      scaled, unit := time * 0.001, Us;
    } else if time <= 1000000000.0 {
      scaled, unit := time * 0.000001, Ms;
    } else if time <= 600000000000.0 {
      scaled, unit := time * 0.000000001, Sec;
    } else if time <= 10800000000000.0 {
      scaled, unit := time * (0.000000001 / 60.0), Mins;
    } else {
      scaled, unit := time * (0.000000001 / 3600.0), Hrs;
    }
  }

  /** PerfTimer::_converter applied to a standard deviation `sqrt(variance)`,
      computed from the variance: the unit is that of the root, and the scaled
      value is returned squared. */
  method ConverterOfRoot(variance: real) returns (scaledSquare: real, unit: Unit)
    ensures InRootBracket(variance, unit)
    ensures scaledSquare == variance * Factor(unit) * Factor(unit)
  {
    if variance <= Bounds[0] * Bounds[0] {
      unit := Ns;
    } else if variance <= Bounds[1] * Bounds[1] {
      unit := Us;
    } else if variance <= Bounds[2] * Bounds[2] {
      unit := Ms;
    } else if variance <= Bounds[3] * Bounds[3] {
      unit := Sec;
    } else if variance <= Bounds[4] * Bounds[4] {
      unit := Mins;
    } else {
      unit := Hrs;
    }
    scaledSquare := variance * Factor(unit) * Factor(unit);
  }

  /** The unit of a rank. */
  function UnitOfRank(k: nat): (u: Unit)
    requires k < 6
    ensures Rank(u) == k
  {
    [Ns, Us, Ms, Sec, Mins, Hrs][k]
  }

  /** The brackets cover the whole number line: climbing the table of bounds
      stops at the first bound that is not below `t`, or past the last one. */
  lemma BracketExists(t: real) returns (u: Unit)
    ensures InBracket(t, u)
  {
    var k := 0;
    while k < 5 && Bounds[k] < t
      invariant 0 <= k <= 5
      invariant k == 0 || Bounds[k - 1] < t
    {
      k := k + 1;
    }
    u := UnitOfRank(k);
  }

  /** The brackets do not overlap: a duration has exactly one unit. */
  lemma BracketUnique(t: real, u: Unit, v: Unit)
    requires InBracket(t, u) && InBracket(t, v)
    ensures u == v
  {
  }

  /** Adding a positive amount to a non-negative number grows its square. */
  lemma SquareGrows(a: real, d: real)
    requires 0.0 <= a && 0.0 < d
    ensures a * a < (a + d) * (a + d)
  {
    assert (a + d) * (a + d) == a * a + 2.0 * a * d + d * d;
    assert 0.0 <= a * d;
    assert 0.0 < d * d;
  }

  /** Squaring is strictly monotone on the non-negative reals. */
  lemma SquareMonotone(a: real, b: real)
    requires 0.0 <= a && 0.0 <= b
    ensures a < b <==> a * a < b * b
    ensures a <= b <==> a * a <= b * b
  {
    if a < b {
      SquareGrows(a, b - a);
    } else if b < a {
      SquareGrows(b, a - b);
    }
  }

  /** For a non-negative root, the squared-bound test picks the same unit as
      the converter would on the root itself. */
  lemma RootBracket(sd: real, u: Unit)
    requires 0.0 <= sd
    ensures InRootBracket(sd * sd, u) <==> InBracket(sd, u)
  {
    if Rank(u) != 0 {
      SquareMonotone(Bounds[Rank(u) - 1], sd);
    }
    if Rank(u) != 5 {
      SquareMonotone(sd, Bounds[Rank(u)]);
    }
  }

  /** A positive duration, once scaled, reads as a number of its unit of a
      human-sized magnitude: at most 1000 ns, µs or ms, more than one µs, ms or
      s, at most 600 s, between 10 and 180 minutes, or more than 3 hours. */
  lemma ScaledReadable(t: real, u: Unit)
    requires 0.0 < t && InBracket(t, u)
    ensures 0.0 < t * Factor(u)
    ensures u in {Ns, Us, Ms} ==> t * Factor(u) <= 1000.0
    ensures u in {Us, Ms, Sec} ==> 1.0 < t * Factor(u)
    ensures u == Sec ==> t * Factor(u) <= 600.0
    ensures u == Mins ==> 10.0 < t * Factor(u) <= 180.0
    ensures u == Hrs ==> 3.0 < t * Factor(u)
  {
  }
}
