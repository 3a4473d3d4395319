/**
 * Severity bands for percentage readings (CPU, each core, RAM, swap and each
 * drive): the three progress-bar colours of the dashboard.
 */
module Severity {

  /** The three colours a usage bar can take: green, orange and red. */
  datatype Band = Good | Warn | Crit

  /** Readings strictly below this are `Good`. */
  const WarnFrom: real := 50.0
  /** Readings at or above this are `Crit`. */
  const CritFrom: real := 80.0

  /** How severe a band is: `Good` < `Warn` < `Crit`. */
  function Rank(b: Band): nat
  {
    match b
    case Good => 0
    case Warn => 1
    case Crit => 2
  }

  /** The colour rule applied to every usage percentage. */
  function ColorByUsage(percent: real): (b: Band)
    ensures b == Good <==> percent < WarnFrom
    ensures b == Warn <==> WarnFrom <= percent < CritFrom
    ensures b == Crit <==> CritFrom <= percent
  {
    if percent < WarnFrom then Good
    else if percent < CritFrom then Warn
    else Crit
  }

  /** A higher reading never gets a less severe colour. */
  lemma ColorByUsageMonotone(p: real, q: real)
    requires p <= q
    ensures Rank(ColorByUsage(p)) <= Rank(ColorByUsage(q))
  {
  }

  /** The documented boundary readings land on the documented side. */
  lemma ColorByUsageBoundaries()
    ensures ColorByUsage(0.0) == Good && ColorByUsage(49.9) == Good
    ensures ColorByUsage(50.0) == Warn && ColorByUsage(79.9) == Warn
    ensures ColorByUsage(80.0) == Crit && ColorByUsage(100.0) == Crit
  {
  }

  /**
   * What one progress bar shows: the fill fraction handed to `set`
   * (the percentage divided by 100) and its colour.
   */
  datatype Gauge = Gauge(fill: real, band: Band)

  /** The widget state for a percentage reading: the fill and the colour rule's band. */
  function GaugeOf(percent: real): (g: Gauge)
    ensures 100.0 * g.fill == percent
    ensures g.band == ColorByUsage(percent)
  {
    Gauge(percent / 100.0, ColorByUsage(percent))
  }
}
