/**
 * The latency indicator: how the sampler renders the value that the
 * background prober last wrote into the shared latency field.
 */
module Ping {
  import opened Severity
  import opened Wrappers

  /** The value the prober writes when the connection fails or times out. */
  const Unreachable: real := -1.0
  /** Latencies strictly below this (in milliseconds) are shown in green. */
  const FastBelow: real := 100.0

  /** The ping label: the offline text, or a millisecond value with its colour. */
  datatype PingView = Offline | Online(ms: real, band: Band)

  /** The colour of the ping label; the offline text is shown in red. */
  function PingBand(v: PingView): Band
  {
    match v
    case Offline => Crit
    case Online(_, b) => b
  }

  /** The ping rule of one tick, applied to the shared latency value. */
  function PingStatus(latency: real): (v: PingView)
    ensures v.Offline? <==> latency == Unreachable
    ensures v.Online? ==> v.ms == latency
    ensures v.Online? ==> (v.band == Good <==> latency < FastBelow)
    ensures v.Online? ==> (v.band == Warn <==> FastBelow <= latency)
  {
    if latency == Unreachable then Offline
    else Online(latency, if latency < FastBelow then Good else Warn)
  }

  /** The three outcomes of the ping rule, each in both directions. */
  lemma PingBandCases(latency: real)
    ensures PingBand(PingStatus(latency)) == Crit <==> latency == Unreachable
    ensures PingBand(PingStatus(latency)) == Good <==> latency != Unreachable && latency < FastBelow
    ensures PingBand(PingStatus(latency)) == Warn <==> FastBelow <= latency
  {
  }

  /**
   * The prober's write of one cycle: the measured round trip in milliseconds
   * when the connection succeeded, the sentinel otherwise.
   */
  function ProbeResult(elapsedMs: Option<real>): (latency: real)
    ensures elapsedMs.None? ==> latency == Unreachable
    ensures elapsedMs.Some? ==> latency == elapsedMs.value
  {
    match elapsedMs
    case None => Unreachable
    case Some(ms) => ms
  }

  /** A failed probe is always rendered as the offline state, never as a number. */
  lemma FailedProbeShowsOffline()
    ensures PingStatus(ProbeResult(None)) == Offline
  {
  }
}
