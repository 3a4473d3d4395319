/**
 * Network transfer rates: each tick differences the cumulative byte counters
 * against the counters retained from the previous tick, then retains the new
 * ones. The tick period is one second, so a difference is a per-second rate.
 */
module Network {

  /** The cumulative counters reported by the operating system. */
  datatype NetCounters = NetCounters(bytesRecv: int, bytesSent: int)

  /** Bytes received and sent during one tick. */
  datatype Rate = Rate(download: int, upload: int)

  /**
   * The rate between the retained counters and the current ones. No clamping
   * happens: a counter that went backwards gives a negative rate.
   */
  function NetRate(prev: NetCounters, cur: NetCounters): (r: Rate)
    ensures prev.bytesRecv + r.download == cur.bytesRecv
    ensures prev.bytesSent + r.upload == cur.bytesSent
    ensures r == Rate(0, 0) <==> prev == cur
    ensures r.download < 0 <==> cur.bytesRecv < prev.bytesRecv
    ensures r.upload < 0 <==> cur.bytesSent < prev.bytesSent
  {
    Rate(cur.bytesRecv - prev.bytesRecv, cur.bytesSent - prev.bytesSent)
  }

  /**
   * The rates shown by successive ticks that read the counters in `samples`,
   * starting from the retained counters `start`: each tick's rate is taken
   * against the reading of the tick before it, because each tick retains what
   * it read.
   */
  function RatesFrom(start: NetCounters, samples: seq<NetCounters>): (rs: seq<Rate>)
    ensures |rs| == |samples|
    ensures samples != [] ==> rs[0] == NetRate(start, samples[0])
    ensures forall i :: 0 < i < |samples| ==> rs[i] == NetRate(samples[i - 1], samples[i])
    decreases |samples|
  {
    if samples == [] then []
    else
      var rest := RatesFrom(samples[0], samples[1..]);
      [NetRate(start, samples[0])] + rest
  }

  function TotalDownload(rs: seq<Rate>): int
  {
    if rs == [] then 0 else rs[0].download + TotalDownload(rs[1..])
  }

  function TotalUpload(rs: seq<Rate>): int
  {
    if rs == [] then 0 else rs[0].upload + TotalUpload(rs[1..])
  }

  /**
   * Because every tick retains the counters it read, the rates shown over a run
   * account for every byte exactly once: they add up to the growth of the
   * counters between the first retained reading and the last one.
   */
  lemma {:induction false} RatesTelescope(start: NetCounters, samples: seq<NetCounters>)
    requires samples != []
    ensures TotalDownload(RatesFrom(start, samples)) == samples[|samples| - 1].bytesRecv - start.bytesRecv
    ensures TotalUpload(RatesFrom(start, samples)) == samples[|samples| - 1].bytesSent - start.bytesSent
    decreases |samples|
  {
    var rs := RatesFrom(start, samples);
    if |samples| > 1 {
      RatesTelescope(samples[0], samples[1..]);
      assert rs[1..] == RatesFrom(samples[0], samples[1..]);
    }
  }

  /**
   * Counters that stay the same from one tick to the next give a zero rate in
   * both directions on every tick after the first.
   */
  lemma {:induction false} IdleCountersGiveZero(start: NetCounters, samples: seq<NetCounters>)
    requires forall i :: 0 <= i < |samples| ==> samples[i] == samples[0]
    ensures forall i :: 0 < i < |samples| ==> RatesFrom(start, samples)[i] == Rate(0, 0)
    decreases |samples|
  {
    if |samples| > 1 {
      var rest := samples[1..];
      IdleCountersGiveZero(samples[0], rest);
      forall i | 0 < i < |samples|
        ensures RatesFrom(start, samples)[i] == Rate(0, 0)
      {
        assert RatesFrom(start, samples)[i] == RatesFrom(samples[0], rest)[i - 1];
        if i == 1 {
          assert rest[0] == samples[0];
        }
      }
    }
  }

  /** An example: retained (100, 200) and current (150, 250) give (50, 50). */
  lemma NetRateExample()
    ensures NetRate(NetCounters(100, 200), NetCounters(150, 250)) == Rate(50, 50)
  {
  }
}
