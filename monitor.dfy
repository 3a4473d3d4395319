/**
 * The dashboard object: the state it keeps between ticks (the retained network
 * counters, the latency written by the prober, the drive registry) and the
 * widget state that each tick refreshes. Every reading of the operating system
 * is a parameter; widget construction, layout and text rendering are left out.
 */
module Monitor {
  import opened Wrappers
  import opened Severity
  import opened ByteSize
  import opened Network
  import opened Ping
  import opened DriveRegistry

  /** At most this many per-core bars are built, however many cores there are. */
  const MaxCoreWidgets: nat := 32

  /** The number of per-core bars built for a machine with `cpuCount` logical cores. */
  function CoreSlots(cpuCount: nat): (n: nat)
    ensures n <= cpuCount && n <= MaxCoreWidgets
    ensures n == cpuCount || n == MaxCoreWidgets
  {
    if cpuCount < MaxCoreWidgets then cpuCount else MaxCoreWidgets
  }

  /** The readings one tick takes from the operating system. */
  datatype TickSample = TickSample(
    cpu: real,                          // aggregate CPU percent
    cores: seq<real>,                   // per-core percents, one per logical core
    ram: real,                          // physical memory percent used
    swap: real,                         // swap percent used
    partitions: seq<PartitionSample>,   // listed partitions with their usage outcome
    net: NetCounters)                   // cumulative network counters

  class SystemMonitor {
    /** The network counters read by the previous tick (at start-up: by the constructor). */
    var oldNet: NetCounters
    /** The latest value written by the latency prober; -1 means unreachable. */
    var pingLatency: real

    // Widget state. A core bar is `None` while no tick has had a reading for it.
    var cpuGauge: Gauge
    var cpuFree: real
    var coreGauges: seq<Option<Gauge>>
    var ramGauge: Gauge
    var swapGauge: Gauge
    var driveRows: map<string, DriveView>
    var driveOrder: seq<string>
    var downLabel: Option<Scaled>
    var upLabel: Option<Scaled>
    var ping: PingView

    /** The drive registry held by the two drive fields. */
    function Drives(): Registry
      reads this
    {
      Registry(driveRows, driveOrder)
    }

    ghost predicate Valid()
      reads this
    {
      |coreGauges| <= MaxCoreWidgets && WellFormed(Drives())
    }

    /**
     * Builds the dashboard and runs its first refresh before returning: one
     * bar per core up to the cap, an empty drive registry and latency 0 (the
     * prober has not written yet), the counters read at start-up retained,
     * then one tick over `first`.
     */
    constructor (cpuCount: nat, bootCounters: NetCounters, first: TickSample)
      ensures Valid()
      ensures |coreGauges| == CoreSlots(cpuCount)
      ensures forall i :: 0 <= i < |coreGauges| ==>
        coreGauges[i] == if i < |first.cores| then Some(GaugeOf(first.cores[i])) else None
      ensures cpuGauge == GaugeOf(first.cpu) && cpuFree + first.cpu == 100.0
      ensures ramGauge == GaugeOf(first.ram) && swapGauge == GaugeOf(first.swap)
      ensures Drives() == RegisterAll(EmptyRegistry, first.partitions)
      ensures oldNet == first.net && pingLatency == 0.0
      ensures downLabel == SizeOf(NetRate(bootCounters, first.net).download as real)
      ensures upLabel == SizeOf(NetRate(bootCounters, first.net).upload as real)
      ensures ping == PingStatus(0.0) && ping == Online(0.0, Good)
    {
      oldNet := bootCounters;
      pingLatency := 0.0;
      cpuGauge := GaugeOf(0.0);
      cpuFree := 100.0;
      coreGauges := seq(CoreSlots(cpuCount), _ => None);
      ramGauge := GaugeOf(0.0);
      swapGauge := GaugeOf(0.0);
      driveRows := map[];
      driveOrder := [];
      downLabel := Some(Scaled(1, 0.0));
      upLabel := Some(Scaled(1, 0.0));
      ping := Offline;
      new;
      var _ := Tick(first);
    }

    /** The prober's write at the end of one probe cycle. */
    method RecordProbe(elapsedMs: Option<real>)
      modifies this`pingLatency
      ensures pingLatency == ProbeResult(elapsedMs)
      ensures elapsedMs.None? ==> pingLatency == Unreachable
    {
      match elapsedMs
      case Some(ms) => pingLatency := ms;
      case None => pingLatency := Unreachable;
    }

    /** The aggregate CPU bar and the free share shown beside it. */
    method RefreshCpu(cpu: real)
      modifies this`cpuGauge, this`cpuFree
      ensures cpuGauge == GaugeOf(cpu)
      ensures cpuFree + cpu == 100.0
    {
      cpuFree := 100.0 - cpu;
      cpuGauge := GaugeOf(cpu);
    }

    /**
     * The per-core bars: core i is refreshed only when there is a bar for it;
     * readings of cores beyond the last bar are dropped.
     */
    method RefreshCores(cores: seq<real>)
      modifies this`coreGauges
      ensures |coreGauges| == |old(coreGauges)|
      ensures forall i :: 0 <= i < |coreGauges| ==>
        coreGauges[i] == if i < |cores| then Some(GaugeOf(cores[i])) else old(coreGauges)[i]
    {
      var i := 0;
      while i < |cores|
        invariant 0 <= i <= |cores|
        invariant |coreGauges| == |old(coreGauges)|
        invariant forall j :: 0 <= j < |coreGauges| ==>
          coreGauges[j] == if j < i then Some(GaugeOf(cores[j])) else old(coreGauges)[j]
      {
        if i < |coreGauges| {
          coreGauges := coreGauges[i := Some(GaugeOf(cores[i]))];
        }
        i := i + 1;
      }
    }

    /** The RAM and swap bars. */
    method RefreshMemory(ram: real, swap: real)
      modifies this`ramGauge, this`swapGauge
      ensures ramGauge == GaugeOf(ram) && swapGauge == GaugeOf(swap)
    {
      ramGauge := GaugeOf(ram);
      swapGauge := GaugeOf(swap);
    }

    /**
     * The per-partition loop: filtered partitions and failed usage queries are
     * skipped, a row is created for an unseen device, then the device's row is
     * refreshed.
     */
    method RefreshDrives(samples: seq<PartitionSample>)
      modifies this`driveRows, this`driveOrder
      ensures Drives() == RegisterAll(old(Drives()), samples)
    {
      var i := 0;
      while i < |samples|
        invariant 0 <= i <= |samples|
        invariant Drives() == RegisterAll(old(Drives()), samples[..i])
      {
        var s := samples[i];
        if !Skipped(s.part) {
          match s.usage {
            case None =>
            case Some(u) =>
              var name := s.part.device;
              if name !in driveRows {
                driveRows := driveRows[name := BlankView];
                driveOrder := driveOrder + [name];
              }
              driveRows := driveRows[name := Observe(u)];
          }
        }
        assert samples[..i + 1][..i] == samples[..i];
        i := i + 1;
      }
      assert samples[..|samples|] == samples;
    }

    /**
     * The transfer rates of this tick: the counters' growth since the previous
     * tick, formatted for the two labels; the new counters are retained.
     */
    method RefreshNetwork(cur: NetCounters) returns (rate: Rate)
      modifies this`oldNet, this`downLabel, this`upLabel
      ensures rate == NetRate(old(oldNet), cur)
      ensures oldNet == cur
      ensures downLabel == SizeOf(rate.download as real)
      ensures upLabel == SizeOf(rate.upload as real)
    {
      rate := Rate(cur.bytesRecv - oldNet.bytesRecv, cur.bytesSent - oldNet.bytesSent);
      oldNet := cur;
      downLabel := GetSize(rate.download as real);
      upLabel := GetSize(rate.upload as real);
    }

    /** The ping label, from the latency the prober last wrote. */
    method RefreshPing()
      modifies this`ping
      ensures ping == PingStatus(pingLatency)
    {
      if pingLatency == Unreachable {
        ping := Offline;
      } else {
        var band := if pingLatency < FastBelow then Good else Warn;
        ping := Online(pingLatency, band);
      }
    }

    /** One tick of the refresh loop. */
    method Tick(s: TickSample) returns (rate: Rate)
      requires Valid()
      modifies this
      ensures Valid()
      ensures cpuGauge == GaugeOf(s.cpu) && cpuFree + s.cpu == 100.0
      ensures |coreGauges| == |old(coreGauges)|
      ensures forall i :: 0 <= i < |coreGauges| ==>
        coreGauges[i] == if i < |s.cores| then Some(GaugeOf(s.cores[i])) else old(coreGauges)[i]
      ensures ramGauge == GaugeOf(s.ram) && swapGauge == GaugeOf(s.swap)
      ensures Drives() == RegisterAll(old(Drives()), s.partitions)
      ensures rate == NetRate(old(oldNet), s.net) && oldNet == s.net
      ensures downLabel == SizeOf(rate.download as real) && upLabel == SizeOf(rate.upload as real)
      ensures pingLatency == old(pingLatency) && ping == PingStatus(pingLatency)
    {
      RefreshCpu(s.cpu);
      RefreshCores(s.cores);
      RefreshMemory(s.ram, s.swap);
      RefreshDrives(s.partitions);
      RegisterAllWellFormed(old(Drives()), s.partitions);
      rate := RefreshNetwork(s.net);
      RefreshPing();
    }
  }
}
