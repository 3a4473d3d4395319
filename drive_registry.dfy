/**
 * The drive registry: the dashboard's map from device name to the widget row
 * that shows that drive. Rows are created lazily the first time a device is
 * seen, refreshed on every later tick, and never removed.
 */
module DriveRegistry {
  import opened Wrappers
  import opened Severity

  /** One mounted partition as listed by the operating system. */
  datatype Partition = Partition(device: string, mountpoint: string, fstype: string, opts: string)

  /** Space usage of a mounted filesystem. */
  datatype DiskUsage = DiskUsage(total: int, used: int, percent: real)

  /**
   * A listed partition and the outcome of querying its usage; `None` stands
   * for a query that raised (a drive removed mid-scan, permission denied).
   */
  datatype PartitionSample = PartitionSample(part: Partition, usage: Option<DiskUsage>)

  /** What one drive row shows: its usage bar and the used/total figures. */
  datatype DriveView = DriveView(gauge: Gauge, used: int, total: int)

  /** A freshly created row, before its first refresh. */
  const BlankView: DriveView := DriveView(Gauge(0.0, Good), 0, 0)

  /** The registry: rows by device name, and device names in the order their rows were created. */
  datatype Registry = Registry(rows: map<string, DriveView>, order: seq<string>)

  /** The empty registry the dashboard starts with. */
  const EmptyRegistry: Registry := Registry(map[], [])

  predicate StartsWith(s: string, prefix: string)
  {
    |prefix| <= |s| && s[..|prefix|] == prefix
  }

  /** Substring test: `sub` occurs somewhere in `s`. */
  predicate Contains(s: string, sub: string)
    ensures Contains(s, sub) <==> exists i :: 0 <= i <= |s| && StartsWith(s[i..], sub)
    decreases |s|
  {
    if StartsWith(s, sub) then
      assert s[0..] == s;
      true
    else if |s| == 0 then
      false
    else
      assert forall i :: 1 <= i <= |s| ==> s[1..][i - 1..] == s[i..];
      assert s[0..] == s;
      Contains(s[1..], sub)
  }

  /**
   * The filter tests `"cdrom"` as a substring of the mount options, so any
   * option containing those letters hides the partition, and so does an empty
   * filesystem type.
   */
  lemma SkippedExamples()
    ensures Skipped(Partition("/dev/sr0", "/media/cd", "iso9660", "ro,cdrom"))
    ensures Skipped(Partition("/dev/sdb1", "/mnt", "ext4", "rw,nocdromx"))
    ensures Skipped(Partition("/dev/loop0", "/snap", "", "ro"))
    ensures !Skipped(Partition("/dev/sda1", "/", "ext4", "rw,relatime"))
  {
    assert StartsWith("rw,nocdromx"[5..], "cdrom");
    assert StartsWith("ro,cdrom"[3..], "cdrom");
    var opts := "rw,relatime";
    assert forall i :: 0 <= i < |opts| ==> opts[i] != 'c';
    forall i | 0 <= i <= |opts|
      ensures !StartsWith(opts[i..], "cdrom")
    {
      if i < |opts| {
        assert opts[i..][0] == opts[i];
      }
    }
  }

  /** Optical drives and partitions without a filesystem type are not shown. */
  predicate Skipped(p: Partition)
  {
    Contains(p.opts, "cdrom") || p.fstype == ""
  }

  /** A sample that gets a row: not filtered out, and its usage query succeeded. */
  predicate Accepted(s: PartitionSample)
  {
    !Skipped(s.part) && s.usage.Some?
  }

  /** The row contents for a usage reading. */
  function Observe(u: DiskUsage): DriveView
  {
    DriveView(GaugeOf(u.percent), u.used, u.total)
  }

  /** Every row is listed exactly once in creation order. */
  ghost predicate WellFormed(r: Registry)
  {
    (forall i, j :: 0 <= i < j < |r.order| ==> r.order[i] != r.order[j]) &&
    (forall name :: name in r.rows <==> name in r.order)
  }

  /**
   * One pass of the per-partition loop body: skip filtered partitions and
   * failed queries; otherwise create a row for an unseen device, then refresh
   * the device's row.
   */
  function RegisterOne(r: Registry, s: PartitionSample): (r': Registry)
    ensures !Accepted(s) ==> r' == r
    ensures Accepted(s) ==> r'.rows.Keys == r.rows.Keys + {s.part.device}
    ensures Accepted(s) ==> r'.rows[s.part.device] == Observe(s.usage.value)
    ensures forall name :: name in r.rows && (!Accepted(s) || name != s.part.device) ==>
      name in r'.rows && r'.rows[name] == r.rows[name]
    ensures r'.order == if Accepted(s) && s.part.device !in r.rows then r.order + [s.part.device] else r.order
  {
    if Skipped(s.part) then r
    else match s.usage
      case None => r
      case Some(u) =>
        var name := s.part.device;
        var created := if name !in r.rows then Registry(r.rows[name := BlankView], r.order + [name]) else r;
        Registry(created.rows[name := Observe(u)], created.order)
  }

  /**
   * The registry after the per-partition loop has run over `samples` in order:
   * no row is removed, and existing rows keep their places in creation order.
   */
  function RegisterAll(r: Registry, samples: seq<PartitionSample>): (r': Registry)
    ensures r.rows.Keys <= r'.rows.Keys
    ensures r.order <= r'.order
    decreases |samples|
  {
    if samples == [] then r
    else RegisterOne(RegisterAll(r, samples[..|samples| - 1]), samples[|samples| - 1])
  }

  /** The devices of the accepted samples. */
  function AcceptedDevices(samples: seq<PartitionSample>): set<string>
    decreases |samples|
  {
    if samples == [] then {}
    else
      var last := samples[|samples| - 1];
      AcceptedDevices(samples[..|samples| - 1]) + if Accepted(last) then {last.part.device} else {}
  }

  /** The usage reading of the last accepted sample for `name`, if any. */
  function LastUsage(samples: seq<PartitionSample>, name: string): Option<DiskUsage>
    decreases |samples|
  {
    if samples == [] then None
    else
      var last := samples[|samples| - 1];
      if Accepted(last) && last.part.device == name then Some(last.usage.value)
      else LastUsage(samples[..|samples| - 1], name)
  }

  /** A device has an accepted sample exactly when it has a last accepted reading. */
  lemma {:induction false} LastUsageDefined(samples: seq<PartitionSample>, name: string)
    ensures LastUsage(samples, name).Some? <==> name in AcceptedDevices(samples)
    decreases |samples|
  {
    if samples != [] {
      LastUsageDefined(samples[..|samples| - 1], name);
    }
  }

  /** Rows are only ever added: the keys after a pass are the old keys plus the accepted devices. */
  lemma {:induction false} RegisterAllKeys(r: Registry, samples: seq<PartitionSample>)
    ensures RegisterAll(r, samples).rows.Keys == r.rows.Keys + AcceptedDevices(samples)
    decreases |samples|
  {
    if samples != [] {
      RegisterAllKeys(r, samples[..|samples| - 1]);
    }
  }

  /**
   * Each row shows the last accepted reading for its device in this pass, and
   * a row whose device had no accepted reading keeps what it showed.
   */
  lemma {:induction false} RegisterAllRows(r: Registry, samples: seq<PartitionSample>, name: string)
    requires name in RegisterAll(r, samples).rows
    ensures LastUsage(samples, name).Some? ==>
      RegisterAll(r, samples).rows[name] == Observe(LastUsage(samples, name).value)
    ensures LastUsage(samples, name).None? ==>
      name in r.rows && RegisterAll(r, samples).rows[name] == r.rows[name]
    decreases |samples|
  {
    if samples != [] {
      var init := samples[..|samples| - 1];
      var last := samples[|samples| - 1];
      if !(Accepted(last) && last.part.device == name) {
        RegisterAllRows(r, init, name);
      }
    }
  }

  /** One pass keeps every row listed exactly once. */
  lemma RegisterOneWellFormed(r: Registry, s: PartitionSample)
    requires WellFormed(r)
    ensures WellFormed(RegisterOne(r, s))
  {
    var r' := RegisterOne(r, s);
    if Accepted(s) && s.part.device !in r.rows {
      forall i, j | 0 <= i < j < |r'.order|
        ensures r'.order[i] != r'.order[j]
      {
        if j == |r.order| {
          assert r.order[i] in r.rows;
        }
      }
    }
  }

  /** The per-partition loop keeps every row listed exactly once. */
  lemma {:induction false} RegisterAllWellFormed(r: Registry, samples: seq<PartitionSample>)
    requires WellFormed(r)
    ensures WellFormed(RegisterAll(r, samples))
    decreases |samples|
  {
    if samples != [] {
      RegisterAllWellFormed(r, samples[..|samples| - 1]);
      RegisterOneWellFormed(RegisterAll(r, samples[..|samples| - 1]), samples[|samples| - 1]);
    }
  }

  /**
   * The same device seen twice in one pass has a single row, listed once,
   * showing the second reading.
   */
  lemma SameDeviceTwice(r: Registry, a: PartitionSample, b: PartitionSample)
    requires WellFormed(r)
    requires Accepted(a) && Accepted(b) && a.part.device == b.part.device
    ensures RegisterAll(r, [a, b]).rows.Keys == r.rows.Keys + {a.part.device}
    ensures RegisterAll(r, [a, b]).rows[a.part.device] == Observe(b.usage.value)
    ensures WellFormed(RegisterAll(r, [a, b])) && a.part.device in RegisterAll(r, [a, b]).order
  {
    var r1 := RegisterOne(r, a);
    var r2 := RegisterOne(r1, b);
    assert RegisterAll(r, [a]) == r1 by {
      assert [a][..0] == [];
    }
    assert RegisterAll(r, [a, b]) == r2 by {
      assert [a, b][..1] == [a];
    }
    RegisterOneWellFormed(r, a);
    RegisterOneWellFormed(r1, b);
  }
}
