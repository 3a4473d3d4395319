# System monitor dashboard: verified model of its decision rules

The dashboard (`gui_monitor.py`) is a Tk window refreshed once a second from
operating-system metrics. Underneath the widget code sit a few exact rules,
and this project models them in Dafny and proves properties about them:

- **Byte formatter** (`get_size`). It divides an amount by 1024 until it
  drops below 1024, and picks the matching unit from `"", K, M, G, T, P`.
  `ByteSize` models it as a loop (`GetSize`) checked against a recursive
  specification (`SizeOf`). It is proved equal to the one declarative
  "scaling" of the amount (`IsScaling`). Amounts of 1024^6 or more get no
  unit, so the formatter returns `None`.
- **Usage colour** (`get_color_by_usage`). Three bands with thresholds 50 and
  80 (`Severity`).
- **Network rate**. The growth of the cumulative byte counters since the
  previous tick; the new counters are then retained (`Network`).
- **Drive registry** (`drive_widgets`). A map from device name to a drive row.
  Rows are created the first time a device is seen, refreshed in place after
  that, and never removed. Optical drives, partitions without a filesystem
  type and failed usage queries are skipped (`DriveRegistry`).
- **Ping status**. The latency sentinel -1 means offline. Otherwise a latency
  below 100 ms is good and anything else is a warning (`Ping`).
- **The dashboard object** (`Monitor.SystemMonitor`). It holds the retained
  counters, the latency field, the drive registry and the state of every
  refreshed widget. Its `Tick` method runs one pass of the refresh loop. That
  pass includes the per-core guard, which caps the number of core bars at
  `min(cpu_count, 32)`. The constructor ends with the first refresh, as
  `__init__` does, so a new object has already ticked once.

Percentages and byte amounts given to the formatter are Dafny `real`s. Python
floats are treated as exact reals, and Python's `/` is true division. Network
counters are `int`. Every `psutil` reading is a parameter of the model.

The model follows the code in three places where a tidier rule might be expected:

- A network counter that goes backwards is not clamped to 0. The rate is
  negative, and the formatter shows it unchanged with unit "" (`NetRate`,
  `SizeOfBelowFactor`).
- The colour rule does not clamp out-of-range percentages. It is total over
  all reals, so values below 0 are "good" and values above 100 are "critical".
- Drive rows are keyed by the partition's device name, not by its mount point.
  Two partitions that share a device share one row, and the row shows the
  last one (`SameDeviceTwice`).

## Model

| member | source | states |
|---|---|---|
| `Severity.ColorByUsage` | gui_monitor.py:71-80 | the colour is good iff percent < 50, warning iff 50 <= percent < 80, critical iff percent >= 80; exactly one band for every reading |
| `Severity.ColorByUsageMonotone` | gui_monitor.py:78-80 | a higher reading never gets a less severe colour |
| `Severity.ColorByUsageBoundaries` | gui_monitor.py:78-80 | 49.9 is good, 50 and 79.9 are warning, 80 and 100 are critical |
| `Severity.GaugeOf` | gui_monitor.py:341-342 | a bar is filled to percent/100 and coloured by the three-band rule |
| `ByteSize.ScaleFrom` | gui_monitor.py:66-69 | the loop resumed at unit k with the remaining value: any report is at a unit from k to P, with magnitude below 1024, and at least 1 if a division happened |
| `ByteSize.SizeOf` | gui_monitor.py:60-69 | the formatter's report: a unit that exists and a magnitude below 1024; an amount below 1024 comes back unchanged with unit "" |
| `ByteSize.UnitName` | gui_monitor.py:66-68 | the printed prefix is empty for unit "" and one letter for K to P |
| `ByteSize.GetSize` | gui_monitor.py:60-69 | the unit loop returns the specified report; it returns None iff amount >= 1024^6, and otherwise a scaling of the amount |
| `ByteSize.ScaleFromNone` | gui_monitor.py:66-69 | resumed at unit k, the loop falls off the unit list iff the remaining value is >= 1024^(6-k) |
| `ByteSize.ScaleFromSome` | gui_monitor.py:66-69 | resumed at unit k, the reported unit is at or after k, its magnitude times 1024^(unit-k) is the remaining value, is below 1024, and is >= 1 if any division happened |
| `ByteSize.SizeOfIsScaling` | gui_monitor.py:65-69 | the report is None iff amount >= 1024^6, and otherwise satisfies `IsScaling` (unit < 6, magnitude * 1024^unit = amount, magnitude < 1024, magnitude >= 1 above unit "") |
| `ByteSize.ScalingBounds` | gui_monitor.py:67-69 | a scaling at unit k pins the amount: below 1024^(k+1), and at least 1024^k when k > 0 |
| `ByteSize.ScalingUnique` | gui_monitor.py:65-69 | an amount has at most one scaling |
| `ByteSize.SizeOfCharacterized` | gui_monitor.py:65-69 | the report is Some(s) iff s is a scaling of the amount; from 1024^6 on no scaling exists |
| `ByteSize.ScalingIsSmallest` | gui_monitor.py:66-69 | a scaling's unit k is the smallest with amount < 1024^(k+1) |
| `ByteSize.ScalingIsQuotient` | gui_monitor.py:69 | a scaling's magnitude is the amount divided by 1024^unit |
| `ByteSize.SizeOfSmallestUnit` | gui_monitor.py:65-69 | for 0 <= amount < 1024^6 the unit is the smallest k with amount < 1024^(k+1), and the magnitude is amount / 1024^k |
| `ByteSize.SizeOfBelowFactor` | gui_monitor.py:66-68 | an amount below 1024, negative ones included, is reported unchanged with unit "" |
| `ByteSize.SizeOfBeyondLastUnit` | gui_monitor.py:66-69 | from 1024^6 bytes on, all six units are used up and nothing is reported |
| `ByteSize.SizeOfExamples` | gui_monitor.py:60-69 | 0 is 0.00 B, 1024 is 1.00 KB, 1536 is 1.50 KB, 1073741824 is 1.00 GB |
| `Network.NetRate` | gui_monitor.py:408-411 | retained + rate = current in both directions; the rate is zero iff the counters are unchanged; it is negative exactly when a counter went backwards |
| `Network.RatesFrom` | gui_monitor.py:408-412 | over successive ticks, the first rate is taken against the start-up counters and every later one against the previous tick's reading |
| `Network.RatesTelescope` | gui_monitor.py:408-412 | over successive ticks the displayed rates add up to the counters' total growth, because each tick retains what it read |
| `Network.IdleCountersGiveZero` | gui_monitor.py:408-412 | unchanged counters give a zero rate both ways on every later tick |
| `Network.NetRateExample` | gui_monitor.py:410-411 | retained (100, 200) and current (150, 250) give (50, 50) |
| `Ping.PingStatus` | gui_monitor.py:418-422 | the label is offline iff the latency is -1; otherwise it shows the latency, green iff below 100 ms, orange iff 100 ms or more |
| `Ping.PingBandCases` | gui_monitor.py:418-422 | the ping colour is red iff -1, green iff not -1 and < 100, orange iff >= 100 |
| `Ping.ProbeResult` | gui_monitor.py:300-312 | a failed probe writes -1; a successful one writes the measured milliseconds |
| `Ping.FailedProbeShowsOffline` | gui_monitor.py:311-312 | a failed probe is rendered as the offline state, not as a number |
| `DriveRegistry.Contains` | gui_monitor.py:373 | the `in` test on the option string holds iff the word starts at some position of it |
| `DriveRegistry.SkippedExamples` | gui_monitor.py:373 | "ro,cdrom", any option containing "cdrom" as letters, and an empty filesystem type are filtered out; an ordinary ext4 mount is not |
| `DriveRegistry.RegisterOne` | gui_monitor.py:371-405 | a cdrom/typeless partition or a failed usage query leaves the registry unchanged; otherwise the device ends with one row showing this reading, created (and appended to the creation order) only if absent, and every other row is untouched |
| `DriveRegistry.LastUsageDefined` | gui_monitor.py:370-405 | a device has a last accepted reading in a pass iff one of its samples was accepted |
| `DriveRegistry.RegisterAllKeys` | gui_monitor.py:370-405 | after the partition loop, the keys are exactly the old keys plus the accepted devices; no key is ever removed |
| `DriveRegistry.RegisterAllRows` | gui_monitor.py:379-403 | each row shows the last accepted reading of its device in the pass, or keeps its old contents if its device had none |
| `DriveRegistry.RegisterAll` | gui_monitor.py:370-405 | the partition loop never removes a row, and existing rows keep their place in creation order |
| `DriveRegistry.RegisterOneWellFormed` | gui_monitor.py:379-396 | one loop pass keeps every row listed exactly once in creation order |
| `DriveRegistry.RegisterAllWellFormed` | gui_monitor.py:370-405 | the whole partition loop keeps every row listed exactly once |
| `DriveRegistry.SameDeviceTwice` | gui_monitor.py:379-403 | a device seen twice has a single row, listed once, showing the second reading |
| `Monitor.CoreSlots` | gui_monitor.py:201 | the number of core bars is at most the core count and at most 32, and equals one of them |
| `Monitor.SystemMonitor.constructor` | gui_monitor.py:91-141 | the object after `__init__`, which runs the first refresh: min(cpu_count, 32) core bars, those with a reading refreshed; every other bar, the drive registry (built from empty) and the ping label (latency still 0, so green) as after one tick; the first reading's counters retained; rate labels formatting the growth since the start-up reading |
| `Monitor.SystemMonitor.RecordProbe` | gui_monitor.py:310-312 | the prober's write: the measured latency, or -1 on failure |
| `Monitor.SystemMonitor.RefreshCpu` | gui_monitor.py:331-342 | the CPU bar shows the reading's fill and colour; used + free = 100 |
| `Monitor.SystemMonitor.RefreshCores` | gui_monitor.py:345-352 | core i is refreshed iff it has a reading and a bar; readings past the last bar are dropped; the number of bars is unchanged |
| `Monitor.SystemMonitor.RefreshMemory` | gui_monitor.py:360-365 | the RAM and swap bars show their readings' fill and colour |
| `Monitor.SystemMonitor.RefreshDrives` | gui_monitor.py:368-405 | the in-place partition loop leaves the registry equal to `RegisterAll` of the old registry and the samples |
| `Monitor.SystemMonitor.RefreshNetwork` | gui_monitor.py:408-415 | returns `NetRate` of the retained and current counters, retains the current ones, and labels both rates with the formatter's report |
| `Monitor.SystemMonitor.RefreshPing` | gui_monitor.py:418-422 | the ping label follows `PingStatus` of the latency field |
| `Monitor.SystemMonitor.Tick` | gui_monitor.py:324-428 | one refresh: every bar, the drive registry (kept well formed), the rates and the retained counters, and the ping label; the latency field is untouched |

## Left out

- Widget construction, layout, geometry and the colour theme constants. These are presentation with no behaviour of their own. Bands stand for the three colours.
- Text rendering. This covers the `.2f`/`.0f`/`.1f` formatting, the "B" suffix, and the label texts. A formatted amount is modelled as its unit index and magnitude.
- Floating point. Readings are exact reals, so rounding in `bytes /= 1024` and in `100 - cpu_pct` is not modelled.
- The RAM, swap and drive byte texts. They only pass `mem.total`, `usage.used` and similar values through the formatter, whose behaviour is modelled once in `ByteSize`. A drive row keeps the raw used and total values.
- The latency prober thread. Its sockets, wall-clock timing, `time.sleep`, daemon thread and the unsynchronised shared field are I/O and concurrency. Only its write of the field is modelled, by `RecordProbe`/`ProbeResult`, with the measured time as a parameter.
- Every `psutil` query. CPU, per-core, memory, swap, partitions, disk usage and network counters become fields of `TickSample`. A usage query that raises is the `None` outcome of a `PartitionSample`.
- Exceptions raised while creating or updating a drive's widgets. They are caught by the same `except` in the source. Only a failing usage query, which comes before any registry change, is modelled.
- `get_system_uptime` and the uptime label. This is date arithmetic on a foreign clock.
- The self-rescheduling through `after` and the Tk main loop. This is event-loop plumbing. A run of ticks is a sequence of `Tick` calls, and `RatesFrom` is the rate sequence they produce.
- The CPU frequency label. The model does not show the reading, and it does not model the failure below when the reading is missing.
- Monitor.SystemMonitor.Tick, Monitor.SystemMonitor.constructor: the model assumes every reading is present, so a tick always completes. In the source, an exception outside the partition loop ends the tick before it reschedules itself, and the dashboard stops refreshing. Examples are `cpu_freq()` returning None (line 338) and `cpu_count()` returning None (line 201). Because `__init__` runs the first tick, the same failure makes construction fail.
- Monitor.CoreSlots: takes the core count as a number; an undetermined count (None) is not modelled.
- Monitor.SystemMonitor.constructor: the prober thread is started just before the first tick; the model assumes it has not written yet, so the first tick sees latency 0.
