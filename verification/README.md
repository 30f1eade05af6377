# SweatMeter, modelled and proved

SweatMeter samples CPU, memory, disk, temperature and GPU telemetry on a machine that runs benchmarks. A
background sampler collects snapshots on a fixed grid of deadlines and shares them with any number of iterators; a
window turns snapshots into per-device figures and a throttling verdict; readers turn kernel counters and two NVIDIA
interfaces into values; a collector isolates every failing source. This project models those parts in Dafny and proves
what they promise over every run, every input and every interleaving.

The files follow the program.

- `Types.dfy`, `Collect.dfy`, `Sorting.dfy`, `Indexing.dfy`: shared data (a measurement is a number or unsupported, a
  boundary call answers or raises), append-in-a-loop, the stable sort, and keying by device index.
- `SamplerProtocol.dfy`, `SamplerSafety.dfy`, `SamplerTheorems.dfy`: the sampler as a state machine. A step is one
  critical section or one action outside it; callers, workers and iterators interleave freely. A log of everything
  published is what the ring and every iterator are compared with. `Sampler.dfy` holds the class whose methods perform
  those steps on fields; `Schedule.dfy` the deadline arithmetic.
- `Window.dfy`, `WindowLaws.dfy`, `WindowVerdict.dfy`: the window class with its loops, what each figure is as a
  function of the sorted snapshots, and the laws of figures and verdict. `WindowReadings.dfy` states both in terms of
  the reported readings, with the thresholds as numbers.
- `LinuxCounters.dfy`, `LinuxMemory.dfy`, `LinuxHost.dfy`: counter parsing, the CPU and disk delta readers, memory
  figures, sensor discovery and its cache. `LinuxReadings.dfy` states them in terms of columns, lines and files.
- `Throttle.dfy`, `NvidiaSmi.dfy`, `Nvml.dfy`: the two GPU backends. `Backends.dfy`: one machine recorded through
  either of them, and what the window makes of the two recordings.
- `Normalizer.dfy`, `Collector.dfy`, `CollectorLaws.dfy`: the collector. `GpuPipeline.dfy`: a reader's call and the
  collection around it. `Units.dfy`: for both backends and the collector, which answer ends in which field, in which
  unit and range.

Text arrives as tokens: a field or cell together with what integer or float parsing makes of it. Reals stand for
floats. Clock readings, sensor trees, driver answers and command results are parameters.

Where the code differs from what its documentation says, the code is what is modelled:

- `snapshot()` documents that every unsupported field has a diagnostic (src/sweatmeter/collector.py:142-147). That
  holds exactly when no step between the boundaries raises (`CollectorLaws.ExplainedIffNotBroken`). An integer too
  large for a float makes the finiteness test raise, and the whole snapshot is replaced by one with a single diagnostic
  (`CollectorLaws.OneLargeIntegerCostsTheSnapshot`).
- The backends are documented as interchangeable for the window's heuristic (src/sweatmeter/readers/nvml.py:47-50).
  The state of the verdict is always the same. The whole verdicts differ exactly when some supported mask of the run has
  only unknown bits and either a throttle reason was active, or the device has two clocks, no drop and, through NVML,
  availability in every sample (`Backends.WindowsTellBackendsApartIff`); `Backends.UnknownBitsAreSeenDifferently` is
  such a run.
- Iterating is documented as lasting until the sampler stops. An iterator that starts to wait after the worker's last
  notification waits on (`SamplerTheorems.StrandedIsReachable`).

## Model

| member | source | states |
|---|---|---|
| SamplerTheorems.HistoryIsTheNewest | src/sweatmeter/sampler.py:98-104 | In every interleaving the ring holds exactly the last min(N, capacity) of the N snapshots ever published, numbered contiguously up to N |
| SamplerTheorems.IteratorsAreFaithful | src/sweatmeter/sampler.py:178-196 | An iterator delivers strictly increasing numbers with the published payloads, skips a number only if it had been evicted when the later batch was taken, and if it returned its last delivery was the newest publication |
| SamplerTheorems.ReturnMeansDrained | src/sweatmeter/sampler.py:188-193 | An iterator returns only when no worker is alive and its cursor is past everything published |
| SamplerTheorems.OneWorkerAtATime | src/sweatmeter/sampler.py:112-122 | In every reachable state at most one worker thread is alive, and it is the one the sampler knows |
| SamplerTheorems.StopEventOutlivesWorker | src/sweatmeter/sampler.py:113-115 | No step clears the stop event while a worker is alive |
| SamplerTheorems.StopRequestIsNeverLost | src/sweatmeter/sampler.py:138-149 | From a stop request until its worker is dead the event stays set, whatever start() calls, timeouts and other stops happen |
| SamplerTheorems.StopAllowsOneMore | src/sweatmeter/sampler.py:238-253 | Once stop() has set the event, a worker that exists then publishes at most one more snapshot in any continuation |
| SamplerTheorems.ReturnedStopIsFinal | src/sweatmeter/sampler.py:144-149 | The worker a returned stop() joined never publishes again, across any restarts |
| SamplerTheorems.WaitersHaveNothingToTake | src/sweatmeter/sampler.py:186-192 | In every reachable state a waiting iterator has delivered everything published: nothing in the ring is for it, so no publication leaves one waiting |
| SamplerTheorems.NotificationsWakeEveryWaiter | src/sweatmeter/sampler.py:228-233 | A publication, a stop request and the worker's exit each wake every waiting iterator, and no other step wakes any |
| SamplerTheorems.PassPublishes | src/sweatmeter/sampler.py:242-253 | A pass that nobody stops is possible, appends exactly the collected snapshot, leaves the ring the newest publications and returns to the test |
| SamplerTheorems.RestartTakesEffect | src/sweatmeter/sampler.py:106-122 | Without a live worker, start() leads to a new worker testing a clear stop event, with history and numbering kept |
| SamplerTheorems.StoppedWorkerLeaves | src/sweatmeter/sampler.py:242-256 | A worker that sees the stop event can leave, notify and die, and publishes nothing on the way |
| SamplerTheorems.Reachable | src/sweatmeter/sampler.py:98-104 | The invariant tying ring, counter, cursors, threads and stop event to the publication log holds after every run |
| SamplerTheorems.OnlyLateWaitersAreStranded | src/sweatmeter/sampler.py:189-191 | In every reachable state an iterator waits with no worker alive exactly if it went to wait after the worker's exit notification and that worker is dead |
| SamplerTheorems.StrandedIsReachable | src/sweatmeter/sampler.py:254-256 | For every capacity there is a run that strands an iterator: notified, still alive, re-checked, then dead |
| SamplerTheorems.OnlyStopWakesTheStranded | src/sweatmeter/sampler.py:138-141 | A stranded iterator is woken by another stop() and by no other step |
| Sampler.TelemetrySampler.Start | src/sweatmeter/sampler.py:106-122 | The fields make the protocol's start step: a no-op while the thread is alive, else a cleared event and a new worker with history and numbering kept |
| Sampler.TelemetrySampler.RequestStop | src/sweatmeter/sampler.py:138-142 | The fields make the protocol's stop step and the caller gets the thread to join |
| Sampler.TelemetrySampler.Publish | src/sweatmeter/sampler.py:228-236 | The bounded append leaves the history equal to the last entries of the log extended by this publication; the wake-up is the protocol's step |
| Sampler.TelemetrySampler.IsRunning | src/sweatmeter/sampler.py:151-154 | True exactly when some worker is alive |
| Sampler.TelemetrySampler.Latest | src/sweatmeter/sampler.py:156-159 | The newest snapshot ever published, or none if nothing was |
| Sampler.TelemetrySampler.LatestAgeSeconds | src/sweatmeter/sampler.py:161-171 | None exactly before the first publication; otherwise the time since the receipt of the newest publication, or zero if the clock reads earlier |
| Sampler.TelemetrySampler.Buffered | src/sweatmeter/sampler.py:173-176 | Oldest to newest, the last min(N, capacity) published snapshots |
| Sampler.SampleIterator.Check | src/sweatmeter/sampler.py:186-193 | One look under the lock makes the protocol's step: take what the cursor can still get, wait, or return |
| Sampler.SampleIterator.Deliver | src/sweatmeter/sampler.py:194-196 | The item handed out is the publication with its number, and the cursor moves past it |
| Schedule.NextDeadlineBrackets | src/sweatmeter/sampler.py:247-251 | The new deadline is after now and, when points were missed, the one before it is not |
| Schedule.DeadlineOnGrid | src/sweatmeter/sampler.py:240-251 | Every deadline is t0 + k times the interval, where k is the samples taken plus the points skipped |
| Schedule.DeadlineIsLeastAfterNow | src/sweatmeter/sampler.py:247-252 | After each pass the deadline is the least grid point strictly after now, so the clamp at zero never binds |
| Schedule.OneBeginPerSlot | src/sweatmeter/sampler.py:238-252 | No slot of one interval sees two collections begin |
| Schedule.BeginsAreBounded | src/sweatmeter/sampler.py:238-252 | By time t at most floor((t - t0) / interval) + 1 collections have begun |
| Schedule.NoBurst | src/sweatmeter/sampler.py:249-251 | Missed points are skipped, not caught up: two passes apart is more than one interval apart |
| Schedule.RunLoop | src/sweatmeter/sampler.py:238-252 | The loop ends with the specified deadline after any number of passes, and hands every wait the time left until its deadline |
| Sorting.StableSortSpec | src/sweatmeter/window.py:158 | The sort is an ordered permutation in which ties keep their input order |
| Sorting.SortedTiesUnique | src/sweatmeter/window.py:158 | That promise determines the result: no other sequence meets it |
| Window.TelemetryWindow.constructor | src/sweatmeter/window.py:148-158 | The window holds a permutation of its input in order of time, with ties in the order they came |
| Window.TelemetryWindow.GpuSamples | src/sweatmeter/window.py:285-293 | The loop gathers each snapshot's first sample of the device, in order |
| Window.TelemetryWindow.MeasurementsOf | src/sweatmeter/window.py:295-302 | The loop gathers the supported values of one field for the device |
| Window.TelemetryWindow.EnergyTermsOf | src/sweatmeter/window.py:304-315 | The loop gathers the left rectangles of the intervals with positive length and a power reading |
| Window.TelemetryWindow.PeakVramBytes | src/sweatmeter/window.py:164-174 | The greatest supported VRAM reading of the device over the sorted window, unsupported exactly if there is none |
| Window.TelemetryWindow.MeanPowerWatts | src/sweatmeter/window.py:176-186 | The arithmetic mean of the device's supported power readings, unsupported exactly if there is none |
| Window.TelemetryWindow.EnergyJoules | src/sweatmeter/window.py:188-203 | The sum of the device's energy terms, unsupported exactly if there is no term |
| Window.TelemetryWindow.MaxTemperatureC | src/sweatmeter/window.py:205-215 | The greatest supported temperature of the device over the sorted window, unsupported exactly if there is none |
| Window.TelemetryWindow.SubstantialClockDrop | src/sweatmeter/window.py:317-335 | The one-pass running maximum returns the first sample at or below 85% of some earlier supported clock, and none exactly when there is no such sample |
| Window.TelemetryWindow.SuspectedThrottling | src/sweatmeter/window.py:217-251 | The verdict the verdict laws speak of, computed from the window's snapshots |
| Window.TelemetryWindow.SupportedSampleCount | src/sweatmeter/window.py:253-283 | The evidence count of each metric |
| Window.MaximumDecidesDrop | src/sweatmeter/window.py:323-334 | Comparing with the running maximum is as good as comparing with every earlier clock |
| WindowReadings.FindDeviceIsFirst | src/sweatmeter/window.py:285-293 | The device's sample is the first of the snapshot that has its index, and there is none exactly if no sample has it |
| WindowReadings.FiguresOfOneSnapshot | src/sweatmeter/window.py:164-215 | Over one snapshot peak, mean and maximum temperature are the device's used VRAM, power and temperature readings, with counts 1 or 0, and there is no energy |
| WindowReadings.MeasurementsAppend | src/sweatmeter/window.py:295-302 | What is counted over two stretches is what is counted over each, in order |
| WindowReadings.MeanAndTotal | src/sweatmeter/window.py:176-203 | Mean times count is the sum of the counted powers; the energy is the sum of its terms |
| WindowReadings.EnergyOfOneInterval | src/sweatmeter/window.py:304-315 | One interval contributes watts times seconds, of the earlier snapshot's power, exactly when it has a length and that power |
| WindowReadings.BlameDecides | src/sweatmeter/window.py:231-249 | Any available reason other than gpu_idle makes the verdict suspected with confidence 1.0, lists exactly those reasons and counts the samples that reported |
| WindowReadings.ClocksDecide | src/sweatmeter/window.py:317-392 | Otherwise: below two clocks unknown, 0.0; no clock at or below 0.85 of an earlier one, not suspected with 0.95 or 0.6; a first drop, suspected at 80 degrees (0.8) or 0.95 of a positive limit (0.75), not suspected at 50% utilization or less (0.75), else unknown (0.25) |
| WindowReadings.IdlenessIsNotThrottling | src/sweatmeter/window.py:239 | Removing gpu_idle from every sample's reasons changes no verdict |
| WindowVerdict.DropIffSomePair | src/sweatmeter/window.py:317-335 | No drop is found exactly when every later clock exceeds 85% of every earlier one |
| WindowVerdict.DropNeedsTwoClocks | src/sweatmeter/window.py:345-348 | A drop implies two clock samples, so the evidence threshold never hides one |
| WindowVerdict.FirstDropIsStable | src/sweatmeter/window.py:317-335 | Later samples never change a drop already found |
| WindowVerdict.ClocklessSampleIsInvisible | src/sweatmeter/window.py:325-327 | Removing any sample without a clock leaves the drop unchanged |
| WindowVerdict.VerdictDecision | src/sweatmeter/window.py:338-392 | Suspected, not suspected and unknown, each with exactly the evidence that leads to it |
| WindowVerdict.SuspicionIsNeverWithdrawn | src/sweatmeter/window.py:217-251 | Extending a window with snapshots no earlier than its own keeps a suspected verdict suspected |
| WindowVerdict.OnlyTheDriverMovesADrop | src/sweatmeter/window.py:231-251 | Once a drop exists, an extension changes the assessment exactly when the driver reports a reason it had not reported before, and then to suspected |
| WindowVerdict.ReasonOrderIsInvisible | src/sweatmeter/window.py:231-241 | The verdict depends on throttle reasons only as sets |
| WindowLaws.OrderIsIrrelevant | src/sweatmeter/window.py:148-158 | Permuting the input gives the same window when no two different snapshots share a timestamp |
| WindowLaws.OrderIsIrrelevantIff | src/sweatmeter/window.py:148-158 | That condition is exact: otherwise some permutation gives a different window |
| WindowLaws.TiesDoNotMoveAggregates | src/sweatmeter/window.py:164-215 | Peak, mean and maximum temperature do not depend on input order even with ties |
| WindowLaws.EnergyIsAdditive | src/sweatmeter/window.py:304-315 | Cutting a window at a snapshot both parts share makes the energy terms concatenate |
| WindowLaws.EnergyBetweenPowerBounds | src/sweatmeter/window.py:304-315 | Powers within [lo, hi] watts give lo times covered seconds <= energy <= hi times covered seconds |
| WindowLaws.CoveredAtMostSpan | src/sweatmeter/window.py:304-315 | Covered time is at most last minus first, with equality exactly when every positive interval starts with a power reading |
| WindowLaws.ElapsedNeverNegative | src/sweatmeter/window.py:158 | After the sort no interval is negative, whatever order the input had |
| WindowLaws.OnlyTheLastOfATieCounts | src/sweatmeter/window.py:308-313 | Of snapshots with equal timestamps only the last can contribute energy |
| WindowLaws.EnergyCountIsPowerCountButTheLast | src/sweatmeter/window.py:268-283 | With strictly increasing timestamps the energy count is the power count, less one exactly if the last snapshot reports power |
| WindowLaws.EnergyCountAtMostPowerCount | src/sweatmeter/window.py:268-283 | With ties the energy count can only be smaller |
| WindowLaws.FiguresMatchEvidence | src/sweatmeter/window.py:164-215 | Peak, mean, energy and maximum temperature are each unsupported exactly when their evidence count is zero, and a supported maximum is attained and not exceeded |
| WindowLaws.MeanBetweenBounds | src/sweatmeter/window.py:176-186 | The mean lies between any bounds on the values counted |
| WindowLaws.SortKeepsAlignment | src/sweatmeter/window.py:158 | Two inputs related snapshot by snapshot with equal times stay related after sorting |
| WindowLaws.DevicesDoNotInterfere | src/sweatmeter/window.py:285-315 | Every figure, count and verdict of a device is unchanged by any alteration of the other devices' samples |
| WindowLaws.OtherDevicesCanBeRemoved | src/sweatmeter/window.py:285-293 | Keeping only each snapshot's first sample of the device changes nothing reported about it |
| LinuxCounters.SumIsColumnSum | src/sweatmeter/readers/linux.py:91-98 | The total is the sum of the eight counted columns, absent ones as zero, guest columns excluded |
| LinuxReadings.BusyAndIdleColumns | src/sweatmeter/readers/linux.py:94-98 | Idle is columns 3 and 4, busy is columns 0, 1, 2, 5, 6 and 7, the total is both |
| LinuxReadings.FirstAggregateLineDecides | src/sweatmeter/readers/linux.py:80-99 | The first "cpu" line decides whatever surrounds it: at least four non-negative counters give its busy and idle columns, anything else gives nothing |
| LinuxReadings.PercentIsTheBusyShare | src/sweatmeter/readers/linux.py:425-432 | The percentage is 100 times busy over busy plus idle, and unsupported exactly if one went backwards or nothing moved |
| LinuxReadings.PercentOfTwoReads | src/sweatmeter/readers/linux.py:419-432 | From two texts of /proc/stat to the percentage: the first call is unsupported, the second the busy share of the named columns, so pure idling and waiting gives 0 and neither gives 100 |
| LinuxCounters.ClampNeverBinds | src/sweatmeter/readers/linux.py:427-432 | For an accepted interval the quotient is already within [0, 100] |
| LinuxCounters.RejectedOnlyWhenNothingMoved | src/sweatmeter/readers/linux.py:427-431 | With non-decreasing counted columns an interval is rejected exactly when none of the eight moved |
| LinuxCounters.MovementTelescopes | src/sweatmeter/readers/linux.py:425-430 | From a fresh or a running reader, counted and uncounted movement of a counter add up to last baseline minus first, through any failed reads |
| LinuxCounters.CpuConservation | src/sweatmeter/readers/linux.py:419-432 | Over any run, a fresh reader's first calls included, the percentages account for exactly the busy time of the accepted intervals |
| LinuxCounters.CpuConservationWhenAccepted | src/sweatmeter/readers/linux.py:419-432 | When every interval is accepted that is the whole change of total minus idle since the first successful reading |
| LinuxCounters.ParseDiskstats | src/sweatmeter/readers/linux.py:166-209 | The early-exit loop yields the byte totals of the selected rows exactly when all of them are well formed, there is one, and every allowed device appears |
| LinuxReadings.TotalsInBytes | src/sweatmeter/readers/linux.py:184-209 | Bytes read and written are 512 times the sums of the sixth and tenth fields of the rows whose third field is selected, given at least ten fields and non-negative counts in each and every allowed name present |
| LinuxReadings.RatesOfOneInterval | src/sweatmeter/readers/linux.py:475-489 | Reads give the read rate and writes the write rate, bytes over seconds, each unsupported on its own rollback or without elapsed time |
| LinuxCounters.UnselectedRowsAreInvisible | src/sweatmeter/readers/linux.py:187-193 | Partition, loop and mapper rows do not affect the totals wherever they stand |
| LinuxCounters.DiskConservation | src/sweatmeter/readers/linux.py:467-489 | Over any run, a fresh reader's first calls included, rate times elapsed adds up to the non-negative increments of the intervals with positive elapsed time |
| LinuxCounters.DiskConservationWithoutRollback | src/sweatmeter/readers/linux.py:467-489 | Without rollback or stalled clock it telescopes to last minus first successful reading |
| LinuxCounters.DirectionsAreIndependent | src/sweatmeter/readers/linux.py:482-489 | The other direction's counters, rollbacks included, never change a direction's rates |
| LinuxReadings.LastValidLineInBytes | src/sweatmeter/readers/linux.py:103-120 | A valid line sets its name to 1024 times its amount and touches no other; an invalid one touches nothing |
| LinuxMemory.MeminfoValues | src/sweatmeter/readers/linux.py:103-120 | The last valid line of each name decides its value |
| LinuxMemory.ParseMeminfo | src/sweatmeter/readers/linux.py:123-151 | Used plus available is the total whenever used is known; an estimated availability is free plus buffers plus cached plus reclaimable minus shared, clamped to [0, total], and always leaves used known; a stated one is never altered |
| LinuxHost.DiscoverIsSound | src/sweatmeter/readers/linux.py:290-337 | Discovery returns a currently valid eligible sensor with its temperature, and none exactly when there is none |
| LinuxReadings.DiscoveryPrefers | src/sweatmeter/readers/linux.py:290-337 | In degrees from millidegrees within [-273.15, 1000]: the zone first by the listed type order and then by name; without a readable zone the hwmon input, CPU drivers and labels first, drivers of other devices never |
| LinuxReadings.NamesCompareByFirstDifference | src/sweatmeter/readers/linux.py:305-337 | Sensor names compare by the first character that differs, a prefix first |
| LinuxHost.UnsupportedIffNoSensor | src/sweatmeter/readers/linux.py:442-465 | Whatever the cache holds, a call is unsupported exactly when no sensor is currently valid; the cache only ever holds eligible sensors |
| LinuxHost.PreferenceIgnoresTemperatures | src/sweatmeter/readers/linux.py:290-337 | The preferred path depends on which sensors are valid, never on the temperatures |
| LinuxHost.CacheAgreesWithDiscovery | src/sweatmeter/readers/linux.py:442-465 | While the set of valid sensors stays the same, every cached answer of a run equals full rediscovery |
| LinuxHost.LinuxHostReader.CpuPercent | src/sweatmeter/readers/linux.py:419-432 | The baseline is always the last successful parse, and a reported percentage is within [0, 100] |
| LinuxHost.LinuxHostReader.DiskRates | src/sweatmeter/readers/linux.py:467-489 | The baseline is the last sample with valid counters and clock, and the rates are the run's step |
| LinuxHost.LinuxHostReader.CpuTemperature | src/sweatmeter/readers/linux.py:442-465 | Unsupported exactly when no sensor is valid, with the cached path kept, replaced or dropped as the run's step says |
| Indexing.ByIndexSpec | src/sweatmeter/readers/nvidia.py:423-441 | The listing is strictly increasing and holds exactly the first row of every index that occurs |
| Indexing.ListingIgnoresOrder | src/sweatmeter/readers/nvidia.py:423-441 | When an index decides its row, the listing does not depend on row order |
| NvidiaSmi.ZipByName | src/sweatmeter/readers/nvidia.py:132-134 | With distinct columns a cell is found under exactly the name of its own position; a short row lacks its trailing names |
| NvidiaSmi.QueryOrderIsIrrelevant | src/sweatmeter/readers/nvidia.py:132-134 | Asking for the columns in another order gives the same row |
| NvidiaSmi.RowOrderIsIrrelevant | src/sweatmeter/readers/nvidia.py:290-323 | With unique indices the samples do not depend on row order in either query |
| NvidiaSmi.SamplesIncrease | src/sweatmeter/readers/nvidia.py:310-323 | The samples are strictly increasing by index |
| NvidiaSmi.SampledIffPresent | src/sweatmeter/readers/nvidia.py:299-323 | A device has a sample exactly when some core row carries its index |
| NvidiaSmi.NvidiaSmiReader.Query | src/sweatmeter/readers/nvidia.py:408-421 | The parsed rows; a failure's own code overwrites the key, malformed lines are noted only if it has no reason yet, and nothing else changes |
| NvidiaSmi.NvidiaSmiReader.RowsByIndex | src/sweatmeter/readers/nvidia.py:423-441 | The first row of every index is kept; every other row gets the reason it was rejected for, malformed or duplicate, and nothing else changes |
| NvidiaSmi.NvidiaSmiReader.MeasurementOf | src/sweatmeter/readers/nvidia.py:462-495 | One field's value, with the reason it is unavailable under its key exactly when it is |
| NvidiaSmi.NvidiaSmiReader.Sample | src/sweatmeter/readers/nvidia.py:290-323 | After a call a field key of a returned device is in the reasons exactly when that field is unavailable, no other device has keys, and no samples means a gpu reason |
| Nvml.LedgerBalances | src/sweatmeter/readers/nvml.py:286-290 | Over any admissible sequence of calls, successful inits are shutdown attempts plus one while initialized |
| Nvml.NothingWhileUninitialized | src/sweatmeter/readers/nvml.py:296-330 | Every query and every shutdown was issued while exactly one init was open |
| Nvml.NvmlGpuReader.constructor | src/sweatmeter/readers/nvml.py:266-270 | Nothing is called at construction |
| Nvml.NvmlGpuReader.Close | src/sweatmeter/readers/nvml.py:286-290 | One shutdown exactly if initialized, none otherwise, and the ledger stays admissible |
| Nvml.NvmlGpuReader.Ready | src/sweatmeter/readers/nvml.py:393-417 | Serves exactly when already initialized or loading and init succeed now; at most one init is issued, and a failure leaves the reader free to retry with a gpu reason |
| Nvml.NvmlGpuReader.Available | src/sweatmeter/readers/nvml.py:296-310 | True exactly when initialized with a positive device count, and a gpu reason otherwise |
| Nvml.NvmlGpuReader.Memory | src/sweatmeter/readers/nvml.py:434-448 | Both figures, each with a reason exactly when it is unavailable |
| Nvml.NvmlGpuReader.ThrottleReasons | src/sweatmeter/readers/nvml.py:479-507 | The report of the two masks, with a reason when availability is unknown |
| Nvml.NvmlGpuReader.SampleDevice | src/sweatmeter/readers/nvml.py:509-591 | One device's sample, and diagnostic keys for exactly its gaps and a failed UUID call |
| Nvml.NvmlGpuReader.Sample | src/sweatmeter/readers/nvml.py:312-330 | The addressable devices in index order; a field key exists exactly when that field is unavailable, a device key exactly when its handle raised, and no samples means a gpu reason |
| Nvml.NvmlGpuReader.StaticInfo | src/sweatmeter/readers/nvml.py:332-375 | Keeps the ledger admissible and ends initialized exactly if it could serve |
| Units.NvmlUnits | src/sweatmeter/readers/nvml.py:509-573 | Each field from its own driver answer: used and total, GPU and memory rate, milliwatts over 1000, percentages to 100, temperatures from -273.15, all else from 0 |
| Units.NvmlThrottling | src/sweatmeter/readers/nvml.py:479-507 | Each of the eight reasons is active exactly if both masks have its bit, and availability is a non-empty supported mask |
| Units.SmiUnits | src/sweatmeter/readers/nvidia.py:462-495 | Each field from the cell of its column, percentages to 100, all else from 0, memory as whole bytes of 1048576 per MiB |
| Units.SmiIndex | src/sweatmeter/readers/nvidia.py:423-437 | A row belongs to device i exactly if its index cell is text that reads as i, from zero on |
| Units.SmiThrottling | src/sweatmeter/readers/nvidia.py:509-531 | A reason is active exactly if its cell says so; availability is some cell saying active or not; without a row there is neither |
| Nvml.NvmlSamplesIncrease | src/sweatmeter/readers/nvml.py:323-330 | The samples are strictly increasing by index, below the device count |
| Throttle.BackendsAgreeOnThrottling | src/sweatmeter/readers/nvml.py:479-507 | When cells say what the masks say, missing and empty masks included, both backends report the same reason set, and the same availability exactly unless the supported bits are all unknown, where NVML alone claims to know that none is active |
| Backends.SamplesAreTwins | src/sweatmeter/readers/nvml.py:509-591 | The samples both backends build for one device have the same readings and reason set, and differ in availability exactly under a mask of unknown bits |
| Backends.NvmlFinds | src/sweatmeter/readers/nvml.py:312-330 | The window finds a device in an NVML call's samples exactly if it is counted and addressable, and finds its own sample |
| Backends.SmiFinds | src/sweatmeter/readers/nvidia.py:290-323 | The window finds a device in a command call's samples exactly if a core row carries its index, joined with the throttle row of that index |
| WindowVerdict.TwinsGetTheSameVerdictIff | src/sweatmeter/window.py:231-251 | Sample runs that differ only in reason order and in availability without reasons get the same state, and the same verdict exactly unless availability differs and matters |
| Backends.WindowsTellBackendsApartIff | src/sweatmeter/window.py:231-251 | One machine recorded through both backends, any masks, any order of snapshots: same verdict state always; whole verdicts differ exactly if some mask has only unknown bits and a reason was active or the driver's constant availability is what rules throttling out |
| Backends.WindowsCannotTellBackendsApart | src/sweatmeter/window.py:231-251 | Without such a mask the whole verdicts of the two recordings are equal |
| Backends.UnknownBitsAreSeenDifferently | src/sweatmeter/readers/nvml.py:496-507 | A run of one machine whose NVML window is 0.95 sure of a driver-reported absence of throttling while the command's window says 0.6, no drop |
| Throttle.ReadCells | src/sweatmeter/readers/nvidia.py:509-531 | The loop reports the active columns in order, and availability exactly when some cell is recognized |
| Normalizer.NormalizeReadings | src/sweatmeter/collector.py:351-358 | Raises exactly on an integer too large for a float; otherwise each reading is kept if in the range of its field, and each missing one gets a reason without disturbing others |
| Normalizer.NormalizeGpuSamples | src/sweatmeter/collector.py:334-380 | The loop yields the first valid sample of every index in index order, and every key of the diagnostics is determined: rejected positions, duplicates, and missing readings |
| Normalizer.SortedNormalEntries | src/sweatmeter/collector.py:359-380 | Normalizing before sorting equals sorting before normalizing |
| Collector.ReadHost | src/sweatmeter/collector.py:224-290 | Each raising or malformed host operation marks exactly the fields it feeds |
| Collector.CollectOnce | src/sweatmeter/collector.py:233-332 | Raises exactly when a step between the boundaries does; otherwise every field and every diagnostic key of the snapshot is determined by the boundaries' answers |
| Collector.TelemetryCollector.Snapshot | src/sweatmeter/collector.py:142-160 | Always returns a snapshot, and the collector's diagnostics are the snapshot's |
| Units.HostUnits | src/sweatmeter/collector.py:236-310 | Each of the nine host fields from the answer that feeds it, CPU to 100, temperature from -273.15, all else from 0; the timestamp of a good clock, the epoch of a raising one |
| Units.GpuUnits | src/sweatmeter/collector.py:351-379 | Each of the eleven readings from the field of its name, percentages to 100, temperatures from -273.15, all else from 0; blank UUIDs dropped |
| Units.GpuReasons | src/sweatmeter/collector.py:373-377 | Exactly the non-empty reason texts are kept |
| Units.EmergencyUnits | src/sweatmeter/collector.py:150-157 | A broken collection leaves every host field unsupported, no GPU, the fallback instant and the single diagnostic |
| CollectorLaws.AnswersDecide | src/sweatmeter/collector.py:142-160 | Equal answers give equal snapshots, diagnostics included |
| CollectorLaws.EverySnapshotIsInRange | src/sweatmeter/collector.py:63-77 | Every number of every snapshot lies in the declared range of its field, and the GPU list is canonical |
| CollectorLaws.ExplainedIffNotBroken | src/sweatmeter/collector.py:142-147 | Every unsupported host field, every unsupported GPU reading and an empty GPU list have a reason exactly when no step between the boundaries raised |
| CollectorLaws.OneLargeIntegerCostsTheSnapshot | src/sweatmeter/collector.py:71-72 | A concrete collection in which a well-read field ends unsupported and unexplained |
| CollectorLaws.FaultsAreIsolated | src/sweatmeter/collector.py:176-190 | Let any set of operations raise: what the others feed equals the fault-free run in value and reason, what these feed is unsupported with a reason, a failing diagnostics call costs only the keys it would have reported, and an unbroken collection stays unbroken |
| CollectorLaws.NormalizedIsCanonical | src/sweatmeter/collector.py:334-380 | Whatever comes in, one well-formed sample per device comes out, strictly increasing by index |
| CollectorLaws.UnchangedIffCanonical | src/sweatmeter/collector.py:334-380 | Exactly the canonical sample lists pass unchanged |
| CollectorLaws.NormalizingIsIdempotent | src/sweatmeter/collector.py:334-380 | Normalizing twice is normalizing once |
| CollectorLaws.SamplesNeverBreak | src/sweatmeter/collector.py:334-380 | A reader's own samples never make the normalizer raise |
| CollectorLaws.SmiSamplesAreCanonical | src/sweatmeter/readers/nvidia.py:290-323 | The command backend's samples are canonical, so the normalizer is the identity on them |
| CollectorLaws.NvmlSamplesAreCanonical | src/sweatmeter/readers/nvml.py:225-242 | The NVML backend's samples are canonical, so the normalizer is the identity on them |
| GpuPipeline.OnlyTheHostBreaks | src/sweatmeter/collector.py:292-315 | With either reader behind it, a collection breaks only through the host's answers |
| GpuPipeline.SmiReachesSnapshot | src/sweatmeter/collector.py:292-317 | Given what the command backend's call leaves behind, the snapshot holds its samples and its device diagnostics name exactly what they lack |
| GpuPipeline.NvmlReachesSnapshot | src/sweatmeter/collector.py:292-317 | Given what the NVML backend's call leaves behind, the snapshot holds its samples and its device diagnostics name exactly its gaps |
| GpuPipeline.SnapshotThroughSmi | src/sweatmeter/collector.py:292-317 | The reader's call followed by the collection, from the command's answers to the snapshot |
| GpuPipeline.SnapshotThroughNvml | src/sweatmeter/collector.py:292-317 | The reader's call followed by the collection, from the driver's answers to the snapshot, with the library ledger kept |
| CollectorLaws.BackendReachesSnapshot | src/sweatmeter/collector.py:292-317 | A canonical backend that explains its gaps reaches the snapshot unaltered: same samples, same diagnostics about its devices |

## Left out

- Iterator liveness: false of the code, as `SamplerTheorems.StrandedIsReachable` shows; only safety and what a return means are proved.
- Whether the sampler runs after start(): start() is a no-op while a stopping worker is still alive, so it is not promised.
- A thread that cannot be started, and interpreter exit with a daemon thread.
- Schedule laws assume a clock that never goes back and a wait that lasts at least its timeout; the fallback from an injected clock to the standard one is not modelled.
- Sampler and window argument validation (interval, buffer size, timeout, device index, metric names).
- The text of a driver-reported reason: a verdict carries the set of active reasons, not their joined names.
- Floating-point rounding: figures are over reals; not-a-number and infinity appear only as "not finite".
- Wall-clock fallback: the standard clock's instant is a parameter, and an aware timestamp is a real.
- File reading, globbing, subprocesses, csv, regular expressions, case folding, UTF-8, integer and float parsing: tokens, cells, a device-name predicate and a path-to-text map are inputs. Path ordering is lexicographic order on the path's text.
- NVML error codes: the mapping from exception names to codes is collapsed to one; which keys carry a reason is proved, which code they carry is stated for the collector and for each step of the command backend only.
- Sampler.TelemetrySampler.RequestStop: the wake-up of waiting iterators and the join are steps of the protocol, not of the method.
- Sampler.TelemetrySampler.Publish: the wake-up of waiting iterators and the callback are steps of the protocol, not of the method.
- An NVML binding that lacks a function other than its initializer, where the attempt is recorded without a call.
- Nvml.NvmlGpuReader.StaticInfo: states its effect on the ledger only; names, versions and profiles are easy members.
- Static GPU info and availability of the command backend, load average, process memory, cpuinfo, block devices and host facts: parsing of the same kind as what is modelled.
- Machine profiles and their fingerprint, platform selection, the stubs for other systems, logging and the testing helpers.
- Locking of the collector: its calls are serialized, so they are modelled one at a time.
