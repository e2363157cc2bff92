# TripNDroid hotplug governor, run-queue statistics, MSENC firmware loader and vibrator: a Dafny model

This project models four pieces of the TripNDroid kernel for the HTC One X (Tegra 3), proving properties of each.

- **Run-queue statistics** (module `RqStats`). Per-CPU counters hold a time-weighted integral of each CPU's runnable-thread count. `sched_update_nr_prod` folds the time since that CPU's last event into its counter. `sched_get_nr_running_avg` drains every counter and returns the average since the previous poll, in hundredths of a thread.
  - The counters are a class over three arrays plus `last_get_time`.
  - The `sched_clock` readings are method arguments.
  - A ghost field records that the clock never goes back.
- **Hotplug governor** (modules `HotplugPolicy` and `Hotplug`). Each 100 ms tick the governor does three things:
  - maps the load average to a target CPU count (`calculate_load`);
  - decides UP, DOWN or IDLE from run-queue, dwell-time and target gates (`mp_decision`);
  - switches one CPU, guarded by per-CPU records that must agree with the online mask (`tripndroid_hp_wt`).

  Early suspend takes the secondary CPUs offline and late resume brings them back. `HotplugPolicy` states each step as a function on a snapshot of the governor's state and proves its properties there. `Hotplug.Governor` performs the same steps in place, on the driver's statics and per-CPU arrays, and is proved to agree with those functions.
- **MSENC firmware handling** (module `Msenc`):
  - the firmware name chosen from the major version;
  - the little-endian word copy of the ucode image into the driver's buffer;
  - the ordered header checks, and the OS layout recorded on success;
  - the idle-wait countdowns;
  - the sequence of 256-byte DMA transfers that boots the engine.
- **Vibrator** (module `Vibrator`): the duty-cycle clamp, the enable call that starts the motor with a one-shot timer or stops it, the ms → (s, ns) timer split, and the duty resets at probe and resume.

External inputs become parameters:
- readings of `ktime_get` and `sched_clock`;
- `avg_nr_running()` and the `sched_get_nr_running_avg` result the governor reads;
- `FSHIFT`, `powersaving_active` and `nr_run_hysteresis` (in `HotplugPolicy.Tunables`);
- the CPU clock rate (`Option<nat>`, `None` when there is no clock);
- the outcome of `mutex_trylock`;
- the MSENC register reads, as a function from poll number to the value read.

`cpu_up` always succeeds. `cpu_down` succeeds for every CPU except the boot CPU, which the platform refuses to take offline (the Tegra platform hotplug code is not part of this model).

Behaviour of the code worth noting:
- **Down gate.** It is `online > 1`; `min_cpus` is never read.
- **DOWN can pick CPU 0.** This happens when the slowest-CPU scan finds no slower secondary CPU, for example when the clock rate reads 0. The record is then cleared even though the CPU stays online.
- **Records ignore `cpu_up`/`cpu_down` results.** A record is set whatever the call returns.
- **Direction of the hysteresis margin.** It is added to a threshold when the previous target is at most the candidate count, not at least. Its effect is that a higher previous target never gives a lower new target (`LoadTargetMonotoneInLast`).
- **Two different load figures.** The target count comes from `avg_nr_running()`. The run-queue gates compare the `sched_get_nr_running_avg` result.
- **No clock, no governor.** When the clock lookup fails, `tripndroid_hp_init` returns −ENOENT before any tick is scheduled (tdf_hotplug.c:364-367). The `None` clock input, for which `cpu_getspeed` returns 0, is therefore unreachable while the governor runs; it is kept only to follow the NULL test in `cpu_getspeed`. A clock that reads a rate of 0 is reachable and has the same effect.
- **DISABLED is unreachable.** Nothing in the source sets `state` to DISABLED; the model handles it everywhere and, like the source, never enters it.

## Model

| member | source | states |
|---|---|---|
| RqStats.DrainedPendingIsZero | drivers/tripndroid/sched_management/tdf_rq_stats.c:56-66 | counters with no product, all stamped at the poll time, hold no integral |
| RqStats.PendingUpdateAt | drivers/tripndroid/sched_management/tdf_rq_stats.c:87-93 | replacing one CPU's counters changes the system integral by exactly that CPU's own term |
| RqStats.PendingAfterEvent | drivers/tripndroid/sched_management/tdf_rq_stats.c:87-93 | an event on one CPU changes the integral by the new count's term minus the one the old count would have contributed |
| RqStats.PendingGrowsWithTime | drivers/tripndroid/sched_management/tdf_rq_stats.c:60-62 | folded up to a later time, the integral is never smaller |
| RqStats.Average | drivers/tripndroid/sched_management/tdf_rq_stats.c:68 | the reported value is floor(integral·100/elapsed), and 0 when no time elapsed |
| RqStats.ProductAsWritten | drivers/tripndroid/sched_management/tdf_rq_stats.c:83-93 | the increment as computed in 32-bit arithmetic: below 2^32, and exact only when the true product is below 2^32 |
| RqStats.ProductFitsExactly | drivers/tripndroid/sched_management/tdf_rq_stats.c:83-93 | when the true product is below 2^32, truncating `diff` and the product to 32 bits loses nothing |
| RqStats.ProductWrapsAfterThreeSeconds | drivers/tripndroid/sched_management/tdf_rq_stats.c:83-93 | 2 threads over 3·10^9 ns yield 1705032704 instead of 6·10^9 |
| RqStats.RunQueueStats.constructor | drivers/tripndroid/sched_management/tdf_rq_stats.c:27-31 | the per-CPU counters and `last_get_time` start at zero |
| RqStats.RunQueueStats.GetNrRunningAvg | drivers/tripndroid/sched_management/tdf_rq_stats.c:42-69 | no elapsed time: returns 0 and changes nothing; otherwise returns Average of the integral up to now, zeroes every product, stamps every CPU and `last_get_time` with now, leaving no integral |
| RqStats.RunQueueStats.Drain | drivers/tripndroid/sched_management/tdf_rq_stats.c:56-66 | the sum is the integral of all CPUs up to now, and afterwards every product is 0, every stamp is now and no integral is left |
| RqStats.RunQueueStats.UpdateNrProd | drivers/tripndroid/sched_management/tdf_rq_stats.c:81-95 | only the given CPU changes: stamp := now, count := nr_running ± 1, product += nr_running·elapsed (never decreasing); exact integral accounting, unchanged integral when the argument equals the stored count |
| RqStats.PollTwice | drivers/tripndroid/sched_management/tdf_rq_stats.c:42-69 | a second poll at the same clock reading returns 0 and the first leaves nothing behind |
| HotplugPolicy.CpuGetSpeed | drivers/tripndroid/cpu_management/tdf_hotplug.c:90-99 | 0 past max_cpus or without a clock, else the rate in kHz rounded down |
| HotplugPolicy.GetSlowestCpu | drivers/tripndroid/cpu_management/tdf_hotplug.c:102-126 | result is 0 or an online CPU in [1, max_cpus); with positive rates it has the minimum online rate and ties go to the higher index, 0 meaning CPU 0 is strictly slowest; with zero rates it is 0 |
| HotplugPolicy.HighestOnlineBelow | drivers/tripndroid/cpu_management/tdf_hotplug.c:107-124 | the highest online CPU in [1, n), or 0 when none is |
| HotplugPolicy.DownTarget | drivers/tripndroid/cpu_management/tdf_hotplug.c:258-259 | the CPU a DOWN tick acts on is 0 or online, and with a running clock no higher CPU is online |
| HotplugPolicy.NextOfflineFrom | drivers/tripndroid/cpu_management/tdf_hotplug.c:273 | the lowest offline CPU at or after i, or the mask length |
| HotplugPolicy.NextOffline | drivers/tripndroid/cpu_management/tdf_hotplug.c:273 | the lowest offline CPU ≥ 1, or NR_CPUS when all are online |
| HotplugPolicy.CountOnline | drivers/tripndroid/cpu_management/tdf_hotplug.c:193 | at most the number of CPUs, and 0 exactly when none is online |
| HotplugPolicy.CountOnlineUpdate | drivers/tripndroid/cpu_management/tdf_hotplug.c:258-285 | setting one online bit changes the count by exactly that bit's change |
| HotplugPolicy.NrFshift | drivers/tripndroid/cpu_management/tdf_hotplug.c:134-141 | nr_fshift is 3 (so 1 << nr_fshift is 8) in normal mode and 1 (so 2) in power-saving mode |
| HotplugPolicy.Shl32 | drivers/tripndroid/cpu_management/tdf_hotplug.c:152 | the shifted threshold, like the `unsigned int` shift, is below 2^32 |
| HotplugPolicy.Level | drivers/tripndroid/cpu_management/tdf_hotplug.c:146-152 | the level for count k is threshold k−1, plus the hysteresis margin when nr_run_last ≤ k, shifted left by FSHIFT − nr_fshift in 32 bits |
| HotplugPolicy.LoadSearch | drivers/tripndroid/cpu_management/tdf_hotplug.c:143-154 | the search from k ends in [k, table length], and below the table length only at a count whose level the load does not exceed |
| HotplugPolicy.LoadSearchStep | drivers/tripndroid/cpu_management/tdf_hotplug.c:143-154 | one loop iteration: with the threshold the loop computes, the search stops at k when the load is within the shifted threshold and otherwise goes on from k + 1 |
| HotplugPolicy.LoadTarget | drivers/tripndroid/cpu_management/tdf_hotplug.c:128-158 | the target is between 1 and the table length: [1, 4] in normal mode, [1, 2] in power-saving mode |
| HotplugPolicy.LoadSearchMonotoneInLast | drivers/tripndroid/cpu_management/tdf_hotplug.c:143-154 | without 32-bit wrap, a higher previous target never makes the search from k stop earlier |
| HotplugPolicy.TargetTable | drivers/tripndroid/cpu_management/tdf_hotplug.c:134-141 | four entries in normal mode, two in power-saving mode |
| HotplugPolicy.HysteresisBonus | drivers/tripndroid/cpu_management/tdf_hotplug.c:151 | the margin is (1 << nr_fshift) / nr_run_hysteresis |
| HotplugPolicy.DefaultHysteresisBonus | drivers/tripndroid/cpu_management/tdf_hotplug.c:134-151 | with nr_run_hysteresis = 4 the margin is 2 in normal mode and 0 in power-saving mode |
| HotplugPolicy.LoadSearchIsFirstFit | drivers/tripndroid/cpu_management/tdf_hotplug.c:143-154 | the search from k stops at the first count whose level the load does not exceed, or at the table length |
| HotplugPolicy.LoadTargetIsFirstFit | drivers/tripndroid/cpu_management/tdf_hotplug.c:128-158 | the target is in [1, 4] (normal) or [1, 2] (power saving), is the smallest count whose level is not exceeded, else the table length |
| HotplugPolicy.KernelShiftFits | drivers/tripndroid/cpu_management/tdf_hotplug.c:150-152 | with FSHIFT 11 and nr_run_hysteresis 4 no shifted level wraps, in either mode |
| HotplugPolicy.LevelAntitoneInLast | drivers/tripndroid/cpu_management/tdf_hotplug.c:150-152 | without 32-bit wrap, a higher previous target never raises a level |
| HotplugPolicy.LoadTargetMonotoneInLast | drivers/tripndroid/cpu_management/tdf_hotplug.c:143-155 | the hysteresis is sticky: a higher previous target never gives a lower new target |
| HotplugPolicy.TableIndex | drivers/tripndroid/cpu_management/tdf_hotplug.c:196-197 | the row index 2·(online−1) is even, and it and the index after it lie inside both threshold tables |
| HotplugPolicy.UpGate | drivers/tripndroid/cpu_management/tdf_hotplug.c:198 | the up gate holds only below max_cpus with a run-queue figure of at least 12, and holds whenever online < max_cpus and the figure is at least 25 |
| HotplugPolicy.DownGate | drivers/tripndroid/cpu_management/tdf_hotplug.c:204 | the down gate holds only with at least 2 CPUs online and a figure of at most 18, and holds whenever 2 CPUs are online and the figure is at most 7 |
| HotplugPolicy.Decide | drivers/tripndroid/cpu_management/tdf_hotplug.c:196-221 | UP iff online in range, online < max_cpus, run ≥ NwNs[2(online−1)], dwell ≥ TwTs of that row and online < target; DOWN iff the up gate fails, online > 1, run ≤ NwNs[index+1], dwell ≥ TwTs[index+1] and online > target; the dwell becomes 0 after a transition, with no gate or with no CPU online, and is kept otherwise |
| HotplugPolicy.DecisionStep | drivers/tripndroid/cpu_management/tdf_hotplug.c:160-226 | DISABLED in iff DISABLED out; both early exits change nothing; the mask, records, stamps, state, was_paused and suspend flag are kept; UP only below max_cpus and below the new target, DOWN only above 1 CPU and above the new target |
| HotplugPolicy.DecisionStepDecides | drivers/tripndroid/cpu_management/tdf_hotplug.c:166-226 | the warm-up exit decides IDLE; past it `initial` is cleared, `last_time` takes the closing reading, `nr_run_last` is LoadTarget of the load and the old target, and the decision and the new dwell counter are Decide of the online count, the run-queue figure, the dwell plus the elapsed time (none on the first call) and the new target; a transition resets the dwell |
| HotplugPolicy.Switched | drivers/tripndroid/cpu_management/tdf_hotplug.c:262-276 | cpu_up sets the CPU's bit; cpu_down clears it except for the boot CPU; no other bit changes |
| HotplugPolicy.Actuate | drivers/tripndroid/cpu_management/tdf_hotplug.c:258-285 | record and mask agreeing on !want: record := want, mask switched, UP stamps on_time, the count moves by one (none for CPU 0 down); disagreeing: only was_paused set; both already want: nothing changes; other CPUs untouched |
| HotplugPolicy.ActStep | drivers/tripndroid/cpu_management/tdf_hotplug.c:258-284 | only UP and DOWN switch anything; the count falls by one only on DOWN and rises by one only on UP; a CPU whose online bit changed has a matching record; the state, dwell and target are kept |
| HotplugPolicy.ActStepSwitchesTarget | drivers/tripndroid/cpu_management/tdf_hotplug.c:258-284 | only the target CPU changes; DOWN on DownTarget with record and mask online clears the record and takes the CPU down (CPU 0 stays online); UP on the lowest offline secondary CPU with its record offline sets record and bit and stamps on_time; a record that disagrees with the mask only sets was_paused; UP with every CPU online changes nothing |
| HotplugPolicy.ResyncStep | drivers/tripndroid/cpu_management/tdf_hotplug.c:243-251 | a paused governor copies the online mask into the records and clears was_paused; nothing else changes |
| HotplugPolicy.TickStep | drivers/tripndroid/cpu_management/tdf_hotplug.c:228-297 | re-arms iff the state is not DISABLED, and DISABLED is kept and never entered; a skipped tick changes nothing; the count moves by at most one, falls only on DOWN from more than 1 CPU and above the new target, and rises only on UP below the new target; a CPU whose online bit changed has a matching record; a DISABLED tick switches no CPU |
| HotplugPolicy.TickDecides | drivers/tripndroid/cpu_management/tdf_hotplug.c:228-297 | a tick that runs stores mp_decision's result as the new state: IDLE with the dwell kept during warm-up, else the new target is LoadTarget and the state and dwell are Decide's verdict on the old mask, the dwell plus elapsed time and that target |
| HotplugPolicy.TickSwitchesOnlyTarget | drivers/tripndroid/cpu_management/tdf_hotplug.c:243-284 | every CPU other than the one the decision names keeps its online bit and stamp, and its record becomes the online bit when the governor was paused, else stays |
| HotplugPolicy.SuspendedGovernorSkipsTicks | drivers/tripndroid/cpu_management/tdf_hotplug.c:234-241 | after early suspend every tick exits at the suspend test; after late resume a tick exits only for the warm-up reading or a failed trylock |
| HotplugPolicy.SuspendStep | drivers/tripndroid/cpu_management/tdf_hotplug.c:300-318 | suspend flag 1 when it was 0; CPUs 1..NR−1 offline with records false; CPU 0 untouched, at most one CPU online |
| HotplugPolicy.ClearSecondaries | drivers/tripndroid/cpu_management/tdf_hotplug.c:300-318 | CPU 0 kept, every other entry false |
| HotplugPolicy.ResumeCpus | drivers/tripndroid/cpu_management/tdf_hotplug.c:325-330 | 2 CPUs when powersaving_active is 1, else NR_CPUS |
| HotplugPolicy.ResumeStep | drivers/tripndroid/cpu_management/tdf_hotplug.c:320-344 | suspend flag 0; CPUs 1..max−1 online with records true and stamped; CPU 0 and CPUs from max on unchanged |
| HotplugPolicy.SetSecondaries | drivers/tripndroid/cpu_management/tdf_hotplug.c:320-344 | CPU 0 kept, CPUs 1..n−1 set, the rest kept |
| HotplugPolicy.StampSecondaries | drivers/tripndroid/cpu_management/tdf_hotplug.c:320-344 | CPU 0 kept, CPUs 1..n−1 stamped with the given time, the rest kept |
| Hotplug.SharedRates | drivers/tripndroid/cpu_management/tdf_hotplug.c:90-99 | every CPU reports the speed of the one shared CPU clock |
| Hotplug.SharedClockPicksDownTarget | drivers/tripndroid/cpu_management/tdf_hotplug.c:102-126 | on one shared clock the slowest-CPU scan's result is exactly DownTarget |
| Hotplug.Governor.constructor | drivers/tripndroid/cpu_management/tdf_hotplug.c:369-373 | state IDLE, `initial` set, counters 0, every record online, was_paused set, the given online mask |
| Hotplug.Governor.CalculateLoad | drivers/tripndroid/cpu_management/tdf_hotplug.c:128-158 | returns LoadTarget of the load and the previous target, and stores it in nr_run_last |
| Hotplug.Governor.MpDecision | drivers/tripndroid/cpu_management/tdf_hotplug.c:160-226 | the decision and new statics are exactly DecisionStep of the old state |
| Hotplug.Governor.ApplyGates | drivers/tripndroid/cpu_management/tdf_hotplug.c:196-221 | the decision and the new dwell counter are exactly Decide of the old counter |
| Hotplug.Governor.Resync | drivers/tripndroid/cpu_management/tdf_hotplug.c:243-249 | every record equals the online mask |
| Hotplug.Governor.SwitchCpu | drivers/tripndroid/cpu_management/tdf_hotplug.c:262-276 | the online mask becomes Switched of the old one |
| Hotplug.Governor.Act | drivers/tripndroid/cpu_management/tdf_hotplug.c:258-285 | the new state is Actuate of the old |
| Hotplug.Governor.Tick | drivers/tripndroid/cpu_management/tdf_hotplug.c:228-297 | the new state and the re-arm flag are exactly TickStep of the old state |
| Hotplug.Governor.ActOnDecision | drivers/tripndroid/cpu_management/tdf_hotplug.c:258-284 | the new state is ActStep of the old |
| Hotplug.Governor.EarlySuspend | drivers/tripndroid/cpu_management/tdf_hotplug.c:300-318 | the new state is SuspendStep of the old |
| Hotplug.Governor.OfflineSecondaries | drivers/tripndroid/cpu_management/tdf_hotplug.c:300-318 | online mask and records become ClearSecondaries of the old ones |
| Hotplug.Governor.LateResume | drivers/tripndroid/cpu_management/tdf_hotplug.c:320-344 | the new state is ResumeStep of the old |
| Hotplug.Governor.OnlineSecondaries | drivers/tripndroid/cpu_management/tdf_hotplug.c:320-344 | online mask and records become SetSecondaries, on_time StampSecondaries, of the old ones |
| Msenc.FwName | drivers/video/tegra/host/msenc/msenc.c:43-64 | a name iff the allocation succeeds and the major version is 2; the name is "nvhost_msenc02.fw" and fits the 32-byte buffer |
| Msenc.DecodeLE32 | drivers/video/tegra/host/msenc/msenc.c:188 | the word's low byte is the first byte and its high byte the fourth |
| Msenc.DecodeEncodeLE32 | drivers/video/tegra/host/msenc/msenc.c:188 | decoding the little-endian bytes of a word gives the word |
| Msenc.EncodeDecodeLE32 | drivers/video/tegra/host/msenc/msenc.c:188 | encoding a decoded word gives the four bytes back |
| Msenc.DecodeWords | drivers/video/tegra/host/msenc/msenc.c:187-188 | floor(size/4) words, word w decoded from bytes 4w..4w+3 |
| Msenc.DecodeEncodeWords | drivers/video/tegra/host/msenc/msenc.c:187-188 | decoding an encoded image returns its words, ignoring a trailing partial word |
| Msenc.CopiedImage | drivers/video/tegra/host/msenc/msenc.c:186-188 | the buffer holds the decoded words, then its previous contents |
| Msenc.CopyImage | drivers/video/tegra/host/msenc/msenc.c:186-188 | the buffer becomes CopiedImage of its old contents |
| Msenc.ReadBinHeader | drivers/video/tegra/host/msenc/msenc.c:190 | the bin header's six fields are the image's first six words, in order |
| Msenc.OsHeaderFits | drivers/video/tegra/host/msenc/msenc.c:219-220 | when it holds, the 16-byte OS header at os_bin_header_offset lies inside the image |
| Msenc.ReadOsHeader | drivers/video/tegra/host/msenc/msenc.c:219-220 | the offset is word-aligned and the four OS header fields are the four words at offset/4 |
| Msenc.SetupError | drivers/video/tegra/host/msenc/msenc.c:192-207 | −ENOENT iff magic right and version wrong; −EINVAL iff magic wrong, or version right and declared size > file size; 0 iff all checks pass |
| Msenc.OsFromImage | drivers/video/tegra/host/msenc/msenc.c:219-238 | size and data offset from the bin header, code offset, data offset and data size from the OS header at os_bin_header_offset |
| Msenc.Engine.constructor | drivers/video/tegra/host/msenc/msenc.c:318 | the zero-filled `os` fields |
| Msenc.Engine.SetupUcodeImage | drivers/video/tegra/host/msenc/msenc.c:177-241 | the buffer is the copied image; the result is SetupError of it; on success `os` is OsFromImage, on failure unchanged |
| Msenc.EffectiveTimeout | drivers/video/tegra/host/msenc/msenc.c:109-110 | a zero timeout becomes the 10000 default; the budget is positive |
| Msenc.PollCount | drivers/video/tegra/host/msenc/msenc.c:112-120 | the number of polls is the least n with 10n ≥ the budget |
| Msenc.FirstIdleFrom | drivers/video/tegra/host/msenc/msenc.c:112-117 | the first poll in [k, n) that reads idle, or none when no poll does |
| Msenc.PollIdle | drivers/video/tegra/host/msenc/msenc.c:66-86 | 0 at the first idle read k, leaving budget − 10k > 0; −1 with the timeout counted down to 0 when no read is idle |
| Msenc.WaitIdle | drivers/video/tegra/host/msenc/msenc.c:107-123 | 0 iff some poll reads an idle-state word of 0, else −1 with the timeout at 0 |
| Msenc.ChunkCount | drivers/video/tegra/host/msenc/msenc.c:136 | the least number of 256-byte chunks covering data_size |
| Msenc.DataChunks | drivers/video/tegra/host/msenc/msenc.c:136-139 | chunk i has internal offset 256·i < data_size and 32-bit source data_offset + 256·i; every byte below data_size lies in chunk byte/256 |
| Msenc.Boot | drivers/video/tegra/host/msenc/msenc.c:125-175 | the data chunks in order, then one imem transfer of the code at 0; result 0 iff the final default-timeout wait sees idle, else −1 |
| Msenc.WrapStep | drivers/video/tegra/host/msenc/msenc.c:136 | the 32-bit step adds 256 when no wrap occurs |
| Msenc.AsWrittenChunkLoopNeverExits | drivers/video/tegra/host/msenc/msenc.c:136-139 | with data_size > 0xFFFFFF00 every multiple of 256 passes the guard, the step keeps it a multiple of 256, and 0xFFFFFF00 steps to 0 |
| Vibrator.ClampDuty | drivers/misc/tripndroid_vibrator.c:144-147 | the duty is in [0, 50000], equal to the value inside that range, 50000 above and 0 below |
| Vibrator.SplitTimeout | drivers/misc/tripndroid_vibrator.c:107 | s·10^9 + ns = ms·10^6 with ns < 10^9 a whole number of ms, and s·1000 + ns/10^6 gives ms back |
| Vibrator.Device.constructor | drivers/misc/tripndroid_vibrator.c:155-238 | duty 36000, timeout 0, lines low, no timer |
| Vibrator.Device.Start | drivers/misc/tripndroid_vibrator.c:66-76 | PWM at the current duty over 50000, enabled, lines high |
| Vibrator.Device.Stop | drivers/misc/tripndroid_vibrator.c:78-90 | PWM at 25000 over 50000, disabled, lines low |
| Vibrator.Device.Enable | drivers/misc/tripndroid_vibrator.c:97-112 | the raw value recorded; positive: started with a timer of SplitTimeout(value); zero or negative: stopped, timer unchanged; the duty stays in range |
| Vibrator.Device.TimerExpired | drivers/misc/tripndroid_vibrator.c:51-64 | lines low, timer gone, motor stopped |
| Vibrator.Device.SetDutycycle | drivers/misc/tripndroid_vibrator.c:140-151 | duty := ClampDuty(value); returns count |
| Vibrator.Device.Suspend | drivers/misc/tripndroid_vibrator.c:253-264 | stopped, timer cancelled, returns 0 |
| Vibrator.Device.Resume | drivers/misc/tripndroid_vibrator.c:266-274 | duty back to 36000, returns 0 |

## Left out

- Locking is not modelled. This covers the per-CPU spinlocks in the run-queue statistics and the governor mutex; the code is taken as sequential, and a failed `mutex_trylock` is an input that skips the tick.
- Scheduling plumbing is not modelled: delayed work, `schedule_delayed_work_on`, `msleep`, `udelay`, hrtimer queuing, work queues and early-suspend registration. The tick's re-arm decision is the returned flag; timer expiry is the method `Vibrator.Device.TimerExpired`.
- `tripndroid_hp_init` is not modelled beyond its effect on the state (the `Hotplug.Governor` constructor). It only does clock lookup and work scheduling.
- HotplugPolicy.StampSecondaries: stamps every CPU late resume brings up with one reading. The source reads `ktime_get` afresh for each CPU (tdf_hotplug.c:343), so its stamps can differ by the time the loop takes; `on_time` is never read for a decision.
- The unused `on_time` subtraction in the DOWN branch is left out, because its result is never read.
- RqStats.Average: the 64-bit arithmetic of `sched_get_nr_running_avg` is not modelled. `tmp_avg * 100` wraps once the integral passes 2^64 / 100 thread-nanoseconds, and the `(int)` cast goes wrong once the average passes 2^31 − 1; the model computes the exact quotient.
- RqStats.RunQueueStats.UpdateNrProd: uses the exact product of count and elapsed time. The 32-bit `int diff` and `unsigned long` product of the ARM build are modelled separately and listed under Findings. Callers must not pass `nr_running = 0` with `inc` false, the case where `nr_running − 1` would wrap.
- `nr_run_hysteresis` must be positive, because the source divides by it; it is always 4. `FSHIFT` must lie in [3, 32], so both shifts stay below the word width.
- HotplugPolicy.LoadTargetMonotoneInLast: holds only when no shifted level wraps around 32 bits. Its precondition `LevelsFit` states this, and `KernelShiftFits` proves it for the kernel's FSHIFT of 11.
- `cpu_up` and `cpu_down` are modelled as succeeding, except that `cpu_down` of the boot CPU takes no effect. Their failure paths are not modelled, because the source ignores their results.
- Msenc.Engine.SetupUcodeImage: requires the OS header offset to be word-aligned and inside the buffer whenever the checks pass. The source reads through the pointer unchecked, and unaligned reads are not modelled.
- The MSENC header layouts come from msenc.h, which is not part of this model. The model assumes that layout: the bin header is the first six words, and the OS header is four words at `os_bin_header_offset`.
- MSENC register writes are modelled only as DMA requests (`Msenc.Transfer`) and not otherwise. This includes the DMA base, interrupt masks, boot vector and CPU start. Also left out are the register-field encodings of `msenc_dmatrf*_f`/`_v` and the chunk transfers' own idle waits, whose results the source discards.
- `msenc_dma_wait_idle` is `Msenc.PollIdle` with `idle(k)` meaning that the k-th `dmatrfcmd` read has its idle field set. `msenc_wait_idle` is `Msenc.WaitIdle`.
- `decode_msenc_ver` is not modelled; the major version is an input to `Msenc.FwName`.
- Firmware requests are not modelled: `msenc_read_ucode` and its memory-manager alloc/pin/mmap and cleanup, `nvhost_msenc_init`/`deinit`, driver registration, and suspend/resume. These are kernel service calls.
- Vibrator GPIO and PWM calls are represented only by the PWM configuration and the high/low state of the lines. GPIO requests, `tegra_gpio_enable`, probe's error unwinding and `vibrator_remove` are kernel service calls and are left out.
- `vibrator_get_time` and `show_dutycycle` are left out. They only read `hrtimer_get_remaining` or format `pwm_duty` for sysfs.
- `simple_strtol` parsing is not modelled; `set_dutycycle` takes the parsed value.
- The td_framework sysfs attributes are not modelled; `powersaving_active` and `nr_run_hysteresis` are inputs.

## Findings

| source | as written | input that shows it | evidently intended | confidence | as-written member | corrected member |
|---|---|---|---|---|---|---|
| drivers/tripndroid/sched_management/tdf_rq_stats.c:83-93 | `int diff` and `nr_running * diff` evaluated in 32-bit `unsigned long` on the ARM build, so the increment is taken modulo 2^32 | nr_running = 2 and 3·10^9 ns since the CPU's last event: 1705032704 is added instead of 6·10^9 | the exact product folded into the 64-bit `nr_prod_sum` | not executed; medium (compiled for 32-bit ARM) | RqStats.ProductWrapsAfterThreeSeconds | RqStats.RunQueueStats.UpdateNrProd |
| drivers/video/tegra/host/msenc/msenc.c:136-139 | the chunk offset is a `u32` stepped by 256 while below `data_size` | an OS header with data_size = 0xFFFFFF01: every offset passes the guard and 0xFFFFFF00 + 256 wraps to 0, so the loop never ends | one transfer per 256-byte chunk, then stop | not executed; low (needs a malformed firmware header) | Msenc.AsWrittenChunkLoopNeverExits | Msenc.Boot |
