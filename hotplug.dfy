/**
 * The hotplug governor as the driver keeps it: static variables of the
 * decision logic, per-CPU records and the platform's online mask, updated
 * in place by one tick, by early suspend and by late resume. Each method is
 * proved to leave exactly the state that the matching step function of
 * HotplugPolicy describes.
 */
module Hotplug {
  import opened Wrappers
  import opened HotplugPolicy

  /** The rates get_slowest_cpu reads: cpu_getspeed of every CPU, one shared clock. */
  function SharedRates(clockHz: Option<nat>): (rate: seq<nat>)
    ensures |rate| == NrCpus
    ensures forall i :: 0 <= i < NrCpus ==> rate[i] == CpuGetSpeed(0, clockHz)
  {
    seq(NrCpus, i requires 0 <= i < NrCpus => CpuGetSpeed(i, clockHz))
  }

  /** With every CPU on one clock, the slowest-CPU scan picks exactly DownTarget. */
  lemma SharedClockPicksDownTarget(online: seq<bool>, clockHz: Option<nat>, cpu: nat)
    requires |online| == NrCpus
    requires var rate := SharedRates(clockHz);
      && (cpu == 0 || (1 <= cpu < MaxCpus && online[cpu]))
      && (AllOnlineZero(online, rate) ==> cpu == 0)
      && (AllOnlinePositive(online, rate) && cpu != 0 ==>
            forall j :: cpu < j < MaxCpus && online[j] ==> rate[cpu] < rate[j])
      && (AllOnlinePositive(online, rate) && cpu == 0 ==>
            forall j :: 1 <= j < MaxCpus && online[j] ==> online[0] && rate[0] < rate[j])
    ensures cpu == DownTarget(online, clockHz)
  {
    var rate := SharedRates(clockHz);
    var c := DownTarget(online, clockHz);
    if CpuGetSpeed(0, clockHz) == 0 {
      assert AllOnlineZero(online, rate);
    } else {
      assert AllOnlinePositive(online, rate);
      if cpu != 0 {
        assert forall j :: cpu < j < MaxCpus ==> !online[j] by {
          forall j | cpu < j < MaxCpus ensures !online[j] {
            assert rate[cpu] == rate[j];
          }
        }
      } else {
        assert forall j :: 1 <= j < MaxCpus ==> !online[j] by {
          forall j | 1 <= j < MaxCpus ensures !online[j] {
            assert rate[0] == rate[j];
          }
        }
      }
    }
  }

  class Governor {
    var state: Decision
    var initial: bool
    var totalTime: nat
    var lastTime: nat
    var nrRunLast: nat
    var wasPaused: bool
    var suspendState: nat
    /** Per-CPU `online` records. */
    const recOnline: array<bool>
    /** Per-CPU `on_time` records, ms. */
    const recOnTime: array<nat>
    /** The platform's online mask, switched by cpu_up and cpu_down. */
    const cpuOnline: array<bool>

    ghost predicate Valid()
      reads this
    {
      && recOnline.Length == NrCpus
      && recOnTime.Length == NrCpus
      && cpuOnline.Length == NrCpus
      && recOnline != cpuOnline
    }

    ghost function Snapshot(): (g: GovState)
      requires Valid()
      reads this, recOnline, recOnTime, cpuOnline
      ensures WellSized(g)
    {
      GovState(state, initial, totalTime, lastTime, nrRunLast, wasPaused, suspendState,
               recOnline[..], recOnTime[..], cpuOnline[..])
    }

    /**
     * The driver's static initial values together with tripndroid_hp_init's
     * priming: every record says online and the first tick resyncs.
     */
    constructor (mask: seq<bool>)
      requires |mask| == NrCpus
      ensures Valid()
      ensures Snapshot() == GovState(Idle, true, 0, 0, 0, true, 0,
                                     seq(NrCpus, _ => true), seq(NrCpus, _ => 0), mask)
    {
      state := Idle;
      initial := true;
      totalTime := 0;
      lastTime := 0;
      nrRunLast := 0;
      wasPaused := true;
      suspendState := 0;
      recOnline := new bool[NrCpus](_ => true);
      recOnTime := new nat[NrCpus](_ => 0);
      cpuOnline := new bool[NrCpus](i requires 0 <= i < NrCpus => mask[i]);
    }

    /** calculate_load: the counting search, remembered in nr_run_last. */
    method CalculateLoad(avgNrRun: nat, tun: Tunables) returns (nrRun: nat)
      requires ValidTunables(tun)
      modifies this`nrRunLast
      ensures nrRun == LoadTarget(avgNrRun, tun, old(nrRunLast))
      ensures nrRunLast == nrRun
    {
      var last := nrRunLast;
      var fshift := NrFshift(tun.powersaving);
      var thresholds := TargetTable(tun.powersaving);
      nrRun := 1;
      while nrRun < |thresholds|
        invariant 1 <= nrRun <= |thresholds|
        invariant LoadSearch(avgNrRun, tun, last, nrRun) == LoadTarget(avgNrRun, tun, last)
        decreases |thresholds| - nrRun
      {
        var threshold := thresholds[nrRun - 1];
        if last <= nrRun {
          threshold := threshold + Pow2(fshift) / tun.hysteresis;
        }
        LoadSearchStep(avgNrRun, tun, last, nrRun, threshold);
        if avgNrRun <= Shl32(threshold, tun.fshift - fshift) {
          break;
        }
        nrRun := nrRun + 1;
      }
      nrRunLast := nrRun;
    }

    /** mp_decision, with its two clock readings and the load inputs taken from `inp`. */
    method MpDecision(cfg: Config, inp: TickInputs) returns (d: Decision)
      requires Valid() && ValidTunables(cfg.tun) && ClockOk(Snapshot(), inp)
      modifies this
      ensures Valid()
      ensures (Snapshot(), d) == DecisionStep(old(Snapshot()), cfg, inp)
    {
      if state == Disabled {
        return Disabled;
      }
      if inp.decisionMs <= cfg.sampleMs {
        return Idle;
      }
      ghost var g0 := Snapshot();
      var thisTime := 0;
      if initial {
        initial := false;
      } else {
        thisTime := inp.decisionMs - lastTime;
      }
      totalTime := totalTime + thisTime;
      var currentRun := inp.currentRun;
      var online := CountOnline(cpuOnline[..]);
      var req := CalculateLoad(inp.avgNrRun, cfg.tun);
      d := ApplyGates(online, currentRun, req);
      lastTime := inp.endMs;
      assert Snapshot() == g0.(initial := false, totalTime := totalTime, lastTime := inp.endMs, nrRunLast := req);
    }

    /**
     * The gate part of mp_decision, on the dwell counter `total_time`: the
     * decision and the new counter are those Decide gives for the old one.
     */
    method ApplyGates(online: nat, currentRun: nat, req: nat) returns (d: Decision)
      requires online <= NrCpus
      modifies this`totalTime
      ensures Verdict(d, totalTime) == Decide(online, currentRun, old(totalTime), req)
    {
      d := Idle;
      if online != 0 {
        var index := (online - 1) * 2;
        if online < MaxCpus && currentRun >= NwNsThreshold[index] {
          if totalTime >= TwTsThreshold[index] && online < req {
            d := Up;
          }
        } else if online > 1 && currentRun <= NwNsThreshold[index + 1] {
          if totalTime >= TwTsThreshold[index + 1] && online > req {
            d := Down;
          }
        } else {
          d := Idle;
          totalTime := 0;
        }
      } else {
        totalTime := 0;
      }
      if d != Idle {
        totalTime := 0;
      }
    }

    /** The was_paused branch of a tick: copy the online mask into every record. */
    method Resync()
      requires Valid()
      modifies recOnline
      ensures recOnline[..] == cpuOnline[..]
    {
      var cpu := 0;
      while cpu < NrCpus
        invariant 0 <= cpu <= NrCpus
        invariant forall j :: 0 <= j < cpu ==> recOnline[j] == cpuOnline[j]
      {
        recOnline[cpu] := cpuOnline[cpu];
        cpu := cpu + 1;
      }
    }

    /** cpu_down or cpu_up on the online mask; the platform refuses to take the boot CPU down. */
    method SwitchCpu(cpu: nat, want: bool)
      requires Valid() && cpu < NrCpus
      modifies cpuOnline
      ensures cpuOnline[..] == Switched(old(cpuOnline[..]), cpu, want)
      ensures cpuOnline[cpu] == (want || (cpu == 0 && old(cpuOnline[cpu])))
      ensures forall j :: 0 <= j < NrCpus && j != cpu ==> cpuOnline[j] == old(cpuOnline[j])
    {
      if want || cpu != 0 {
        cpuOnline[cpu] := want;
      }
    }

    /** One arm of the tick's switch: act on `cpu` if its record and the mask agree, else ask for a resync. */
    method Act(cpu: nat, want: bool, stampMs: nat)
      requires Valid() && cpu < NrCpus
      modifies this`wasPaused, recOnline, recOnTime, cpuOnline
      ensures Valid()
      ensures Snapshot() == Actuate(old(Snapshot()), cpu, want, stampMs)
    {
      if recOnline[cpu] == !want && cpuOnline[cpu] == !want {
        SwitchCpu(cpu, want);
        recOnline[cpu] := want;
        if want {
          recOnTime[cpu] := stampMs;
        }
      } else if recOnline[cpu] != cpuOnline[cpu] {
        wasPaused := true;
      }
    }

    /** tripndroid_hp_wt: one tick; `rearm` says whether the work re-schedules itself. */
    method Tick(cfg: Config, inp: TickInputs) returns (rearm: bool)
      requires Valid() && ValidTunables(cfg.tun) && ClockOk(Snapshot(), inp)
      modifies this, recOnline, recOnTime, cpuOnline
      ensures Valid()
      ensures (Snapshot(), rearm) == TickStep(old(Snapshot()), cfg, inp)
    {
      if inp.entryMs <= cfg.sampleMs || suspendState == 1 || !inp.lockAcquired {
        return state != Disabled;
      }
      if wasPaused {
        Resync();
        wasPaused := false;
      }
      assert Snapshot() == ResyncStep(old(Snapshot()));
      ghost var g1 := Snapshot();
      var d := MpDecision(cfg, inp);
      state := d;
      assert Snapshot() == DecisionStep(g1, cfg, inp).0.(state := d);
      ActOnDecision(cfg.clockHz, inp.stampMs);
      rearm := state != Disabled;
    }

    /** The switch statement of a tick, on the decision just stored in `state`. */
    method ActOnDecision(clockHz: Option<nat>, stampMs: nat)
      requires Valid()
      modifies this`wasPaused, recOnline, recOnTime, cpuOnline
      ensures Valid()
      ensures Snapshot() == ActStep(old(Snapshot()), clockHz, stampMs)
    {
      if state == Down {
        var cpu := GetSlowestCpu(cpuOnline[..], SharedRates(clockHz));
        SharedClockPicksDownTarget(cpuOnline[..], clockHz, cpu);
        Act(cpu, false, stampMs);
      } else if state == Up {
        var cpu := NextOffline(cpuOnline[..]);
        if cpu < NrCpus {
          Act(cpu, true, stampMs);
        }
      }
    }

    /** tripndroid_hp_early_suspend. */
    method EarlySuspend()
      requires Valid()
      modifies this`suspendState, recOnline, cpuOnline
      ensures Valid()
      ensures Snapshot() == SuspendStep(old(Snapshot()))
    {
      if suspendState == 0 {
        suspendState := 1;
      }
      OfflineSecondaries();
    }

    /** The loop of early suspend: CPUs 1 .. NR_CPUS - 1 offline, their records false. */
    method OfflineSecondaries()
      requires Valid()
      modifies recOnline, cpuOnline
      ensures cpuOnline[..] == ClearSecondaries(old(cpuOnline[..]))
      ensures recOnline[..] == ClearSecondaries(old(recOnline[..]))
    {
      var i := 1;
      while i < NrCpus
        invariant 1 <= i <= NrCpus
        invariant recOnline[0] == old(recOnline[0]) && cpuOnline[0] == old(cpuOnline[0])
        invariant forall j :: 1 <= j < i ==> !recOnline[j] && !cpuOnline[j]
        invariant forall j :: i <= j < NrCpus ==> recOnline[j] == old(recOnline[j]) && cpuOnline[j] == old(cpuOnline[j])
      {
        if cpuOnline[i] {
          SwitchCpu(i, false);
        }
        recOnline[i] := false;
        i := i + 1;
      }
      assert cpuOnline[..] == ClearSecondaries(old(cpuOnline[..]));
      assert recOnline[..] == ClearSecondaries(old(recOnline[..]));
    }

    /** tripndroid_hp_late_resume, every CPU it brings up stamped at `stampMs`. */
    method LateResume(powersaving: nat, stampMs: nat)
      requires Valid()
      modifies this`suspendState, recOnline, recOnTime, cpuOnline
      ensures Valid()
      ensures Snapshot() == ResumeStep(old(Snapshot()), powersaving, stampMs)
    {
      var maxCpus := if powersaving == 1 then 2 else NrCpus;
      if suspendState != 0 {
        suspendState := 0;
      }
      OnlineSecondaries(maxCpus, stampMs);
    }

    /** The loop of late resume: CPUs 1 .. n - 1 online, their records true and stamped. */
    method OnlineSecondaries(n: nat, stampMs: nat)
      requires Valid() && n <= NrCpus
      modifies recOnline, recOnTime, cpuOnline
      ensures cpuOnline[..] == SetSecondaries(old(cpuOnline[..]), n)
      ensures recOnline[..] == SetSecondaries(old(recOnline[..]), n)
      ensures recOnTime[..] == StampSecondaries(old(recOnTime[..]), n, stampMs)
    {
      var i := 1;
      while i < n
        invariant 1 <= i <= NrCpus && (i == 1 || i <= n)
        invariant recOnline[0] == old(recOnline[0]) && cpuOnline[0] == old(cpuOnline[0]) && recOnTime[0] == old(recOnTime[0])
        invariant forall j :: 1 <= j < i ==> recOnline[j] && cpuOnline[j] && recOnTime[j] == stampMs
        invariant forall j :: i <= j < NrCpus ==>
          recOnline[j] == old(recOnline[j]) && cpuOnline[j] == old(cpuOnline[j]) && recOnTime[j] == old(recOnTime[j])
      {
        if !cpuOnline[i] {
          SwitchCpu(i, true);
        }
        recOnline[i] := true;
        recOnTime[i] := stampMs;
        i := i + 1;
      }
      assert cpuOnline[..] == SetSecondaries(old(cpuOnline[..]), n);
      assert recOnline[..] == SetSecondaries(old(recOnline[..]), n);
      assert recOnTime[..] == StampSecondaries(old(recOnTime[..]), n, stampMs);
    }
  }
}
