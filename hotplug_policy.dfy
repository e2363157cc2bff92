/**
 * The hotplug governor's decision logic, as values: the threshold tables,
 * the load-to-target-count mapping of calculate_load, the up/down gates of
 * mp_decision, the choice of which CPU to act on, and one tick of the
 * governor (tripndroid_hp_wt) together with early suspend and late resume,
 * each as a function from the governor's state before to its state after.
 * The class in module Hotplug performs these steps in place and is proved
 * to agree with them.
 */
module HotplugPolicy {
  import opened Wrappers

  /** CONFIG_NR_CPUS on this quad-core platform; the 8-entry tables are sized for it. */
  const NrCpus: nat := 4
  /** tripndroid_hp_config.max_cpus, initialised to CONFIG_NR_CPUS. */
  const MaxCpus: nat := NrCpus
  const UintMax: nat := 0xFFFF_FFFF
  const Word32: nat := 0x1_0000_0000

  /** Per target count 1..4: the load at or below which that count suffices. */
  const NormalThresholds: seq<nat> := [7, 9, 10, UintMax]
  /** Per target count 1..2, used while power saving is active. */
  const PowersavingThresholds: seq<nat> := [5, UintMax]
  /** Run-queue thresholds, two per online count: up at 2(n-1), down at 2(n-1)+1. */
  const NwNsThreshold: seq<nat> := [12, 0, 20, 7, 25, 10, 0, 18]
  /** Dwell times in ms, laid out like NwNsThreshold. */
  const TwTsThreshold: seq<nat> := [140, 0, 140, 190, 140, 190, 0, 190]

  /** The governor states, also the results of a decision. */
  datatype Decision = Disabled | Idle | Down | Up

  // ---------------------------------------------------------------------
  // cpu_getspeed

  /** The speed in kHz of `cpu`, read from the one shared CPU clock; 0 past max_cpus or without a clock. */
  function CpuGetSpeed(cpu: nat, clockHz: Option<nat>): (khz: nat)
    ensures cpu >= MaxCpus || clockHz.None? ==> khz == 0
    ensures cpu < MaxCpus && clockHz.Some? ==> khz * 1000 <= clockHz.value < (khz + 1) * 1000
  {
    if cpu >= MaxCpus || clockHz.None? then 0 else clockHz.value / 1000
  }

  // ---------------------------------------------------------------------
  // get_slowest_cpu

  ghost predicate AllOnlinePositive(online: seq<bool>, rate: seq<nat>)
    requires |online| == NrCpus && |rate| == NrCpus
  {
    forall j :: 0 <= j < MaxCpus && online[j] ==> rate[j] > 0
  }

  ghost predicate AllOnlineZero(online: seq<bool>, rate: seq<nat>)
    requires |online| == NrCpus && |rate| == NrCpus
  {
    forall j :: 0 <= j < MaxCpus && online[j] ==> rate[j] == 0
  }

  /**
   * get_slowest_cpu: scans CPUs 0 .. max_cpus - 1 keeping a running minimum
   * of the online CPUs' speeds (`rate[i]` is what cpu_getspeed(i) returns).
   * The boot CPU takes part in the minimum but is never chosen; ties go to
   * the higher index; 0 means no secondary CPU is slowest.
   */
  method GetSlowestCpu(online: seq<bool>, rate: seq<nat>) returns (cpu: nat)
    requires |online| == NrCpus && |rate| == NrCpus
    ensures cpu == 0 || (1 <= cpu < MaxCpus && online[cpu])
    ensures AllOnlineZero(online, rate) ==> cpu == 0
    ensures AllOnlinePositive(online, rate) && cpu != 0 ==>
      && (forall j :: 0 <= j < MaxCpus && online[j] ==> rate[cpu] <= rate[j])
      && (forall j :: cpu < j < MaxCpus && online[j] ==> rate[cpu] < rate[j])
    ensures AllOnlinePositive(online, rate) && cpu == 0 ==>
      forall j :: 1 <= j < MaxCpus && online[j] ==> online[0] && rate[0] < rate[j]
  {
    ghost var allPos := AllOnlinePositive(online, rate);
    ghost var allZero := AllOnlineZero(online, rate);
    cpu := 0;
    var slowRate := 0;
    var i := 0;
    while i < MaxCpus
      invariant 0 <= i <= MaxCpus
      invariant cpu == 0 || (1 <= cpu < i && online[cpu])
      invariant allZero ==> cpu == 0 && slowRate == 0
      invariant allPos ==> (slowRate == 0 <==> forall j :: 0 <= j < i ==> !online[j])
      invariant allPos && cpu != 0 ==> slowRate == rate[cpu]
      invariant allPos && cpu == 0 && slowRate != 0 ==> online[0] && slowRate == rate[0]
      invariant allPos ==> forall j :: 0 <= j < i && online[j] ==> slowRate <= rate[j]
      invariant allPos && cpu != 0 ==> forall j :: cpu < j < i && online[j] ==> rate[cpu] < rate[j]
      invariant allPos && cpu == 0 ==> forall j :: 1 <= j < i && online[j] ==> online[0] && rate[0] < rate[j]
    {
      if online[i] {
        var r := rate[i];
        if slowRate == 0 {
          slowRate := r;
        }
        if r <= slowRate && slowRate != 0 {
          if i != 0 {
            cpu := i;
            slowRate := r;
          }
        }
      }
      i := i + 1;
    }
  }

  /** The highest online CPU in [1, n), or 0 when there is none. */
  function HighestOnlineBelow(mask: seq<bool>, n: nat): (c: nat)
    requires n <= |mask|
    ensures c == 0 || (1 <= c < n && mask[c])
    ensures c != 0 ==> forall j :: c < j < n ==> !mask[j]
    ensures c == 0 ==> forall j :: 1 <= j < n ==> !mask[j]
  {
    if n <= 1 then 0
    else if mask[n - 1] then n - 1
    else HighestOnlineBelow(mask, n - 1)
  }

  /**
   * The CPU a DOWN tick acts on. cpu_getspeed reads one clock for every CPU,
   * so all online CPUs report the same speed: when it is positive the scan
   * picks the highest online secondary CPU, and when it is 0 it picks CPU 0.
   */
  function DownTarget(mask: seq<bool>, clockHz: Option<nat>): (c: nat)
    requires |mask| == NrCpus
    ensures c == 0 || (1 <= c < MaxCpus && mask[c])
    ensures CpuGetSpeed(0, clockHz) > 0 && c != 0 ==> forall j :: c < j < MaxCpus ==> !mask[j]
  {
    if CpuGetSpeed(0, clockHz) > 0 then HighestOnlineBelow(mask, MaxCpus) else 0
  }

  /** cpumask_next_zero(0, mask) from index i on: the lowest offline CPU in [i, |mask|), else |mask|. */
  function NextOfflineFrom(mask: seq<bool>, i: nat): (c: nat)
    requires i <= |mask|
    ensures i <= c <= |mask|
    ensures c < |mask| ==> !mask[c]
    ensures forall j :: i <= j < c ==> mask[j]
    decreases |mask| - i
  {
    if i == |mask| then |mask|
    else if !mask[i] then i
    else NextOfflineFrom(mask, i + 1)
  }

  /** The CPU an UP tick acts on: the lowest offline CPU after the boot CPU, or NrCpus when all are online. */
  function NextOffline(mask: seq<bool>): (c: nat)
    requires |mask| == NrCpus
    ensures 1 <= c <= NrCpus
    ensures c < NrCpus ==> !mask[c]
    ensures forall j :: 1 <= j < c ==> mask[j]
  {
    NextOfflineFrom(mask, 1)
  }

  /** num_online_cpus over the mask. */
  function CountOnline(mask: seq<bool>): (n: nat)
    ensures n <= |mask|
    ensures n == 0 <==> forall j :: 0 <= j < |mask| ==> !mask[j]
  {
    if |mask| == 0 then 0
    else CountOnline(mask[..|mask| - 1]) + (if mask[|mask| - 1] then 1 else 0)
  }

  /** Setting one bit of the mask changes the count by exactly that bit's change. */
  lemma {:induction false} CountOnlineUpdate(mask: seq<bool>, k: nat, b: bool)
    requires k < |mask|
    ensures CountOnline(mask[k := b]) + (if mask[k] then 1 else 0)
            == CountOnline(mask) + (if b then 1 else 0)
  {
    var m := |mask| - 1;
    if k < m {
      assert mask[k := b][..m] == mask[..m][k := b];
      CountOnlineUpdate(mask[..m], k, b);
    } else {
      assert mask[k := b][..m] == mask[..m];
    }
  }

  // ---------------------------------------------------------------------
  // calculate_load

  /** The governor's tunables that calculate_load reads. */
  datatype Tunables = Tunables(
    powersaving: nat,   // powersaving_active; any non-zero value selects the power-saving table
    hysteresis: nat,    // nr_run_hysteresis
    fshift: nat)        // FSHIFT, the fixed-point shift of the kernel's load averages

  /** The divisor is non-zero and both shift amounts are below the word width. */
  predicate ValidTunables(t: Tunables) {
    t.hysteresis > 0 && 3 <= t.fshift <= 32
  }

  /** nr_fshift: 3 for the normal table, 1 for the power-saving one. */
  function NrFshift(powersaving: nat): (r: nat)
    ensures 1 <= r <= 3
    ensures Pow2(r) == (if powersaving == 0 then 8 else 2)
  {
    assert Pow2(3) == 8 && Pow2(1) == 2;
    if powersaving == 0 then 3 else 1
  }

  function TargetTable(powersaving: nat): (thr: seq<nat>)
    ensures |thr| == if powersaving == 0 then 4 else 2
  {
    if powersaving == 0 then NormalThresholds else PowersavingThresholds
  }

  function Pow2(n: nat): (p: nat)
    ensures p >= 1
  {
    if n == 0 then 1 else 2 * Pow2(n - 1)
  }

  /** A left shift of a 32-bit unsigned value by fewer than 32 places. */
  function Shl32(x: nat, s: nat): (r: nat)
    requires s < 32
    ensures r < Word32
  {
    (x * Pow2(s)) % Word32
  }

  /** (1 << nr_fshift) / nr_run_hysteresis: the margin added to a threshold. */
  function HysteresisBonus(t: Tunables): (b: nat)
    requires t.hysteresis > 0
    ensures b * t.hysteresis <= Pow2(NrFshift(t.powersaving)) < (b + 1) * t.hysteresis
  {
    Pow2(NrFshift(t.powersaving)) / t.hysteresis
  }

  /** The default nr_run_hysteresis of 4 gives a margin of 2 in normal mode and none in power-saving mode. */
  lemma DefaultHysteresisBonus(fshift: nat)
    ensures HysteresisBonus(Tunables(0, 4, fshift)) == 2
    ensures forall p :: p != 0 ==> HysteresisBonus(Tunables(p, 4, fshift)) == 0
  {
    assert Pow2(3) == 8 && Pow2(1) == 2;
  }

  /**
   * The level the averaged load is compared with for candidate count k: the
   * table entry, raised by the margin when the previous target `last` is at
   * most k, shifted up to the kernel's fixed-point scale.
   */
  function Level(t: Tunables, last: nat, k: nat): (n: nat)
    requires ValidTunables(t) && 1 <= k < |TargetTable(t.powersaving)|
    ensures n < Word32
    ensures last <= k ==>
      n == Shl32(TargetTable(t.powersaving)[k - 1] + HysteresisBonus(t), t.fshift - NrFshift(t.powersaving))
    ensures last > k ==> n == Shl32(TargetTable(t.powersaving)[k - 1], t.fshift - NrFshift(t.powersaving))
  {
    var thr := TargetTable(t.powersaving)[k - 1] + (if last <= k then HysteresisBonus(t) else 0);
    Shl32(thr, t.fshift - NrFshift(t.powersaving))
  }

  /** The counting search of calculate_load from candidate k on. */
  function LoadSearch(avg: nat, t: Tunables, last: nat, k: nat): (n: nat)
    requires ValidTunables(t) && 1 <= k <= |TargetTable(t.powersaving)|
    ensures k <= n <= |TargetTable(t.powersaving)|
    ensures n < |TargetTable(t.powersaving)| ==> avg <= Level(t, last, n)
    decreases |TargetTable(t.powersaving)| - k
  {
    if k == |TargetTable(t.powersaving)| then k
    else if avg <= Level(t, last, k) then k
    else LoadSearch(avg, t, last, k + 1)
  }

  /**
   * One round of calculate_load's loop: with the threshold it computes for
   * candidate k, the search stops at k or moves on to k + 1.
   */
  lemma LoadSearchStep(avg: nat, t: Tunables, last: nat, k: nat, threshold: nat)
    requires ValidTunables(t) && 1 <= k < |TargetTable(t.powersaving)|
    requires threshold == TargetTable(t.powersaving)[k - 1]
                          + (if last <= k then Pow2(NrFshift(t.powersaving)) / t.hysteresis else 0)
    ensures avg <= Shl32(threshold, t.fshift - NrFshift(t.powersaving)) ==> LoadSearch(avg, t, last, k) == k
    ensures avg > Shl32(threshold, t.fshift - NrFshift(t.powersaving)) ==>
      LoadSearch(avg, t, last, k) == LoadSearch(avg, t, last, k + 1)
  {
    assert Level(t, last, k) == Shl32(threshold, t.fshift - NrFshift(t.powersaving));
  }

  /** calculate_load's result: the target CPU count for averaged load `avg` when the previous target was `last`. */
  function LoadTarget(avg: nat, t: Tunables, last: nat): (n: nat)
    requires ValidTunables(t)
    ensures 1 <= n <= |TargetTable(t.powersaving)|
  {
    LoadSearch(avg, t, last, 1)
  }

  lemma {:induction false} LoadSearchIsFirstFit(avg: nat, t: Tunables, last: nat, k: nat)
    requires ValidTunables(t) && 1 <= k <= |TargetTable(t.powersaving)|
    ensures var n := LoadSearch(avg, t, last, k);
      && k <= n <= |TargetTable(t.powersaving)|
      && (forall j :: k <= j < n ==> avg > Level(t, last, j))
      && (n < |TargetTable(t.powersaving)| ==> avg <= Level(t, last, n))
    decreases |TargetTable(t.powersaving)| - k
  {
    if k < |TargetTable(t.powersaving)| && avg > Level(t, last, k) {
      LoadSearchIsFirstFit(avg, t, last, k + 1);
    }
  }

  /**
   * The target is the smallest count below the table length whose level the
   * load does not exceed, or the table length: 1..4 in normal mode, 1..2 in
   * power-saving mode.
   */
  lemma LoadTargetIsFirstFit(avg: nat, t: Tunables, last: nat)
    requires ValidTunables(t)
    ensures var n := LoadTarget(avg, t, last);
      && 1 <= n <= |TargetTable(t.powersaving)|
      && (t.powersaving == 0 ==> n <= 4)
      && (t.powersaving != 0 ==> n <= 2)
      && (forall j :: 1 <= j < n ==> avg > Level(t, last, j))
      && (n < |TargetTable(t.powersaving)| ==> avg <= Level(t, last, n))
  {
    LoadSearchIsFirstFit(avg, t, last, 1);
  }

  /** No level wraps around 32 bits, even with the margin added. */
  predicate LevelsFit(t: Tunables)
    requires ValidTunables(t)
  {
    var thr := TargetTable(t.powersaving);
    (thr[|thr| - 2] + HysteresisBonus(t)) * Pow2(t.fshift - NrFshift(t.powersaving)) < Word32
  }

  /** With the kernel's FSHIFT of 11 and the default nr_run_hysteresis of 4, no level wraps in either mode. */
  lemma KernelShiftFits(powersaving: nat)
    ensures LevelsFit(Tunables(powersaving, 4, 11))
  {
    DefaultHysteresisBonus(11);
    assert Pow2(2) == 4 && Pow2(4) == 16 && Pow2(6) == 64 && Pow2(8) == 256;
    assert Pow2(10) == 1024;
  }

  lemma LevelAntitoneInLast(t: Tunables, last1: nat, last2: nat, k: nat)
    requires ValidTunables(t) && LevelsFit(t) && 1 <= k < |TargetTable(t.powersaving)|
    requires last1 <= last2
    ensures Level(t, last2, k) <= Level(t, last1, k)
  {
    var thr := TargetTable(t.powersaving);
    var s := t.fshift - NrFshift(t.powersaving);
    var b := HysteresisBonus(t);
    var top := thr[|thr| - 2] + b;
    var x1 := thr[k - 1] + (if last1 <= k then b else 0);
    var x2 := thr[k - 1] + (if last2 <= k then b else 0);
    assert thr[k - 1] <= thr[|thr| - 2];
    assert Level(t, last1, k) == Shl32(x1, s) && Level(t, last2, k) == Shl32(x2, s);
    Shl32Monotone(x2, x1, top, s);
  }

  /** Without wrap-around a shift is monotone. */
  lemma Shl32Monotone(x: nat, y: nat, top: nat, s: nat)
    requires s < 32 && x <= y <= top && top * Pow2(s) < Word32
    ensures Shl32(x, s) <= Shl32(y, s)
  {
    var p := Pow2(s);
    MulMonotoneNat(x, y, p);
    MulMonotoneNat(y, top, p);
    assert Shl32(x, s) == x * p by {
      ModBelow(x * p, Word32);
    }
    assert Shl32(y, s) == y * p by {
      ModBelow(y * p, Word32);
    }
  }

  lemma ModBelow(a: nat, m: nat)
    requires a < m
    ensures a % m == a
  {
  }

  lemma MulMonotoneNat(x: nat, y: nat, a: nat)
    requires x <= y
    ensures x * a <= y * a
  {
  }

  lemma {:induction false} LoadSearchMonotoneInLast(avg: nat, t: Tunables, last1: nat, last2: nat, k: nat)
    requires ValidTunables(t) && LevelsFit(t) && 1 <= k <= |TargetTable(t.powersaving)|
    requires last1 <= last2
    ensures LoadSearch(avg, t, last1, k) <= LoadSearch(avg, t, last2, k)
    decreases |TargetTable(t.powersaving)| - k
  {
    if k < |TargetTable(t.powersaving)| {
      LevelAntitoneInLast(t, last1, last2, k);
      if avg > Level(t, last2, k) {
        LoadSearchIsFirstFit(avg, t, last2, k + 1);
        if avg > Level(t, last1, k) {
          LoadSearchMonotoneInLast(avg, t, last1, last2, k + 1);
        }
      }
    }
  }

  /**
   * The hysteresis makes the target sticky: for the same load, a higher
   * previous target never yields a lower new target.
   */
  lemma LoadTargetMonotoneInLast(avg: nat, t: Tunables, last1: nat, last2: nat)
    requires ValidTunables(t) && LevelsFit(t)
    requires last1 <= last2
    ensures LoadTarget(avg, t, last1) <= LoadTarget(avg, t, last2)
  {
    LoadSearchMonotoneInLast(avg, t, last1, last2, 1);
  }

  // ---------------------------------------------------------------------
  // mp_decision

  /** The row of the threshold tables for `online` CPUs: its up entry, then its down entry. */
  function TableIndex(online: nat): (i: nat)
    requires 1 <= online <= NrCpus
    ensures i % 2 == 0 && i + 1 < |NwNsThreshold| && i + 1 < |TwTsThreshold|
  {
    (online - 1) * 2
  }

  /** The up gate: room for another CPU and enough queued work. */
  predicate UpGate(online: nat, run: nat)
    requires 1 <= online <= NrCpus
    ensures UpGate(online, run) ==> online < MaxCpus && run >= 12
    ensures online < MaxCpus && run >= 25 ==> UpGate(online, run)
  {
    online < MaxCpus && run >= NwNsThreshold[TableIndex(online)]
  }

  /** The down gate: a secondary CPU online and little queued work. */
  predicate DownGate(online: nat, run: nat)
    requires 1 <= online <= NrCpus
    ensures DownGate(online, run) ==> online >= 2 && run <= 18
    ensures online >= 2 && run <= 7 ==> DownGate(online, run)
  {
    online > 1 && run <= NwNsThreshold[TableIndex(online) + 1]
  }

  /** A decision and the dwell counter it leaves behind. */
  datatype Verdict = Verdict(decision: Decision, dwell: nat)

  /**
   * The gate part of mp_decision: with `online` CPUs online, run-queue
   * average `run`, accumulated dwell `dwell` and target count `req`, decide
   * and say what the dwell counter becomes.
   */
  function Decide(online: nat, run: nat, dwell: nat, req: nat): (v: Verdict)
    requires online <= NrCpus
    ensures v.decision == Idle || v.decision == Up || v.decision == Down
    ensures v.decision == Up <==>
      && 1 <= online
      && UpGate(online, run)
      && dwell >= TwTsThreshold[TableIndex(online)]
      && online < req
    ensures v.decision == Down <==>
      && 1 <= online
      && !UpGate(online, run)
      && DownGate(online, run)
      && dwell >= TwTsThreshold[TableIndex(online) + 1]
      && online > req
    ensures v.decision == Up ==> online + 1 <= MaxCpus
    ensures v.decision == Down ==> online - 1 >= 1
    ensures v.decision != Idle ==> v.dwell == 0
    ensures online == 0 || !(UpGate(online, run) || DownGate(online, run)) ==> v.dwell == 0
    ensures 1 <= online && (UpGate(online, run) || DownGate(online, run)) && v.decision == Idle ==> v.dwell == dwell
  {
    if online == 0 then Verdict(Idle, 0)
    else
      var index := TableIndex(online);
      if UpGate(online, run) then
        if dwell >= TwTsThreshold[index] && online < req then Verdict(Up, 0) else Verdict(Idle, dwell)
      else if DownGate(online, run) then
        if dwell >= TwTsThreshold[index + 1] && online > req then Verdict(Down, 0) else Verdict(Idle, dwell)
      else Verdict(Idle, 0)
  }

  // ---------------------------------------------------------------------
  // The governor's state and one tick

  /** Everything one tick reads or writes, static variables and per-CPU records alike. */
  datatype GovState = GovState(
    state: Decision,       // state
    initial: bool,         // mp_decision's static `initial`
    totalTime: nat,        // mp_decision's static `total_time`, ms
    lastTime: nat,         // mp_decision's static `last_time`, ms
    nrRunLast: nat,        // calculate_load's static `nr_run_last`
    wasPaused: bool,       // was_paused
    suspendState: nat,     // tdf_suspend_state
    rec: seq<bool>,        // per-CPU record: the governor's belief that the CPU is online
    onTime: seq<nat>,      // per-CPU record: when the governor last brought it online, ms
    mask: seq<bool>)       // the platform's online mask

  predicate WellSized(g: GovState) {
    |g.rec| == NrCpus && |g.onTime| == NrCpus && |g.mask| == NrCpus
  }

  /** Settings fixed for a run of ticks. */
  datatype Config = Config(
    sampleMs: nat,         // tripndroid_hp_config.sample_ms: warm-up window
    tun: Tunables,
    clockHz: Option<nat>)  // clk_get_rate of the CPU clock, None without one

  /** What one tick reads from the world. */
  datatype TickInputs = TickInputs(
    entryMs: nat,          // clock reading when the tick starts
    lockAcquired: bool,    // whether mutex_trylock succeeded
    decisionMs: nat,       // mp_decision's first clock reading
    endMs: nat,            // mp_decision's closing clock reading
    stampMs: nat,          // clock reading when a CPU is brought online
    currentRun: nat,       // sched_get_nr_running_avg
    avgNrRun: nat)         // avg_nr_running

  /** The clock has not gone back since mp_decision last recorded it. */
  predicate ClockOk(g: GovState, inp: TickInputs) {
    g.initial || inp.decisionMs >= g.lastTime
  }

  /** mp_decision: the decision and the state it leaves. */
  function DecisionStep(g: GovState, cfg: Config, inp: TickInputs): (r: (GovState, Decision))
    requires WellSized(g) && ValidTunables(cfg.tun) && ClockOk(g, inp)
    ensures WellSized(r.0)
    ensures r.1 == Disabled <==> g.state == Disabled
    ensures g.state == Disabled || inp.decisionMs <= cfg.sampleMs ==> r.0 == g
    ensures r.0.mask == g.mask && r.0.rec == g.rec && r.0.onTime == g.onTime
    ensures r.0.state == g.state && r.0.wasPaused == g.wasPaused && r.0.suspendState == g.suspendState
    ensures r.1 == Up ==> CountOnline(g.mask) < MaxCpus && CountOnline(g.mask) < r.0.nrRunLast
    ensures r.1 == Down ==> CountOnline(g.mask) > 1 && CountOnline(g.mask) > r.0.nrRunLast
  {
    if g.state == Disabled then (g, Disabled)
    else if inp.decisionMs <= cfg.sampleMs then (g, Idle)
    else
      var dwell := g.totalTime + (if g.initial then 0 else inp.decisionMs - g.lastTime);
      var online := CountOnline(g.mask);
      var req := LoadTarget(inp.avgNrRun, cfg.tun, g.nrRunLast);
      var v := Decide(online, inp.currentRun, dwell, req);
      (g.(initial := false, totalTime := v.dwell, lastTime := inp.endMs, nrRunLast := req), v.decision)
  }

  /**
   * The warm-up exit decides IDLE. Past it `initial` is cleared, `last_time`
   * takes the closing reading, `nr_run_last` the new target, and the
   * decision and the new dwell counter are Decide's verdict on the
   * accumulated dwell time, the online count and that target; a transition
   * restarts the dwell counter.
   */
  lemma DecisionStepDecides(g: GovState, cfg: Config, inp: TickInputs)
    requires WellSized(g) && ValidTunables(cfg.tun) && ClockOk(g, inp)
    ensures var r := DecisionStep(g, cfg, inp);
      && (g.state != Disabled && inp.decisionMs <= cfg.sampleMs ==> r.1 == Idle)
      && (g.state != Disabled && inp.decisionMs > cfg.sampleMs ==>
            && !r.0.initial
            && r.0.lastTime == inp.endMs
            && r.0.nrRunLast == LoadTarget(inp.avgNrRun, cfg.tun, g.nrRunLast)
            && Verdict(r.1, r.0.totalTime)
               == Decide(CountOnline(g.mask), inp.currentRun,
                         g.totalTime + (if g.initial then 0 else inp.decisionMs - g.lastTime), r.0.nrRunLast))
      && (r.1 == Up || r.1 == Down ==> r.0.totalTime == 0)
  {
  }

  /** What the online mask says after cpu_up or cpu_down: the platform never takes the boot CPU down. */
  function Switched(mask: seq<bool>, cpu: nat, want: bool): (m: seq<bool>)
    requires |mask| == NrCpus && cpu < NrCpus
    ensures |m| == NrCpus
    ensures m[cpu] == (want || (cpu == 0 && mask[cpu]))
    ensures forall j :: 0 <= j < NrCpus && j != cpu ==> m[j] == mask[j]
  {
    if !want && cpu == 0 then mask else mask[cpu := want]
  }

  /**
   * Acting on the chosen CPU: when its record and online bit agree that it
   * is in the other state, the CPU is switched and its record set to `want`
   * (whether or not the switch took effect); when they disagree nothing
   * changes but the governor notes that it must resync.
   */
  function Actuate(g: GovState, cpu: nat, want: bool, stampMs: nat): (h: GovState)
    requires WellSized(g) && cpu < NrCpus
    ensures WellSized(h)
    ensures h.state == g.state && h.suspendState == g.suspendState
    ensures forall j :: 0 <= j < NrCpus && j != cpu ==> h.rec[j] == g.rec[j] && h.mask[j] == g.mask[j] && h.onTime[j] == g.onTime[j]
    ensures g.rec[cpu] == !want && g.mask[cpu] == !want ==>
      && h.rec[cpu] == want && h.wasPaused == g.wasPaused
      && h.mask[cpu] == (want || cpu == 0)
      && h.onTime[cpu] == (if want then stampMs else g.onTime[cpu])
      && CountOnline(h.mask) == (if want then CountOnline(g.mask) + 1
                                 else if cpu == 0 then CountOnline(g.mask)
                                 else CountOnline(g.mask) - 1)
    ensures g.rec[cpu] != g.mask[cpu] ==> h == g.(wasPaused := true)
    ensures g.rec[cpu] == want && g.mask[cpu] == want ==> h == g
  {
    if g.rec[cpu] == !want && g.mask[cpu] == !want then
      CountOnlineUpdate(g.mask, cpu, want);
      g.(rec := g.rec[cpu := want],
         mask := Switched(g.mask, cpu, want),
         onTime := if want then g.onTime[cpu := stampMs] else g.onTime)
    else if g.rec[cpu] != g.mask[cpu] then g.(wasPaused := true)
    else g
  }

  /** A paused governor first copies the actual online state into every record. */
  function ResyncStep(g: GovState): (h: GovState)
    requires WellSized(g)
    ensures WellSized(h) && !h.wasPaused
    ensures g.wasPaused ==> h.rec == g.mask
    ensures h.(rec := g.rec, wasPaused := g.wasPaused) == g
  {
    if g.wasPaused then g.(rec := g.mask, wasPaused := false) else g
  }

  /** The CPU a tick with decision `d` acts on: DownTarget for DOWN, else the lowest offline secondary CPU. */
  function SwitchTarget(mask: seq<bool>, d: Decision, clockHz: Option<nat>): nat
    requires |mask| == NrCpus
  {
    if d == Down then DownTarget(mask, clockHz) else NextOffline(mask)
  }

  /** Whether a tick returns before deciding: warm-up, suspended, or the lock is busy. */
  predicate SkipsTick(g: GovState, cfg: Config, inp: TickInputs) {
    inp.entryMs <= cfg.sampleMs || g.suspendState == 1 || !inp.lockAcquired
  }

  /**
   * tripndroid_hp_wt: one tick of the governor, and whether it re-arms
   * itself. A DOWN decision acts on DownTarget, an UP decision on the lowest
   * offline secondary CPU.
   */
  function TickStep(g: GovState, cfg: Config, inp: TickInputs): (r: (GovState, bool))
    requires WellSized(g) && ValidTunables(cfg.tun) && ClockOk(g, inp)
    ensures WellSized(r.0)
    ensures r.1 <==> r.0.state != Disabled
    ensures r.0.state == Disabled <==> g.state == Disabled
    ensures SkipsTick(g, cfg, inp) ==> r.0 == g
    ensures g.state == Disabled ==> r.0.mask == g.mask && r.0.onTime == g.onTime
    ensures r.0.suspendState == g.suspendState
    ensures CountOnline(g.mask) - 1 <= CountOnline(r.0.mask) <= CountOnline(g.mask) + 1
    ensures CountOnline(r.0.mask) < CountOnline(g.mask) ==>
      r.0.state == Down && CountOnline(g.mask) > 1 && CountOnline(g.mask) > r.0.nrRunLast
    ensures CountOnline(r.0.mask) > CountOnline(g.mask) ==>
      r.0.state == Up && CountOnline(g.mask) < MaxCpus && CountOnline(g.mask) < r.0.nrRunLast
    ensures forall j :: 0 <= j < NrCpus && r.0.mask[j] != g.mask[j] ==> r.0.rec[j] == r.0.mask[j]
  {
    if SkipsTick(g, cfg, inp) then (g, g.state != Disabled)
    else
      var g1 := ResyncStep(g);
      var (g2, d) := DecisionStep(g1, cfg, inp);
      (ActStep(g2.(state := d), cfg.clockHz, inp.stampMs), d != Disabled)
  }

  /** The state a tick leaves is mp_decision's verdict on the dwell time and the new target count. */
  lemma TickDecides(g: GovState, cfg: Config, inp: TickInputs)
    requires WellSized(g) && ValidTunables(cfg.tun) && ClockOk(g, inp)
    ensures var r := TickStep(g, cfg, inp).0;
      && (!SkipsTick(g, cfg, inp) && g.state != Disabled && inp.decisionMs <= cfg.sampleMs ==>
            r.state == Idle && r.totalTime == g.totalTime)
      && (!SkipsTick(g, cfg, inp) && g.state != Disabled && inp.decisionMs > cfg.sampleMs ==>
            && r.nrRunLast == LoadTarget(inp.avgNrRun, cfg.tun, g.nrRunLast)
            && Verdict(r.state, r.totalTime)
               == Decide(CountOnline(g.mask), inp.currentRun,
                         g.totalTime + (if g.initial then 0 else inp.decisionMs - g.lastTime), r.nrRunLast))
  {
    if !SkipsTick(g, cfg, inp) && g.state != Disabled {
      var g1 := ResyncStep(g);
      assert g1.mask == g.mask && g1.state == g.state && g1.initial == g.initial;
      assert g1.totalTime == g.totalTime && g1.lastTime == g.lastTime && g1.nrRunLast == g.nrRunLast;
      var (g2, d) := DecisionStep(g1, cfg, inp);
      DecisionStepDecides(g1, cfg, inp);
      var r := ActStep(g2.(state := d), cfg.clockHz, inp.stampMs);
      assert TickStep(g, cfg, inp).0 == r;
      assert r.state == d && r.totalTime == g2.totalTime && r.nrRunLast == g2.nrRunLast;
    }
  }

  /**
   * A tick switches only the CPU its decision names, and a paused tick
   * first copies the online mask into every record.
   */
  lemma TickSwitchesOnlyTarget(g: GovState, cfg: Config, inp: TickInputs)
    requires WellSized(g) && ValidTunables(cfg.tun) && ClockOk(g, inp)
    ensures var r := TickStep(g, cfg, inp).0;
      forall j :: 0 <= j < NrCpus && j != SwitchTarget(g.mask, r.state, cfg.clockHz) ==>
        && r.mask[j] == g.mask[j] && r.onTime[j] == g.onTime[j]
        && r.rec[j] == (if g.wasPaused && !SkipsTick(g, cfg, inp) then g.mask[j] else g.rec[j])
  {
    if !SkipsTick(g, cfg, inp) {
      var g1 := ResyncStep(g);
      var (g2, d) := DecisionStep(g1, cfg, inp);
      assert g1.mask == g.mask && g1.onTime == g.onTime;
      assert TickStep(g, cfg, inp).0 == ActStep(g2.(state := d), cfg.clockHz, inp.stampMs);
      ActStepSwitchesTarget(g2.(state := d), cfg.clockHz, inp.stampMs);
    }
  }

  /**
   * The switch a tick makes after deciding, on the decision stored in
   * `g.state`: DOWN takes down the CPU get_slowest_cpu names, UP brings up
   * the first offline secondary CPU if there is one.
   */
  function ActStep(g: GovState, clockHz: Option<nat>, stampMs: nat): (h: GovState)
    requires WellSized(g)
    ensures WellSized(h)
    ensures h.state == g.state && h.suspendState == g.suspendState
    ensures g.state != Down && g.state != Up ==> h == g
    ensures CountOnline(h.mask) < CountOnline(g.mask) ==> g.state == Down && CountOnline(h.mask) == CountOnline(g.mask) - 1
    ensures CountOnline(h.mask) > CountOnline(g.mask) ==> g.state == Up && CountOnline(h.mask) == CountOnline(g.mask) + 1
    ensures forall j :: 0 <= j < NrCpus && h.mask[j] != g.mask[j] ==> h.rec[j] == h.mask[j]
    ensures h.totalTime == g.totalTime && h.nrRunLast == g.nrRunLast
  {
    if g.state == Down then Actuate(g, DownTarget(g.mask, clockHz), false, stampMs)
    else if g.state == Up then
      var cpu := NextOffline(g.mask);
      if cpu < NrCpus then Actuate(g, cpu, true, stampMs) else g
    else g
  }

  /**
   * Which CPU the switch acts on and what it does there: DOWN clears the
   * record and online bit of DownTarget when both say online, UP sets them
   * (and stamps on_time) for the lowest offline secondary CPU when its record
   * says offline; a record that disagrees with the mask only asks for a
   * resync. No other CPU changes.
   */
  lemma ActStepSwitchesTarget(g: GovState, clockHz: Option<nat>, stampMs: nat)
    requires WellSized(g)
    ensures var h := ActStep(g, clockHz, stampMs);
      && (forall j :: 0 <= j < NrCpus && j != SwitchTarget(g.mask, g.state, clockHz) ==>
            h.mask[j] == g.mask[j] && h.rec[j] == g.rec[j] && h.onTime[j] == g.onTime[j])
      && (g.state == Down ==>
            var c := DownTarget(g.mask, clockHz);
            && (g.rec[c] && g.mask[c] ==> !h.rec[c] && h.mask[c] == (c == 0) && h.wasPaused == g.wasPaused)
            && (g.rec[c] != g.mask[c] ==> h.wasPaused))
      && (g.state == Up && NextOffline(g.mask) < NrCpus ==>
            var c := NextOffline(g.mask);
            && (!g.rec[c] ==> h.rec[c] && h.mask[c] && h.onTime[c] == stampMs && h.wasPaused == g.wasPaused)
            && (g.rec[c] ==> h.wasPaused))
      && (g.state == Up && NextOffline(g.mask) == NrCpus ==> h == g)
  {
    var h := ActStep(g, clockHz, stampMs);
    if g.state == Down {
      assert h == Actuate(g, DownTarget(g.mask, clockHz), false, stampMs);
    } else if g.state == Up && NextOffline(g.mask) < NrCpus {
      assert h == Actuate(g, NextOffline(g.mask), true, stampMs);
    }
  }

  /** The mask or record sequence with every secondary CPU cleared. */
  function ClearSecondaries(s: seq<bool>): (t: seq<bool>)
    requires |s| == NrCpus
    ensures |t| == NrCpus && t[0] == s[0]
    ensures forall i :: 1 <= i < NrCpus ==> !t[i]
  {
    [s[0]] + seq(NrCpus - 1, _ => false)
  }

  /** tripndroid_hp_early_suspend: mark suspended and take CPUs 1 .. NR_CPUS - 1 offline. */
  function SuspendStep(g: GovState): (h: GovState)
    requires WellSized(g)
    ensures WellSized(h)
    ensures h.suspendState == (if g.suspendState == 0 then 1 else g.suspendState)
    ensures h.mask[0] == g.mask[0] && h.rec[0] == g.rec[0]
    ensures forall i :: 1 <= i < NrCpus ==> !h.mask[i] && !h.rec[i]
    ensures CountOnline(h.mask) <= 1
    ensures h.(suspendState := g.suspendState, mask := g.mask, rec := g.rec) == g
  {
    var h := g.(suspendState := if g.suspendState == 0 then 1 else g.suspendState,
                mask := ClearSecondaries(g.mask),
                rec := ClearSecondaries(g.rec));
    assert h.mask == [h.mask[0]] + h.mask[1..];
    CountSecondariesOff(h.mask);
    h
  }

  lemma CountSecondariesOff(mask: seq<bool>)
    requires |mask| == NrCpus && forall i :: 1 <= i < NrCpus ==> !mask[i]
    ensures CountOnline(mask) <= 1
  {
    var m1, m2, m3 := mask[..3], mask[..3][..2], mask[..3][..2][..1];
    assert m2 == m1[..|m1| - 1] && m3 == m2[..|m2| - 1];
    assert CountOnline(m1) == CountOnline(m2) && CountOnline(m2) == CountOnline(m3);
  }

  /** The number of CPUs late resume brings up: 2 when powersaving_active is exactly 1, else NR_CPUS. */
  function ResumeCpus(powersaving: nat): (n: nat)
    ensures 1 <= n <= NrCpus
  {
    if powersaving == 1 then 2 else NrCpus
  }

  /** tripndroid_hp_late_resume: clear the suspended flag and bring CPUs 1 .. max - 1 online, stamped at `stampMs`. */
  function ResumeStep(g: GovState, powersaving: nat, stampMs: nat): (h: GovState)
    requires WellSized(g)
    ensures WellSized(h) && h.suspendState == 0
    ensures h.mask[0] == g.mask[0] && h.rec[0] == g.rec[0] && h.onTime[0] == g.onTime[0]
    ensures forall i :: 1 <= i < ResumeCpus(powersaving) ==> h.mask[i] && h.rec[i] && h.onTime[i] == stampMs
    ensures forall i :: ResumeCpus(powersaving) <= i < NrCpus ==>
      h.mask[i] == g.mask[i] && h.rec[i] == g.rec[i] && h.onTime[i] == g.onTime[i]
    ensures h.(suspendState := g.suspendState, mask := g.mask, rec := g.rec, onTime := g.onTime) == g
  {
    var n := ResumeCpus(powersaving);
    g.(suspendState := 0,
       mask := SetSecondaries(g.mask, n),
       rec := SetSecondaries(g.rec, n),
       onTime := StampSecondaries(g.onTime, n, stampMs))
  }
  /**
   * Between early suspend and late resume the governor does nothing: a
   * suspended governor skips every tick, and after resume a tick past the
   * warm-up that gets the lock runs again.
   */
  lemma SuspendedGovernorSkipsTicks(g: GovState, cfg: Config, inp: TickInputs, powersaving: nat, stampMs: nat)
    requires WellSized(g) && g.suspendState <= 1
    ensures SkipsTick(SuspendStep(g), cfg, inp)
    ensures SkipsTick(ResumeStep(g, powersaving, stampMs), cfg, inp)
            <==> inp.entryMs <= cfg.sampleMs || !inp.lockAcquired
  {
  }


  /** The mask or record sequence with CPUs 1 .. n - 1 set. */
  function SetSecondaries(s: seq<bool>, n: nat): (t: seq<bool>)
    requires |s| == NrCpus
    ensures |t| == NrCpus && t[0] == s[0]
    ensures forall i :: 1 <= i < NrCpus ==> t[i] == (i < n || s[i])
  {
    seq(NrCpus, i requires 0 <= i < NrCpus => if 1 <= i < n then true else s[i])
  }

  /** The on_time records with CPUs 1 .. n - 1 stamped at `stampMs`. */
  function StampSecondaries(s: seq<nat>, n: nat, stampMs: nat): (t: seq<nat>)
    requires |s| == NrCpus
    ensures |t| == NrCpus && t[0] == s[0]
    ensures forall i :: 1 <= i < NrCpus ==> t[i] == (if i < n then stampMs else s[i])
  {
    seq(NrCpus, i requires 0 <= i < NrCpus => if 1 <= i < n then stampMs else s[i])
  }
}
