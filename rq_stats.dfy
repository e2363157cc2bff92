/**
 * Run-queue averaging: per-CPU counters that hold a time-weighted integral of
 * the runnable-thread count, and the poll that drains them into one
 * system-wide average expressed in hundredths of a thread.
 *
 * Clock readings (sched_clock, nanoseconds) are arguments. The clock is
 * monotone: every reading is at least the latest one the counters have seen,
 * which the ghost field `clock` records.
 */
module RqStats {

  /** 2^32: the range of a 32-bit unsigned word. */
  const Word32: nat := 0x1_0000_0000

  /**
   * The integral still held by CPUs 0 .. n - 1 when it is folded up to `now`:
   * each CPU's accumulated product plus its current count times the time
   * since its last event.
   */
  function PendingBelow(prod: seq<nat>, last: seq<nat>, nr: seq<nat>, now: nat, n: nat): nat
    requires |prod| == |last| == |nr| && n <= |prod|
    requires forall c :: 0 <= c < |last| ==> last[c] <= now
  {
    if n == 0 then 0
    else PendingBelow(prod, last, nr, now, n - 1) + prod[n - 1] + nr[n - 1] * (now - last[n - 1])
  }

  /** The integral held by all the CPUs. */
  function Pending(prod: seq<nat>, last: seq<nat>, nr: seq<nat>, now: nat): nat
    requires |prod| == |last| == |nr|
    requires forall c :: 0 <= c < |last| ==> last[c] <= now
  {
    PendingBelow(prod, last, nr, now, |prod|)
  }

  /** Counters that hold no product and were all stamped at `now` hold nothing. */
  lemma {:induction false} DrainedPendingIsZero(prod: seq<nat>, last: seq<nat>, nr: seq<nat>, now: nat, n: nat)
    requires |prod| == |last| == |nr| && n <= |prod|
    requires forall c :: 0 <= c < |prod| ==> prod[c] == 0 && last[c] == now
    ensures PendingBelow(prod, last, nr, now, n) == 0
  {
    if n > 0 {
      DrainedPendingIsZero(prod, last, nr, now, n - 1);
    }
  }

  /**
   * Replacing CPU k's counters changes the integral of a prefix that holds k
   * by exactly that CPU's own term, and one that stops short of k not at all.
   */
  lemma {:induction false} PendingUpdateAt(prod: seq<nat>, last: seq<nat>, nr: seq<nat>, now: nat,
                                           k: nat, p: nat, l: nat, n: nat, upTo: nat)
    requires |prod| == |last| == |nr| && k < |prod| && upTo <= |prod|
    requires forall c :: 0 <= c < |last| ==> last[c] <= now
    requires l <= now
    ensures k < upTo ==>
      PendingBelow(prod[k := p], last[k := l], nr[k := n], now, upTo) + prod[k] + nr[k] * (now - last[k])
      == PendingBelow(prod, last, nr, now, upTo) + p + n * (now - l)
    ensures k >= upTo ==>
      PendingBelow(prod[k := p], last[k := l], nr[k := n], now, upTo) == PendingBelow(prod, last, nr, now, upTo)
  {
    if upTo > 0 {
      PendingUpdateAt(prod, last, nr, now, k, p, l, n, upTo - 1);
    }
  }

  /**
   * An event on CPU k at `now` that folds `running` threads over the time
   * since its last event into its product and restarts its term: the total
   * loses the term the old count would have contributed and gains the one
   * `running` contributes.
   */
  lemma PendingAfterEvent(prod: seq<nat>, last: seq<nat>, nr: seq<nat>, now: nat,
                          k: nat, running: nat, newNr: nat)
    requires |prod| == |last| == |nr| && k < |prod|
    requires forall c :: 0 <= c < |last| ==> last[c] <= now
    ensures Pending(prod[k := prod[k] + running * (now - last[k])], last[k := now], nr[k := newNr], now)
            + nr[k] * (now - last[k])
            == Pending(prod, last, nr, now) + running * (now - last[k])
  {
    PendingUpdateAt(prod, last, nr, now, k, prod[k] + running * (now - last[k]), now, newNr, |prod|);
    assert newNr * (now - now) == 0;
  }

  /** The integral only grows as time passes. */
  lemma {:induction false} PendingGrowsWithTime(prod: seq<nat>, last: seq<nat>, nr: seq<nat>, t1: nat, t2: nat, n: nat)
    requires |prod| == |last| == |nr| && n <= |prod|
    requires forall c :: 0 <= c < |last| ==> last[c] <= t1
    requires t1 <= t2
    ensures PendingBelow(prod, last, nr, t1, n) <= PendingBelow(prod, last, nr, t2, n)
  {
    if n > 0 {
      var k := n - 1;
      PendingGrowsWithTime(prod, last, nr, t1, t2, k);
      MulMonotone(nr[k], t1 - last[k], t2 - last[k]);
    }
  }

  lemma MulMonotone(a: nat, x: nat, y: nat)
    requires x <= y
    ensures a * x <= a * y
  {
  }

  /**
   * The value the poll reports: the integral times 100 divided by the elapsed
   * time, rounded down, and 0 when no time has elapsed.
   */
  function Average(total: nat, elapsed: nat): (avg: nat)
    ensures elapsed == 0 ==> avg == 0
    ensures elapsed > 0 ==> avg * elapsed <= total * 100 < (avg + 1) * elapsed
  {
    if elapsed == 0 then 0 else total * 100 / elapsed
  }

  /**
   * The increment sched_update_nr_prod adds on the 32-bit ARM build it was
   * written for: `diff` is an `int` and `nr_running * diff` is evaluated in
   * 32-bit `unsigned long`, so the product is taken modulo 2^32.
   */
  function ProductAsWritten(nrRunning: nat, elapsed: nat): (p: nat)
    requires nrRunning < Word32
    ensures p < Word32
    ensures nrRunning * elapsed < Word32 ==> p == nrRunning * elapsed
  {
    ProductFitsExactly(nrRunning, elapsed);
    (nrRunning * (elapsed % Word32)) % Word32
  }

  /** When the true product fits in 32 bits, truncating `diff` and the product loses nothing. */
  lemma ProductFitsExactly(nrRunning: nat, elapsed: nat)
    ensures nrRunning * elapsed < Word32 ==> (nrRunning * (elapsed % Word32)) % Word32 == nrRunning * elapsed
  {
    if nrRunning * elapsed < Word32 && nrRunning > 0 {
      if elapsed >= Word32 {
        MulMonotone(nrRunning, Word32, elapsed);
      }
      assert elapsed % Word32 == elapsed;
    }
  }

  /**
   * Two runnable threads left undisturbed for three seconds: the 32-bit
   * product wraps and the integral loses 2^32 thread-nanoseconds.
   */
  lemma ProductWrapsAfterThreeSeconds()
    ensures ProductAsWritten(2, 3_000_000_000) == 1_705_032_704
    ensures ProductAsWritten(2, 3_000_000_000) + Word32 == 2 * 3_000_000_000
  {
  }

  /** The per-CPU counters and the time of the previous poll. */
  class RunQueueStats {
    /** Accumulated product of runnable count and time, per CPU. */
    const nrProdSum: array<nat>
    /** Clock reading of each CPU's last event. */
    const lastTime: array<nat>
    /** Runnable count recorded at each CPU's last event. */
    const nr: array<nat>
    /** Clock reading of the last poll that found time had elapsed. */
    var lastGetTime: nat
    /** The latest clock reading the counters have seen. */
    ghost var clock: nat

    ghost predicate Valid()
      reads this, nrProdSum, lastTime, nr
    {
      && nrProdSum.Length == lastTime.Length == nr.Length
      && nrProdSum != lastTime && lastTime != nr && nrProdSum != nr
      && lastGetTime <= clock
      && forall c :: 0 <= c < lastTime.Length ==> lastTime[c] <= clock
    }

    /** The integral the counters hold when folded up to `now`. */
    ghost function Integral(now: nat): nat
      reads this, nrProdSum, lastTime, nr
      requires Valid() && clock <= now
    {
      Pending(nrProdSum[..], lastTime[..], nr[..], now)
    }

    /** Statically initialised per-CPU counters for `cpus` possible CPUs: all zero. */
    constructor (cpus: nat)
      ensures Valid() && fresh(nrProdSum) && fresh(lastTime) && fresh(nr)
      ensures nrProdSum.Length == cpus && lastGetTime == 0 && clock == 0
      ensures forall c :: 0 <= c < cpus ==> nrProdSum[c] == 0 && lastTime[c] == 0 && nr[c] == 0
    {
      nrProdSum := new nat[cpus](_ => 0);
      lastTime := new nat[cpus](_ => 0);
      nr := new nat[cpus](_ => 0);
      lastGetTime := 0;
      clock := 0;
    }

    /**
     * sched_get_nr_running_avg: drains every CPU's integral up to `now` and
     * returns its average since the previous poll, or 0, changing nothing,
     * when no time has elapsed.
     */
    method GetNrRunningAvg(now: nat) returns (avg: nat)
      requires Valid() && clock <= now
      modifies this, nrProdSum, lastTime
      ensures Valid() && clock == now
      ensures now == old(lastGetTime) ==>
        && avg == 0
        && lastGetTime == old(lastGetTime)
        && nrProdSum[..] == old(nrProdSum[..])
        && lastTime[..] == old(lastTime[..])
      ensures now > old(lastGetTime) ==>
        && avg == Average(old(Integral(now)), now - old(lastGetTime))
        && lastGetTime == now
        && (forall c :: 0 <= c < nrProdSum.Length ==> nrProdSum[c] == 0 && lastTime[c] == now)
        && Integral(now) == 0
    {
      avg := 0;
      var diff := now - lastGetTime;
      clock := now;
      if diff == 0 {
        return;
      }
      lastGetTime := now;
      var total := Drain(now);
      avg := total * 100 / diff;
    }

    /**
     * The loop over the possible CPUs: sums each CPU's integral up to `now`
     * and restarts its counters there.
     */
    method Drain(now: nat) returns (total: nat)
      requires Valid() && clock == now
      modifies nrProdSum, lastTime
      ensures Valid()
      ensures total == old(Integral(now))
      ensures forall c :: 0 <= c < nrProdSum.Length ==> nrProdSum[c] == 0 && lastTime[c] == now
      ensures Integral(now) == 0
    {
      ghost var prod0, last0 := nrProdSum[..], lastTime[..];
      total := 0;
      var cpu := 0;
      while cpu < nrProdSum.Length
        invariant 0 <= cpu <= nrProdSum.Length
        invariant forall c :: 0 <= c < cpu ==> nrProdSum[c] == 0 && lastTime[c] == now
        invariant forall c :: cpu <= c < nrProdSum.Length ==> nrProdSum[c] == prod0[c] && lastTime[c] == last0[c]
        invariant total == PendingBelow(prod0, last0, nr[..], now, cpu)
      {
        total := total + nrProdSum[cpu];
        total := total + nr[cpu] * (now - lastTime[cpu]);
        lastTime[cpu] := now;
        nrProdSum[cpu] := 0;
        cpu := cpu + 1;
      }
      DrainedPendingIsZero(nrProdSum[..], lastTime[..], nr[..], now, nr.Length);
    }

    /**
     * sched_update_nr_prod: folds `nrRunning` times the time since the CPU's
     * last event into its product, then records the new count and the time.
     * Only the given CPU's counters change.
     */
    method UpdateNrProd(cpu: nat, nrRunning: nat, inc: bool, now: nat)
      requires Valid() && cpu < nr.Length && clock <= now
      requires inc || nrRunning >= 1
      modifies this`clock, nrProdSum, lastTime, nr
      ensures Valid() && clock == now && lastGetTime == old(lastGetTime)
      ensures lastTime[..] == old(lastTime[..])[cpu := now]
      ensures nr[..] == old(nr[..])[cpu := if inc then nrRunning + 1 else nrRunning - 1]
      ensures nrProdSum[..] == old(nrProdSum[..])[cpu := old(nrProdSum[cpu]) + nrRunning * (now - old(lastTime[cpu]))]
      ensures nrProdSum[cpu] >= old(nrProdSum[cpu])
      ensures Integral(now) + old(nr[cpu]) * (now - old(lastTime[cpu]))
              == old(Integral(now)) + nrRunning * (now - old(lastTime[cpu]))
      ensures old(nr[cpu]) == nrRunning ==> Integral(now) == old(Integral(now))
    {
      ghost var prod0, last0, nr0 := nrProdSum[..], lastTime[..], nr[..];
      var diff := now - lastTime[cpu];
      lastTime[cpu] := now;
      nr[cpu] := if inc then nrRunning + 1 else nrRunning - 1;
      nrProdSum[cpu] := nrProdSum[cpu] + nrRunning * diff;
      clock := now;
      PendingAfterEvent(prod0, last0, nr0, now, cpu, nrRunning, nr[cpu]);
      assert nrProdSum[..] == prod0[cpu := prod0[cpu] + nrRunning * (now - last0[cpu])];
      assert lastTime[..] == last0[cpu := now];
      assert nr[..] == nr0[cpu := nr[cpu]];
    }
  }

  /**
   * Drain idempotence: a second poll at the same clock reading reports 0, and
   * the first one leaves nothing behind when time had elapsed.
   */
  method PollTwice(s: RunQueueStats, now: nat) returns (first: nat, second: nat)
    requires s.Valid() && s.clock <= now
    modifies s, s.nrProdSum, s.lastTime
    ensures s.Valid() && s.clock == now && second == 0
    ensures now > old(s.lastGetTime) ==> first == Average(old(s.Integral(now)), now - old(s.lastGetTime))
    ensures s.Integral(now) == 0 || now == old(s.lastGetTime)
  {
    first := s.GetNrRunningAvg(now);
    second := s.GetNrRunningAvg(now);
  }
}
