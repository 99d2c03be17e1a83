/** The closed formulas `process_test_results` evaluates for each derived
    metric, with C's evaluation order and integer semantics: unsigned 64-bit
    counter deltas, integer divisions where both operands are integers, and
    `double` arithmetic (see Ieee) everywhere else. */
module Metrics {
  import opened Unsigned
  import opened Ieee
  import Units

  /** `CLOCKS_PER_SEC`, one million on every POSIX system. */
  const CLOCKS_PER_SEC: real := 1000000.0

  /** Per-thread `KBps`: `total_bytes / KIBI` is an integer division (a
      `uint64_t` by a `long`) carried out before dividing by the thread's
      `double` duration. */
  function ThreadKBps(totalBytes: u64, actualTestTime: real): (r: Double)
    ensures actualTestTime != 0.0 ==> r.Finite? && r.v * actualTestTime == (totalBytes / Units.KIBI) as real
    ensures actualTestTime != 0.0 ==>
      r.v * actualTestTime * Units.KIBI as real <= totalBytes as real < (r.v * actualTestTime + 1.0) * Units.KIBI as real
  {
    Div(Finite((totalBytes / Units.KIBI) as real), Finite(actualTestTime))
  }

  /** Per-thread `MBps`: `KBps / KIBI`. */
  function ThreadMBps(totalBytes: u64, actualTestTime: real): (r: Double)
    ensures actualTestTime != 0.0 ==>
      r.Finite? && r.v * actualTestTime * Units.MEBI as real == (totalBytes / Units.KIBI * Units.KIBI) as real
  {
    Div(ThreadKBps(totalBytes, actualTestTime), Finite(Units.KIBI as real))
  }

  /** Per-thread `mbps`: `MBps * BYTE_TO_BITS`. */
  function ThreadMbps(totalBytes: u64, actualTestTime: real): (r: Double)
    ensures actualTestTime != 0.0 ==>
      r.Finite? && r.v * actualTestTime * Units.MEBI as real == 8.0 * (totalBytes / Units.KIBI * Units.KIBI) as real
  {
    Mul(ThreadMBps(totalBytes, actualTestTime), Finite(Units.BYTE_TO_BITS as real))
  }

  /** A thread that ran for a nonzero time gets finite rates, with
      `mbps = KBps * 8 / 1024`. A thread whose measured time is zero moved no
      bytes at a NaN rate, or some bytes at an infinite one. */
  lemma ThreadRates(totalBytes: u64, actualTestTime: real)
    ensures actualTestTime != 0.0 ==>
      ThreadMbps(totalBytes, actualTestTime).Finite?
      && ThreadMbps(totalBytes, actualTestTime).v == ThreadKBps(totalBytes, actualTestTime).v * 8.0 / 1024.0
    ensures actualTestTime == 0.0 && totalBytes < Units.KIBI ==> ThreadMbps(totalBytes, actualTestTime).NaN?
    ensures actualTestTime == 0.0 && totalBytes >= Units.KIBI ==> ThreadMbps(totalBytes, actualTestTime) == PosInf
  {
  }

  /** `r` is a finite per-second rate whose product with the duration is the
      counter's 64-bit delta. */
  predicate IsRate(r: Double, final: u64, init: u64, testDuration: real)
  {
    r.Finite? && r.v * testDuration == Sub64(final, init) as real
  }

  /** A per-second rate of a counter over the test duration. */
  function PerSecond(final: u64, init: u64, testDuration: real): (r: Double)
    ensures testDuration != 0.0 ==> IsRate(r, final, init, testDuration)
  {
    Div(Finite(Sub64(final, init) as real), Finite(testDuration))
  }

  /** `packets_per_interrupt`: 0 when no interrupt was counted, otherwise the
      64-bit sum of sent and received packets over the interrupts. Never
      infinite or NaN, never negative. */
  function PacketsPerInterrupt(packetsSent: u64, packetsReceived: u64, totalInterrupts: u64): (r: Double)
    ensures r.Finite? && r.v >= 0.0
    ensures totalInterrupts == 0 ==> r.v == 0.0
    ensures totalInterrupts != 0 ==> r.v * totalInterrupts as real == Add64(packetsSent, packetsReceived) as real
  {
    if totalInterrupts == 0 then Finite(0.0)
    else Div(Finite(Add64(packetsSent, packetsReceived) as real), Finite(totalInterrupts as real))
  }

  /** One CPU-state fraction: the state's time delta over the total time
      delta (`long double`). */
  function CpuFraction(finalTime: u64, initTime: u64, finalTotal: u64, initTotal: u64): (r: Double)
    ensures Sub64(finalTotal, initTotal) != 0 ==>
      r.Finite? && r.v * Sub64(finalTotal, initTotal) as real == Sub64(finalTime, initTime) as real
    ensures Sub64(finalTotal, initTotal) == 0 ==> !r.Finite?
  {
    Div(Finite(Sub64(finalTime, initTime) as real), Finite(Sub64(finalTotal, initTotal) as real))
  }

  /** When the counters advanced and the state's share is part of the total,
      the fraction lies in [0, 1]. */
  lemma CpuFractionBounds(finalTime: u64, initTime: u64, finalTotal: u64, initTotal: u64)
    requires initTime <= finalTime && initTotal < finalTotal
    requires finalTime - initTime <= finalTotal - initTotal
    ensures CpuFraction(finalTime, initTime, finalTotal, initTotal).Finite?
    ensures 0.0 <= CpuFraction(finalTime, initTime, finalTotal, initTotal).v <= 1.0
  {
    var part, total := (finalTime - initTime) as real, (finalTotal - initTotal) as real;
    assert Sub64(finalTime, initTime) as real == part;
    assert Sub64(finalTotal, initTotal) as real == total;
    assert CpuFraction(finalTime, initTime, finalTotal, initTotal) == Finite(part / total);
    RatioBounds(part, total);
  }

  /** A part of a positive whole is between 0 and 1 of it. */
  lemma RatioBounds(part: real, total: real)
    requires 0.0 <= part <= total && total > 0.0
    ensures 0.0 <= part / total <= 1.0
  {
    var f, g := part / total, (total - part) / total;
    assert g >= 0.0;
    assert f * total == part && g * total == total - part;
    assert (f + g - 1.0) * total == 0.0;
    assert f + g == 1.0;
  }

  /** `total_bytes_MB`: the integer quotient `total_bytes / MEBI`, that is
      the whole mebibytes, truncated. */
  function TotalBytesMB(totalBytes: u64): (q: nat)
    ensures q * Units.MEBI <= totalBytes < (q + 1) * Units.MEBI
  {
    totalBytes / Units.MEBI
  }

  /** `throughput_MBps`: the whole mebibytes per second. */
  function ThroughputMBps(totalBytes: u64, testDuration: real): (r: Double)
    ensures testDuration != 0.0 ==> r.Finite? && r.v * testDuration == TotalBytesMB(totalBytes) as real
    ensures testDuration == 0.0 ==> !r.Finite?
  {
    Div(Finite(TotalBytesMB(totalBytes) as real), Finite(testDuration))
  }

  /** `throughput_mbps`: `throughput_MBps * BYTE_TO_BITS`. */
  function ThroughputMbps(totalBytes: u64, testDuration: real): (r: Double)
    ensures testDuration != 0.0 ==>
      r.Finite? && r.v == ThroughputMBps(totalBytes, testDuration).v * 8.0
      && r.v * testDuration == 8.0 * TotalBytesMB(totalBytes) as real
    ensures testDuration == 0.0 && totalBytes >= Units.MEBI ==> r == PosInf
  {
    Mul(ThroughputMBps(totalBytes, testDuration), Finite(Units.BYTE_TO_BITS as real))
  }

  /** `cycles_per_byte`: 0 when no byte moved; otherwise the busy CPU
      cycles of all cores over the bytes, which is finite whenever the idle
      fraction is. */
  function CyclesPerByte(cpuSpeedMhz: real, testDuration: real, nproc: u32, idleUsage: Double,
                         totalBytes: u64): (r: Double)
    ensures totalBytes == 0 ==> r == Finite(0.0)
    ensures idleUsage.Finite? ==> r.Finite?
    ensures totalBytes != 0 && idleUsage.Finite? ==>
      r.v * totalBytes as real == cpuSpeedMhz * 1000000.0 * testDuration * nproc as real * (1.0 - idleUsage.v)
  {
    if totalBytes == 0 then Finite(0.0)
    else
      var cycles := Finite(cpuSpeedMhz * 1000.0 * 1000.0 * testDuration * nproc as real);
      Div(Mul(cycles, Sub(Finite(1.0), idleUsage)), Finite(totalBytes as real))
  }

  /** `cpu_busy_percent`: process CPU time (clock ticks to microseconds) over
      wall time; a fraction of one core, not yet scaled to percent. */
  function CpuBusyPercent(initClock: int, finalClock: int, initTime: real, finalTime: real): (r: Double)
    ensures finalTime != initTime ==>
      r.Finite? && r.v * (finalTime - initTime) == (finalClock - initClock) as real
  {
    Div(Finite((finalClock - initClock) as real * 1000000.0 / CLOCKS_PER_SEC), Finite(finalTime - initTime))
  }
}
