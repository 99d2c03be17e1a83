/** The post-run aggregation `process_test_results` and the sender's RTT
    averaging `run_ntttcp_rtt_calculation_for_sender`: one pass that fills
    the derived fields of an endpoint's result record, and of each of its
    thread records, in place. The fields the test engine filled in before
    the pass are `const` here, because this core never writes them. */
module Aggregation {
  import opened Unsigned
  import opened Ieee
  import Rtt
  import Metrics
  import Units

  datatype Role = Sender | Receiver

  datatype Protocol = TCP | UDP

  /** The TCP retransmission counters of one snapshot. */
  datatype TcpRetrans = TcpRetrans(
    retransSegs: u64, tcpLostRetransmit: u64, tcpSynRetrans: u64, tcpFastRetrans: u64,
    tcpForwardRetrans: u64, tcpSlowStartRetrans: u64, tcpRetransFail: u64)

  /** Per-state CPU times of one `/proc/stat` snapshot. */
  datatype CpuStat = CpuStat(
    nproc: u32, userTime: u64, systemTime: u64, idleTime: u64, iowaitTime: u64,
    softirqTime: u64, totalTime: u64)

  /** Process CPU clock ticks and wall time of one snapshot. */
  datatype CpuUsage = CpuUsage(clock: int, time: real)

  /** What the sender's connection records contribute: their RTT sample. */
  datatype StreamClient = StreamClient(averageRtt: u32)

  /** One worker thread's result record. */
  class ThreadResult {
    const isSyncThread: bool
    const totalBytes: u64
    const actualTestTime: real
    var kBps: Double
    var mBps: Double
    var mbps: Double

    constructor (isSyncThread: bool, totalBytes: u64, actualTestTime: real)
      ensures this.isSyncThread == isSyncThread && this.totalBytes == totalBytes
      ensures this.actualTestTime == actualTestTime
    {
      this.isSyncThread, this.totalBytes, this.actualTestTime := isSyncThread, totalBytes, actualTestTime;
    }

    /** The per-thread rates the aggregation stores. */
    ghost predicate RatesSet()
      reads this
    {
      && kBps == Metrics.ThreadKBps(totalBytes, actualTestTime)
      && mBps == Metrics.ThreadMBps(totalBytes, actualTestTime)
      && mbps == Metrics.ThreadMbps(totalBytes, actualTestTime)
    }
  }

  /** The seven retransmission counters as per-second rates. */
  datatype RetransRates = RetransRates(
    retransSegmentsPerSec: Double, tcpLostRetransmitPerSec: Double, tcpSynRetransPerSec: Double,
    tcpFastRetransPerSec: Double, tcpForwardRetransPerSec: Double, tcpSlowStartRetransPerSec: Double,
    tcpRetransFailPerSec: Double)

  /** Packet and interrupt deltas over the run, and their ratio. */
  datatype PacketCounts = PacketCounts(
    packetsSent: u64, packetsReceived: u64, totalInterrupts: u64, packetsPerInterrupt: Double)

  /** Each CPU state's share of the CPU time that passed. */
  datatype CpuFractions = CpuFractions(
    cpuPsUserUsage: Double, cpuPsSystemUsage: Double, cpuPsIdleUsage: Double,
    cpuPsIowaitUsage: Double, cpuPsSoftirqUsage: Double)

  /** The counters kept for the XML report. */
  datatype XmlCounters = XmlCounters(
    totalBytesMB: Double, throughputMBps: Double, throughputMbps: Double, cyclesPerByte: Double,
    packetsRetransmitted: u64, cpuBusyPercent: Double, errors: int)

  /** The retransmission rates of `process_test_results`: each TCP
      retransmission counter's 64-bit delta per second of the test. */
  function RetransRatesOf(init: TcpRetrans, final: TcpRetrans, d: real): (r: RetransRates)
    ensures d != 0.0 ==> Metrics.IsRate(r.retransSegmentsPerSec, final.retransSegs, init.retransSegs, d)
    ensures d != 0.0 ==> Metrics.IsRate(r.tcpLostRetransmitPerSec, final.tcpLostRetransmit, init.tcpLostRetransmit, d)
    ensures d != 0.0 ==> Metrics.IsRate(r.tcpSynRetransPerSec, final.tcpSynRetrans, init.tcpSynRetrans, d)
    ensures d != 0.0 ==> Metrics.IsRate(r.tcpFastRetransPerSec, final.tcpFastRetrans, init.tcpFastRetrans, d)
    ensures d != 0.0 ==> Metrics.IsRate(r.tcpForwardRetransPerSec, final.tcpForwardRetrans, init.tcpForwardRetrans, d)
    ensures d != 0.0 ==> Metrics.IsRate(r.tcpSlowStartRetransPerSec, final.tcpSlowStartRetrans, init.tcpSlowStartRetrans, d)
    ensures d != 0.0 ==> Metrics.IsRate(r.tcpRetransFailPerSec, final.tcpRetransFail, init.tcpRetransFail, d)
  {
    RetransRates(
      Metrics.PerSecond(final.retransSegs, init.retransSegs, d),
      Metrics.PerSecond(final.tcpLostRetransmit, init.tcpLostRetransmit, d),
      Metrics.PerSecond(final.tcpSynRetrans, init.tcpSynRetrans, d),
      Metrics.PerSecond(final.tcpFastRetrans, init.tcpFastRetrans, d),
      Metrics.PerSecond(final.tcpForwardRetrans, init.tcpForwardRetrans, d),
      Metrics.PerSecond(final.tcpSlowStartRetrans, init.tcpSlowStartRetrans, d),
      Metrics.PerSecond(final.tcpRetransFail, init.tcpRetransFail, d))
  }

  /** The packet and interrupt counts of `process_test_results`: the deltas
      are 64-bit, so adding each back to its first reading gives the last
      one; the packets-per-interrupt ratio is always a finite number. */
  function PacketCountsOf(initTx: u64, finalTx: u64, initRx: u64, finalRx: u64,
                          initInterrupts: u64, finalInterrupts: u64): (p: PacketCounts)
    ensures Add64(initTx, p.packetsSent) == finalTx && Add64(initRx, p.packetsReceived) == finalRx
    ensures Add64(initInterrupts, p.totalInterrupts) == finalInterrupts
    ensures p.packetsPerInterrupt.Finite? && p.packetsPerInterrupt.v >= 0.0
    ensures p.totalInterrupts == 0 <==> initInterrupts == finalInterrupts
  {
    var sent := Sub64(finalTx, initTx);
    var received := Sub64(finalRx, initRx);
    var interrupts := Sub64(finalInterrupts, initInterrupts);
    PacketCounts(sent, received, interrupts, Metrics.PacketsPerInterrupt(sent, received, interrupts))
  }

  /** The CPU usage fractions of `process_test_results`: each state's time
      delta over the total time delta. */
  function CpuFractionsOf(init: CpuStat, final: CpuStat): (c: CpuFractions)
    ensures init.totalTime != final.totalTime ==>
      c.cpuPsUserUsage.Finite? && c.cpuPsSystemUsage.Finite? && c.cpuPsIdleUsage.Finite?
      && c.cpuPsIowaitUsage.Finite? && c.cpuPsSoftirqUsage.Finite?
  {
    CpuFractions(
      Metrics.CpuFraction(final.userTime, init.userTime, final.totalTime, init.totalTime),
      Metrics.CpuFraction(final.systemTime, init.systemTime, final.totalTime, init.totalTime),
      Metrics.CpuFraction(final.idleTime, init.idleTime, final.totalTime, init.totalTime),
      Metrics.CpuFraction(final.iowaitTime, init.iowaitTime, final.totalTime, init.totalTime),
      Metrics.CpuFraction(final.softirqTime, init.softirqTime, final.totalTime, init.totalTime))
  }

  /** The counters `process_test_results` computes for the XML report,
      which use the idle fraction and the CPU speed computed before them. */
  function XmlCountersOf(speed: real, d: real, totalBytes: u64, nproc: u32, idleUsage: Double,
                         initRetrans: TcpRetrans, finalRetrans: TcpRetrans,
                         initUsage: CpuUsage, finalUsage: CpuUsage): (x: XmlCounters)
    ensures x.totalBytesMB == Finite(Metrics.TotalBytesMB(totalBytes) as real)
    ensures x.totalBytesMB.v * Units.MEBI as real <= totalBytes as real
    ensures x.throughputMBps == Metrics.ThroughputMBps(totalBytes, d)
    ensures x.throughputMbps == Mul(x.throughputMBps, Finite(Units.BYTE_TO_BITS as real))
    ensures x.cyclesPerByte == Metrics.CyclesPerByte(speed, d, nproc, idleUsage, totalBytes)
    ensures totalBytes == 0 ==> x.cyclesPerByte == Finite(0.0)
    ensures x.packetsRetransmitted == Sub64(finalRetrans.retransSegs, initRetrans.retransSegs)
    ensures x.cpuBusyPercent == Metrics.CpuBusyPercent(initUsage.clock, finalUsage.clock, initUsage.time, finalUsage.time)
    ensures x.errors == 0
  {
    XmlCounters(
      Finite(Metrics.TotalBytesMB(totalBytes) as real),
      Metrics.ThroughputMBps(totalBytes, d),
      Metrics.ThroughputMbps(totalBytes, d),
      Metrics.CyclesPerByte(speed, d, nproc, idleUsage, totalBytes),
      Sub64(finalRetrans.retransSegs, initRetrans.retransSegs),
      Metrics.CpuBusyPercent(initUsage.clock, finalUsage.clock, initUsage.time, finalUsage.time),
      0)
  }

  /** The endpoint's aggregate result record. */
  class EndpointResults {
    const threads: seq<ThreadResult>
    const totalBytes: u64
    const actualTestTime: real
    const initTcpRetrans: TcpRetrans
    const finalTcpRetrans: TcpRetrans
    const initTxPackets: u64
    const finalTxPackets: u64
    const initRxPackets: u64
    const finalRxPackets: u64
    const initInterrupts: u64
    const finalInterrupts: u64
    const initCpuPs: CpuStat
    const finalCpuPs: CpuStat
    const initCpuUsage: CpuUsage
    const finalCpuUsage: CpuUsage

    var cpuSpeedMhz: real
    var retrans: RetransRates
    var packets: PacketCounts
    var cpuPs: CpuFractions
    var xml: XmlCounters
    var averageRtt: u32

    constructor (threads: seq<ThreadResult>, totalBytes: u64, actualTestTime: real)
      ensures this.threads == threads && this.totalBytes == totalBytes
      ensures this.actualTestTime == actualTestTime
    {
      this.threads, this.totalBytes, this.actualTestTime := threads, totalBytes, actualTestTime;
    }

    /** Every whole-run derived field holds its formula over the snapshots,
        for the given CPU speed. The RTT average is not among them. */
    ghost predicate TotalsSet(speed: real)
      reads this
    {
      && cpuSpeedMhz == speed
      && retrans == RetransRatesOf(initTcpRetrans, finalTcpRetrans, actualTestTime)
      && packets == PacketCountsOf(initTxPackets, finalTxPackets, initRxPackets, finalRxPackets,
                                   initInterrupts, finalInterrupts)
      && cpuPs == CpuFractionsOf(initCpuPs, finalCpuPs)
      && xml == XmlCountersOf(speed, actualTestTime, totalBytes, finalCpuPs.nproc, cpuPs.cpuPsIdleUsage,
                              initTcpRetrans, finalTcpRetrans, initCpuUsage, finalCpuUsage)
    }

    /** The whole-run part of `process_test_results`, given the CPU speed
        read from `/proc/cpuinfo`, in the source's order: the report counters
        use the idle fraction computed just before them. */
    method ComputeTotals(speed: real)
      modifies this
      ensures TotalsSet(speed)
      ensures averageRtt == old(averageRtt)
    {
      var d := actualTestTime;
      var r := RetransRatesOf(initTcpRetrans, finalTcpRetrans, d);
      var p := PacketCountsOf(initTxPackets, finalTxPackets, initRxPackets, finalRxPackets,
                              initInterrupts, finalInterrupts);
      var c := CpuFractionsOf(initCpuPs, finalCpuPs);
      var x := XmlCountersOf(speed, d, totalBytes, finalCpuPs.nproc, c.cpuPsIdleUsage,
                             initTcpRetrans, finalTcpRetrans, initCpuUsage, finalCpuUsage);
      cpuSpeedMhz, retrans, packets, cpuPs, xml := speed, r, p, c, x;
    }
  }

  /** A test endpoint: its role, the protocol, its threads and its result. */
  class TestEndpoint {
    const endpointRole: Role
    const protocol: Protocol
    const totalThreads: u32
    const clientStreams: seq<StreamClient>
    const results: EndpointResults

    constructor (endpointRole: Role, protocol: Protocol, clientStreams: seq<StreamClient>, results: EndpointResults)
      requires |results.threads| < U32_MODULUS
      ensures this.endpointRole == endpointRole && this.protocol == protocol
      ensures this.clientStreams == clientStreams && this.results == results
      ensures totalThreads as int == |results.threads|
    {
      this.endpointRole, this.protocol, this.clientStreams, this.results :=
        endpointRole, protocol, clientStreams, results;
      this.totalThreads := |results.threads|;
    }

    /** One result record per thread, each its own object; a sender also
        holds one connection record per thread. */
    ghost predicate Valid()
    {
      && |results.threads| == totalThreads as int
      && (forall i, j :: 0 <= i < j < |results.threads| ==> results.threads[i] != results.threads[j])
      && (endpointRole == Sender ==> |clientStreams| == totalThreads as int)
    }

    /** The RTT samples the sender's loop reads. */
    function RttSamples(): (s: seq<u32>)
      requires totalThreads as int <= |clientStreams|
      ensures |s| == totalThreads as int
      ensures forall i :: 0 <= i < |s| ==> s[i] == clientStreams[i].averageRtt
    {
      seq(totalThreads as int, i requires 0 <= i < totalThreads as int => clientStreams[i].averageRtt)
    }

    /** `run_ntttcp_rtt_calculation_for_sender`: stores the 32-bit average of
        the non-sentinel RTT samples of all `total_threads` connections, and
        leaves `average_rtt` as it was when there is none. */
    method RttCalculationForSender()
      requires totalThreads as int <= |clientStreams|
      modifies results`averageRtt
      ensures Rtt.AverageRtt(RttSamples()).Some? ==> results.averageRtt == Rtt.AverageRtt(RttSamples()).value
      ensures Rtt.AverageRtt(RttSamples()).None? ==> results.averageRtt == old(results.averageRtt)
    {
      ghost var s := RttSamples();
      var i: u32 := 0;
      var totalRtt: u32 := 0;
      var numAverageRtt: u32 := 0;
      while i < totalThreads
        invariant i <= totalThreads
        invariant totalRtt as int == Rtt.Sum(Rtt.ValidSamples(s[..i])) % U32_MODULUS
        invariant numAverageRtt as int == |Rtt.ValidSamples(s[..i])| <= i as int
        invariant results.averageRtt == old(results.averageRtt)
      {
        var sc := clientStreams[i];
        RttStep(s, i as int, totalRtt, numAverageRtt);
        if sc.averageRtt != Rtt.RTT_SENTINEL {
          totalRtt := Add32(totalRtt, sc.averageRtt);
          numAverageRtt := numAverageRtt + 1;
        }
        i := i + 1;
      }
      assert s[..i] == s;
      if numAverageRtt > 0 {
        results.averageRtt := Div32(totalRtt, numAverageRtt);
      }
    }

    /** The per-thread loop of `process_test_results`: sets the rates of
        every thread that is not the synchronisation thread, and leaves the
        synchronisation threads as they were. */
    method ComputeThreadRates()
      requires Valid()
      modifies results.threads
      ensures forall t :: t in results.threads && t.isSyncThread ==> unchanged(t)
      ensures forall t :: t in results.threads && !t.isSyncThread ==> t.RatesSet()
    {
      var i: u32 := 0;
      while i < totalThreads
        invariant i <= totalThreads
        invariant forall k :: 0 <= k < i && results.threads[k].isSyncThread ==> unchanged(results.threads[k])
        invariant forall k :: 0 <= k < i && !results.threads[k].isSyncThread ==> results.threads[k].RatesSet()
        invariant forall k :: i <= k < totalThreads ==> unchanged(results.threads[k])
      {
        var t := results.threads[i];
        if !t.isSyncThread {
          t.kBps := Metrics.ThreadKBps(t.totalBytes, t.actualTestTime);
          t.mBps := Div(t.kBps, Finite(1024.0));
          t.mbps := Mul(t.mBps, Finite(8.0));
        }
        i := i + 1;
      }
      assert forall t :: t in results.threads ==> exists k :: 0 <= k < |results.threads| && results.threads[k] == t;
    }

    /** `process_test_results`: returns -1 and writes nothing when the test
        duration is zero; otherwise fills every non-synchronisation thread's
        rates (synchronisation threads keep theirs), every whole-run field,
        and, for a TCP sender only, the RTT average, and returns 0. */
    method ProcessTestResults(cpuSpeedMhz: real) returns (status: int)
      requires Valid()
      modifies results, results.threads
      ensures results.actualTestTime == 0.0 ==>
        status == -1 && unchanged(results) && unchanged(results.threads)
      ensures results.actualTestTime != 0.0 ==>
        && status == 0
        && (forall t :: t in results.threads && t.isSyncThread ==> unchanged(t))
        && (forall t :: t in results.threads && !t.isSyncThread ==> t.RatesSet())
        && results.TotalsSet(cpuSpeedMhz)
      ensures results.actualTestTime != 0.0 ==>
        if endpointRole == Sender && protocol == TCP && Rtt.AverageRtt(RttSamples()).Some?
        then results.averageRtt == Rtt.AverageRtt(RttSamples()).value
        else results.averageRtt == old(results.averageRtt)
    {
      var testDuration := results.actualTestTime;
      if testDuration == 0.0 {
        return -1;
      }

      ComputeThreadRates();
      results.ComputeTotals(cpuSpeedMhz);

      if endpointRole == Sender && protocol == TCP {
        RttCalculationForSender();
      }
      return 0;
    }
  }

  /** What a filled-in result record guarantees: 64-bit counter deltas that
      add back to the final readings, no packets-per-interrupt figure without
      interrupts, no cycles-per-byte figure without bytes, whole mebibytes of
      traffic, the retransmitted-packet delta, and no errors. */
  lemma TotalsGuards(r: EndpointResults, speed: real)
    requires r.TotalsSet(speed)
    ensures Add64(r.initTxPackets, r.packets.packetsSent) == r.finalTxPackets
    ensures Add64(r.initRxPackets, r.packets.packetsReceived) == r.finalRxPackets
    ensures Add64(r.initInterrupts, r.packets.totalInterrupts) == r.finalInterrupts
    ensures r.initTxPackets <= r.finalTxPackets ==> r.packets.packetsSent == r.finalTxPackets - r.initTxPackets
    ensures r.packets.totalInterrupts == 0 ==> r.packets.packetsPerInterrupt == Finite(0.0)
    ensures r.totalBytes == 0 ==> r.xml.cyclesPerByte == Finite(0.0)
    ensures r.xml.totalBytesMB == Finite(Metrics.TotalBytesMB(r.totalBytes) as real)
    ensures r.xml.totalBytesMB.v * Units.MEBI as real <= r.totalBytes as real
      < (r.xml.totalBytesMB.v + 1.0) * Units.MEBI as real
    ensures r.xml.packetsRetransmitted as int
      == (r.finalTcpRetrans.retransSegs - r.initTcpRetrans.retransSegs) % U64_MODULUS
    ensures r.xml.errors == 0
  {
    var q := Metrics.TotalBytesMB(r.totalBytes);
    assert r.xml.totalBytesMB == Finite(q as real);
    assert q * Units.MEBI <= r.totalBytes < (q + 1) * Units.MEBI;
  }

  /** One pass of the RTT loop keeps its running 32-bit sum and count equal
      to those of the valid samples read so far. */
  lemma RttStep(s: seq<u32>, i: nat, totalRtt: u32, numAverageRtt: u32)
    requires i < |s| < U32_MODULUS
    requires totalRtt as int == Rtt.Sum(Rtt.ValidSamples(s[..i])) % U32_MODULUS
    requires numAverageRtt as int == |Rtt.ValidSamples(s[..i])| <= i
    ensures s[i] != Rtt.RTT_SENTINEL ==>
      && Add32(totalRtt, s[i]) as int == Rtt.Sum(Rtt.ValidSamples(s[..i + 1])) % U32_MODULUS
      && numAverageRtt as int + 1 == |Rtt.ValidSamples(s[..i + 1])| <= i + 1
    ensures s[i] == Rtt.RTT_SENTINEL ==>
      && totalRtt as int == Rtt.Sum(Rtt.ValidSamples(s[..i + 1])) % U32_MODULUS
      && numAverageRtt as int == |Rtt.ValidSamples(s[..i + 1])| <= i + 1
  {
    SamplesStep(s, i);
    if s[i] != Rtt.RTT_SENTINEL {
      Add32Mod(Rtt.Sum(Rtt.ValidSamples(s[..i])), s[i]);
    }
  }

  /** Extending the prefix the RTT loop has read by one sample. */
  lemma SamplesStep(s: seq<u32>, i: nat)
    requires i < |s|
    ensures Rtt.ValidSamples(s[..i + 1]) == Rtt.ValidSamples(s[..i]) + if s[i] != Rtt.RTT_SENTINEL then [s[i]] else []
    ensures Rtt.Sum(Rtt.ValidSamples(s[..i + 1])) == Rtt.Sum(Rtt.ValidSamples(s[..i])) + if s[i] != Rtt.RTT_SENTINEL then s[i] else 0
  {
    assert s[..i + 1] == s[..i] + [s[i]];
    assert [s[i]][1..] == [];
    Rtt.ValidSamplesConcat(s[..i], [s[i]]);
    if s[i] != Rtt.RTT_SENTINEL {
      Rtt.SumConcat(Rtt.ValidSamples(s[..i]), [s[i]]);
    } else {
      assert Rtt.ValidSamples(s[..i]) + [] == Rtt.ValidSamples(s[..i]);
    }
  }
}
