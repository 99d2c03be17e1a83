# ntttcp utilities: a verified Dafny model

This project models the computational core of `src/util.c` in ntttcp-for-linux, a network throughput benchmark. That core is:

- the post-run aggregation `process_test_results`, which fills an endpoint's result record and its per-thread records in place;
- the sender's RTT averaging `run_ntttcp_rtt_calculation_for_sender`;
- the XML text escaper `escape_char_for_xml`;
- the unit helpers `unit_atod` (the binary size suffix) and `format_throughput` (the bits-per-second ladder);
- the connection-budget test of `check_resource_limit`.

The model has these modules:

- `Unsigned` writes out C's unsigned wrap-around: `unsigned int` is `u32` modulo 2^32 and `uint64_t` is `u64` modulo 2^64.
- `Ieee` gives `double` as an exact real extended with the two infinities and NaN. Division by zero and NaN propagation follow IEEE 754. Rounding does not.
- `XmlEscape` has the escaper as a method over two `array<char>` buffers. It is specified by the pure functions `Escape` and `TranslatedCount`, with a decoder `Unescape` as the partner of `Escape`.
- `Rtt` has the pure specification of the RTT average: filter out the sentinel `(uint) -1`, take the 32-bit sum, divide by the count.
- `Units` has `unit_atod`'s multiplier as a function and `format_throughput`'s loop as a method. The method is proved equal to the closed form `v / 1000^k` at the index `UnitIndex(v)`.
- `ResourceLimit` has the connection count and the comparison against the soft limit.
- `Metrics` has the closed formulas of each derived figure. They follow C's integer divisions and 64-bit deltas.
- `Aggregation` has classes for the endpoint, its result record and its thread records:
  - the fields the test engine fills in before the pass are `const`;
  - the fields `process_test_results` writes are `var`;
  - its methods are proved to leave every written field equal to its formula, and everything else unchanged.

Two behaviours of the code are easy to misread:

- `escape_char_for_xml` returns the number of characters it translated or dropped, not the number it copied. `"plain"` gives 0, `"<a&b>"` gives 3, and a newline counts 1. See `XmlEscape.EscapeExamplePlain`, `XmlEscape.EscapeExampleMarkup` and `XmlEscape.EscapeExampleNewline`.
- `format_throughput` multiplies the byte count by 8 before choosing a unit. So 999 bytes in one second is 7992 bps, which is printed in `Kbps`.

## Model

| member | source | states |
|---|---|---|
| Ieee.Div | src/util.c:87-124 | `double` division: NaN propagates; a finite quotient by a nonzero divisor × the divisor gives the dividend; by zero it is never finite; a finite value over an infinity is 0 |
| Ieee.Mul | src/util.c:89-121 | `double` multiplication: NaN propagates; finite operands give their product; an infinity times zero is NaN; +inf times a positive value is +inf |
| Ieee.Sub | src/util.c:121 | `double` subtraction: NaN propagates; a finite difference plus the subtrahend gives the minuend; equal infinities give NaN; a finite value less an infinity is the opposite infinity |
| Unsigned.Inc32 | src/util.c:277 | `count++` on an `unsigned int`: one more, or 0 after 2^32-1 |
| Unsigned.Dec32 | src/util.c:302 | `count--` on an `unsigned int`: one less, or 2^32-1 below 0 |
| Unsigned.Add32 | src/util.c:21 | `total_rtt += x` on `uint`: the sum, less 2^32 when it overflows |
| Unsigned.Mul32 | src/util.c:495 | `uint` multiplication: the product when it fits, and always congruent to it modulo 2^32 |
| Unsigned.Add64 | src/util.c:107 | `packets_sent + packets_received` on `uint64_t`: the sum, less 2^64 when it overflows |
| Unsigned.Sub64 | src/util.c:104-106 | a `uint64_t` counter delta: `final - init`, or `final + 2^64 - init` when the counter wrapped |
| Unsigned.Inc32Mod | src/util.c:277 | counting modulo 2^32 step by step equals reducing the exact count once |
| Unsigned.Add32Mod | src/util.c:21 | summing modulo 2^32 step by step equals reducing the exact sum once |
| Unsigned.Mul32Twice | src/util.c:495 | reducing after each of the two `uint` multiplications equals reducing the exact product once |
| Unsigned.Div32 | src/util.c:27 | `uint` division: the quotient q satisfies q × b <= a < (q + 1) × b, so it never exceeds the dividend |
| XmlEscape.Entity | src/util.c:278-305 | a character is translated exactly when its output differs from itself; no output is longer than 6 characters |
| XmlEscape.CString | src/util.c:276 | the loop's input: the characters before the first NUL, a prefix of the buffer free of NUL |
| XmlEscape.EscapeConcat | src/util.c:276-306 | the escaped text of a concatenation is the concatenation of the escaped texts |
| XmlEscape.TranslatedCountConcat | src/util.c:276-306 | the count of a concatenation is the sum of the counts |
| XmlEscape.Escape | src/util.c:276-307 | the escaped text has at most 6 characters per input character |
| XmlEscape.EscapeLengthBounds | src/util.c:276-306 | the escaped text keeps at least one character per untranslated input character |
| XmlEscape.TranslatedCount | src/util.c:273-307 | the translated-or-dropped count never exceeds the input length |
| XmlEscape.CountPrefixStep | src/util.c:277-302 | one more input character raises the count by one exactly when it is translated or dropped |
| XmlEscape.EscapePlain | src/util.c:273-307 | the count is 0 exactly when no character is reserved or a newline; such text is copied unchanged |
| XmlEscape.EscapeIsMarkupFree | src/util.c:278-300 | no `<`, `>`, `'`, `"` or newline remains in the output |
| XmlEscape.EscapeAmpersandsStartEntities | src/util.c:278-290 | every `&` in the output begins one of `&gt;`, `&lt;`, `&amp;`, `&apos;`, `&quot;`: no bare `&` gets through |
| XmlEscape.EntityAmpersand | src/util.c:278-290 | within one character's output an `&` is only ever the first character of an entity |
| XmlEscape.EscapeExamplePlain | src/util.c:273-307 | `"plain"` is copied unchanged with count 0 |
| XmlEscape.EscapeExampleMarkup | src/util.c:273-307 | `"<a&b>"` becomes `&lt;a&amp;b&gt;` (15 characters) with count 3, so the count is not the output length |
| XmlEscape.EscapeExampleNewline | src/util.c:299-300 | a newline is dropped and counted |
| XmlEscape.UnescapeEscape | src/util.c:276-306 | decoding the escaped text gives back the input without its newlines |
| XmlEscape.UnescapeEntity | src/util.c:278-305 | each character's output decodes back to the character (nothing for a newline), whatever follows it |
| XmlEscape.CopyInto | src/util.c:280 | `memcpy(out + pos, text, n)` writes `text` at `pos` and leaves the rest of `out` as it was |
| XmlEscape.EscapeStep | src/util.c:277-305 | one pass of the switch: writes the character's entity at the cursor, advances the cursor by its width, and leaves the count one higher only for a translated character |
| XmlEscape.EscapeNext | src/util.c:276-306 | one iteration at input position i: the output prefix grows from the escaped text of the first i characters to that of the first i + 1, the count follows, and nothing past the escaped text changes |
| XmlEscape.CStringAt | src/util.c:276 | the loop test `in[pos_in]` is NUL exactly at the end of the C string, and before that reads the string's characters |
| XmlEscape.EscapeCharForXml | src/util.c:271-308 | `out` starts with the escaped text of the input's C string; every later cell is unchanged, so no NUL is written; the result is the translated-or-dropped count modulo 2^32 |
| Rtt.ValidSamples | src/util.c:20 | the kept samples are never the sentinel and are no more than the samples |
| Rtt.NoValidSamples | src/util.c:20 | nothing is kept exactly when every sample is the sentinel |
| Rtt.AverageRtt | src/util.c:18-27 | no average exactly when every sample is the sentinel |
| Rtt.AverageIsQuotient | src/util.c:21-27 | the stored average q satisfies q × n <= the 32-bit sum of the n kept samples < (q + 1) × n |
| Rtt.ValidSamplesConcat | src/util.c:18-24 | filtering distributes over concatenation |
| Rtt.SumConcat | src/util.c:21 | summing distributes over concatenation |
| Rtt.ValidSamplesMembers | src/util.c:20 | a value is kept exactly when it is a sample and not the sentinel |
| Rtt.ValidSamplesIdempotent | src/util.c:20 | filtering twice keeps what filtering once keeps |
| Rtt.AverageOfSameSamples | src/util.c:18-27 | the average depends only on the kept samples |
| Rtt.AverageIgnoresSentinels | src/util.c:18-27 | inserting a sentinel anywhere does not change the average |
| Rtt.AverageOfValidSamples | src/util.c:18-27 | averaging the kept samples gives the same result as averaging all |
| Rtt.SumBounds | src/util.c:21 | a sum of n terms within [lo, hi] lies within [n·lo, n·hi] |
| Rtt.AverageWithinSamples | src/util.c:26-27 | the average never exceeds the largest kept sample, and is at least the smallest one when the sum does not wrap |
| Rtt.AverageOfEqualSamples | src/util.c:18-27 | equal kept samples, among any number of sentinels, average to that value when their sum fits in 32 bits |
| Rtt.AverageWraps | src/util.c:12-27 | two samples of 2^31 wrap the `uint` sum to 0, so the stored average is 0 |
| Units.BinaryConstants | src/util.c:35-37 | `KIBI`, `MEBI`, `GIBI` are 2^10, 2^20, 2^30 |
| Units.UnitAtod | src/util.c:40-59 | `g`/`G` scales by `GIBI`, `m`/`M` by `MEBI`, `k`/`K` by `KIBI`; any other suffix or none leaves the number as it is |
| Units.SuffixMultiplier | src/util.c:46-58 | the factor is 1, `KIBI`, `MEBI` or `GIBI`, and differs from 1 exactly for the six suffix letters |
| Units.SuffixMultiplierFacts | src/util.c:46-58 | every factor is a power of two up to 2^30; a lower-case suffix scales as its upper-case form |
| Units.UnitIndex | src/util.c:421-424 | the unit index lies in 0..3 |
| Units.BitsPerSecond | src/util.c:420 | over a nonzero duration, × duration gives bytes × 8; over zero duration +inf for any byte, NaN for none |
| Units.Scaled | src/util.c:422 | a finite value × 1000^k gives back the unscaled value; an infinity or NaN is unchanged |
| Units.ScaledStep | src/util.c:422 | one more division by 1000 reaches the next tier |
| Units.FormatThroughput | src/util.c:414-428 | the value printed is bytes × 8 / duration divided by 1000 once per tier, and the unit is `unit_bps` at the tier the loop stops at |
| Units.UnitIndexFacts | src/util.c:420-426 | the index is 0 exactly when the figure does not exceed 1000; below the last tier the printed value is at most 1000; above tier 0 a finite printed value exceeds 1 |
| Units.UnitIndexMonotone | src/util.c:420-424 | a larger figure never gets a smaller unit |
| Units.LadderSaturates | src/util.c:414-428 | the ladder stops at `Gbps`: 2·10^12 bps prints as 2000 Gbps, and an infinite figure stays infinite in Gbps |
| ResourceLimit.ExpectedConnections | src/util.c:494-502 | client: ports × threads per port × connections per thread modulo 2^32; receiver: the port count |
| ResourceLimit.CheckResourceLimit | src/util.c:504-513 | passes exactly when the expected count does not exceed the soft limit |
| ResourceLimit.ClientExact | src/util.c:494-513 | without overflow the client's count is the exact product, and it passes exactly when the product fits the limit |
| ResourceLimit.LimitMonotone | src/util.c:504-513 | raising the soft limit never turns a pass into a failure |
| ResourceLimit.CheckExamples | src/util.c:494-513 | 2 ports × 4 threads × 10 connections is 80: limit 100 passes, 50 fails, a receiver passes |
| ResourceLimit.ClientWraps | src/util.c:495 | 65536 × 65536 × 1 wraps to 0, so a soft limit of 0 passes |
| Metrics.ThreadKBps | src/util.c:87 | over a nonzero time, `KBps` × time is the whole kibibytes moved, within one kibibyte of the bytes |
| Metrics.ThreadMBps | src/util.c:88 | over a nonzero time, `MBps` × time × 2^20 is the whole kibibytes moved, in bytes |
| Metrics.ThreadMbps | src/util.c:89 | over a nonzero time, `mbps` × time × 2^20 is 8 × the whole kibibytes moved, in bytes |
| Metrics.ThreadRates | src/util.c:87-89 | over a nonzero time `mbps` is finite and equals `KBps` × 8 / 1024; over zero time it is NaN without a whole kibibyte, infinite with one |
| Metrics.PerSecond | src/util.c:96-102 | over a nonzero duration a rate is finite and rate × duration is the 64-bit counter delta |
| Metrics.PacketsPerInterrupt | src/util.c:107 | always finite and non-negative; 0 without interrupts; otherwise × interrupts is the 64-bit packet sum |
| Metrics.CpuFraction | src/util.c:109-114 | when the total time moved, the fraction × the total delta is the state's 64-bit delta; otherwise it is not a finite number |
| Metrics.CpuFractionBounds | src/util.c:109-114 | a state's share lies in [0, 1] when the counters advanced and the state's delta is part of the total's |
| Metrics.RatioBounds | src/util.c:109-114 | a non-negative part of a positive total is between 0 and 1 of it |
| Metrics.TotalBytesMB | src/util.c:117 | the whole mebibytes of the byte count, truncated |
| Metrics.ThroughputMBps | src/util.c:118 | over a nonzero duration, × duration gives the whole mebibytes; over zero duration it is not finite |
| Metrics.ThroughputMbps | src/util.c:119 | 8 × `throughput_MBps`, so × duration gives 8 × the whole mebibytes; infinite over zero duration with a whole mebibyte |
| Metrics.CyclesPerByte | src/util.c:120-121 | 0 when no byte moved; finite whenever the idle fraction is; otherwise × bytes is the busy cycles of all cores |
| Metrics.CpuBusyPercent | src/util.c:123-124 | over a wall time that moved, × the wall time is the process clock delta |
| Aggregation.RetransRatesOf | src/util.c:96-102 | over a nonzero duration each of the seven retransmission rates is finite and × duration is its counter's delta |
| Aggregation.PacketCountsOf | src/util.c:104-107 | each delta added back to its first reading gives the last one; interrupts are 0 exactly when the counter did not move; the ratio is finite and non-negative |
| Aggregation.CpuFractionsOf | src/util.c:109-114 | when the total CPU time moved, all five fractions are finite |
| Aggregation.XmlCountersOf | src/util.c:116-125 | `total_bytes_MB` the whole mebibytes of the byte count, `throughput_MBps` those over the duration, `throughput_mbps` 8 × `throughput_MBps`, cycles per byte from the idle fraction (0 without bytes), the retransmitted-segment delta, the busy fraction from the process clock, and 0 errors |
| Aggregation.TotalsGuards | src/util.c:104-125 | a filled record has 64-bit deltas that add back to the final readings, no ratio without interrupts, no cycles per byte without bytes, `total_bytes_MB` the whole mebibytes of the byte count, the retransmit delta and no errors |
| Aggregation.EndpointResults.ComputeTotals | src/util.c:93-125 | every whole-run field holds its formula over the snapshots, computed in the source's order; the RTT average is untouched |
| Aggregation.TestEndpoint.RttSamples | src/util.c:18-19 | the samples are the `average_rtt` of the first `total_threads` connections, sync threads included |
| Aggregation.RttStep | src/util.c:18-24 | one iteration of the RTT loop: a kept sample adds to the 32-bit sum and the count, a sentinel changes neither, so both stay the sum and number of kept samples so far |
| Aggregation.TestEndpoint.RttCalculationForSender | src/util.c:9-28 | with a kept sample, `average_rtt` becomes the 32-bit sum of the kept samples over their number; without one it keeps its value |
| Aggregation.TestEndpoint.ComputeThreadRates | src/util.c:82-90 | every non-sync thread gets `KBps`, `MBps` and `mbps` from its bytes and time; sync threads are left as they were |
| Aggregation.TestEndpoint.ProcessTestResults | src/util.c:70-132 | zero duration: -1, and no result or thread field written; otherwise 0, sync threads untouched, every other thread's rates set, every whole-run field set, and the RTT average set only for a TCP sender with a kept sample |

## Left out

- The reporters `print_test_results` and `write_result_into_log_file` are left out as console and XML rendering. They read the fields `process_test_results` fills in, and they also hold reporting logic of their own that the model does not capture:
  - they skip the synchronisation threads when listing per-thread results (src/util.c:151, 365);
  - a client reports a connection total summed over all its streams, synchronisation threads included (src/util.c:164-165);
  - a mismatch between the initial and final CPU counts is reported as an error instead of the core count (src/util.c:216-222);
  - the XML root element is `ntttcpr` for a receiver and `ntttcps` for a sender (src/util.c:329, 408);
  - the `<os>` element holds `"Unknown"` when the `uname -a` capture returned nothing, and the escaped capture otherwise (src/util.c:404-406).
- `execute_system_cmd_by_process` and `set_socket_non_blocking` are leaf calls into the C library and the operating system.
- `retrive_ip_address_str`, `retrive_ip4_address_str` and `retrive_ip6_address_str` are thin wrappers over `inet_ntop`.
- `get_time_diff` is `fabs` over two `double` timestamps. Its result comes into the model only as the measured durations.
- The calls `read_value_from_proc` (the CPU speed) and `getrlimit` (the soft limit on open files) are not modelled. Their results are parameters: the `cpuSpeedMhz` of `ProcessTestResults` and the `softLimit` of `CheckResourceLimit`.
- The `sscanf` part of `unit_atod` is not modelled. `UnitAtod` takes the number it reads and the character after it as parameters.
- Floating-point rounding, the sign of zero and the wider `long double` used by the CPU fractions are not modelled. A zero divisor is taken to be +0.
- The `%.2f` and `%s` rendering of `format_throughput` is not modelled. `FormatThroughput` returns the value and the unit name that are printed. The rest of the XML and console text is also outside the model.
- `src/util.h` is not part of this model, so the field types are inferred from use:
  - counters are `uint64_t`;
  - the core count and `server_ports`, `threads_per_server_port` and `conns_per_thread` are `unsigned int`;
  - the process clock is a signed integer;
  - wall times are `double`.
- `Aggregation.EndpointResults`: the derived fields that C keeps flat are grouped into four records: the retransmission rates, the packet counts, the CPU fractions and the XML counters. The values and the order in which they are computed are as in the source.
- `Aggregation.TestEndpoint.ProcessTestResults` requires distinct thread record objects. Two threads sharing one record would make the skip rule ambiguous, and the source never creates that situation.
- `XmlEscape.EscapeCharForXml` requires `out` to be a different buffer from `inp` and large enough for the escaped text, as the C function assumes but does not check. An input buffer without a NUL, which would be read past its end in C, is excluded.
