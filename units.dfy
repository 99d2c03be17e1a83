/** The two unit helpers: `unit_atod`, which scales a size given with a
    binary suffix (`k`, `m`, `g`), and `format_throughput`, which picks the
    decimal bits-per-second unit a throughput is printed in. */
module Units {
  import opened Unsigned
  import opened Ieee

  const KIBI: nat := 1024
  const MEBI: nat := 1048576
  const GIBI: nat := 1073741824
  const BYTE_TO_BITS: nat := 8

  /** 2^n, the reference for the `1 << n` constants above. */
  function Pow2(n: nat): (p: nat)
    ensures p >= 1
  {
    if n == 0 then 1 else 2 * Pow2(n - 1)
  }

  /** The constants are the powers of two `1 << 10`, `1 << 20`, `1 << 30`. */
  lemma BinaryConstants()
    ensures KIBI == Pow2(10) && MEBI == Pow2(20) && GIBI == Pow2(30)
  {
    assert Pow2(5) == 32;
    assert Pow2(10) == 32 * Pow2(5) by { ShiftAdd(5, 5); }
    assert Pow2(20) == Pow2(10) * Pow2(10) by { ShiftAdd(10, 10); }
    assert Pow2(30) == Pow2(20) * Pow2(10) by { ShiftAdd(20, 10); }
  }

  /** 2^(a+b) == 2^a * 2^b. */
  lemma {:induction false} ShiftAdd(a: nat, b: nat)
    ensures Pow2(a + b) == Pow2(a) * Pow2(b)
  {
    if b > 0 {
      ShiftAdd(a, b - 1);
    }
  }

  /** The factor `unit_atod` applies for the character that follows the
      number (`'\0'` when there is none). */
  function SuffixMultiplier(suffix: char): (m: nat)
    ensures m == 1 || m == KIBI || m == MEBI || m == GIBI
    ensures m != 1 <==> suffix == 'g' || suffix == 'G' || suffix == 'm' || suffix == 'M' || suffix == 'k' || suffix == 'K'
  {
    match suffix
    case 'g' | 'G' => GIBI
    case 'm' | 'M' => MEBI
    case 'k' | 'K' => KIBI
    case _ => 1
  }

  /** `unit_atod`, given the number `sscanf` read and the character after it. */
  function UnitAtod(n: real, suffix: char): (r: real)
    ensures suffix == 'g' || suffix == 'G' ==> r == n * GIBI as real
    ensures suffix == 'm' || suffix == 'M' ==> r == n * MEBI as real
    ensures suffix == 'k' || suffix == 'K' ==> r == n * KIBI as real
    ensures suffix !in "gGmMkK" ==> r == n
  {
    n * SuffixMultiplier(suffix) as real
  }

  /** Every factor is a power of two, and an upper-case suffix scales exactly
      as its lower-case form. */
  lemma SuffixMultiplierFacts(c: char)
    ensures exists k: nat :: k <= 30 && SuffixMultiplier(c) == Pow2(k)
    ensures 'a' <= c <= 'z' ==> SuffixMultiplier(c) == SuffixMultiplier((c as int - 32) as char)
  {
    BinaryConstants();
    var m := SuffixMultiplier(c);
    if m == GIBI {
      assert m == Pow2(30);
    } else if m == MEBI {
      assert m == Pow2(20);
    } else if m == KIBI {
      assert m == Pow2(10);
    } else {
      assert m == Pow2(0);
    }
    if 'a' <= c <= 'z' {
      var u := (c as int - 32) as char;
      if c == 'g' {
        assert u == 'G';
      } else if c == 'm' {
        assert u == 'M';
      } else if c == 'k' {
        assert u == 'K';
      } else {
        assert u != 'G' && u != 'M' && u != 'K' && u != 'g' && u != 'm' && u != 'k';
      }
    }
  }

  /** The unit names `unit_bps[0..3]`. */
  const UNIT_BPS: seq<string> := ["bps", "Kbps", "Mbps", "Gbps"]

  /** 1000^k as a real. */
  function Pow1000(k: nat): (p: real)
    ensures p >= 1.0
  {
    if k == 0 then 1.0 else 1000.0 * Pow1000(k - 1)
  }

  /** A value divided by 1000 `k` times. */
  function Scaled(v: Double, k: nat): (r: Double)
    ensures v.Finite? ==> r.Finite? && r.v * Pow1000(k) == v.v
    ensures !v.Finite? ==> r == v
  {
    match v
    case Finite(x) => Finite(x / Pow1000(k))
    case _ => v
  }

  /** The bits-per-second figure `format_throughput` starts from. */
  function BitsPerSecond(bytes: u64, duration: real): (r: Double)
    ensures duration != 0.0 ==> r.Finite? && r.v * duration == bytes as real * 8.0
    ensures duration == 0.0 && bytes > 0 ==> r == PosInf
    ensures duration == 0.0 && bytes == 0 ==> r.NaN?
  {
    Div(Finite(bytes as real * 8.0), Finite(duration))
  }

  /** The unit index `format_throughput` settles on: the first tier at which
      the scaled value no longer exceeds 1000, or the last tier. */
  function UnitIndex(v: Double): (k: nat)
    ensures k <= 3
  {
    if !Greater(v, 1000.0) then 0
    else if !Greater(Scaled(v, 1), 1000.0) then 1
    else if !Greater(Scaled(v, 2), 1000.0) then 2
    else 3
  }

  /** Dividing once more by 1000 is the next tier. */
  lemma ScaledStep(v: Double, k: nat)
    ensures Div(Scaled(v, k), Finite(1000.0)) == Scaled(v, k + 1)
  {
    if v.Finite? {
      var p := Pow1000(k);
      assert v.v / p / 1000.0 == v.v / (1000.0 * p);
    }
  }

  /** `format_throughput(bytes, duration)`: the value and the unit it prints
      (`"%.2f%s"`). The value is the throughput scaled to that unit. */
  method FormatThroughput(bytesTransferred: u64, testDuration: real) returns (value: Double, unit: string)
    ensures var v := BitsPerSecond(bytesTransferred, testDuration);
      value == Scaled(v, UnitIndex(v)) && unit == UNIT_BPS[UnitIndex(v)]
  {
    ghost var v := BitsPerSecond(bytesTransferred, testDuration);
    var tmp := Div(Finite(bytesTransferred as real * 8.0), Finite(testDuration));
    var unitIdx := 0;
    while Greater(tmp, 1000.0) && unitIdx < 3
      invariant 0 <= unitIdx <= 3
      invariant tmp == Scaled(v, unitIdx)
      invariant forall k :: 0 <= k < unitIdx ==> Greater(Scaled(v, k), 1000.0)
    {
      ScaledStep(v, unitIdx);
      tmp := Div(tmp, Finite(1000.0));
      unitIdx := unitIdx + 1;
    }
    value, unit := tmp, UNIT_BPS[unitIdx];
  }

  /** The unit index is 0 exactly when the figure does not exceed 1000; when
      it is below the last tier the printed value is at most 1000; at every
      tier above 0 the finite printed value is above 1. */
  lemma UnitIndexFacts(v: Double)
    ensures UnitIndex(v) == 0 <==> !Greater(v, 1000.0)
    ensures UnitIndex(v) < 3 ==> !Greater(Scaled(v, UnitIndex(v)), 1000.0)
    ensures v.Finite? && UnitIndex(v) > 0 ==> Scaled(v, UnitIndex(v)).v > 1.0
  {
    var k := UnitIndex(v);
    if v.Finite? && k > 0 {
      assert Scaled(v, k - 1).v > 1000.0;
      ScaledStep(v, k - 1);
    }
  }

  /** A faster link never gets a smaller unit. */
  lemma UnitIndexMonotone(x: real, y: real)
    requires 0.0 <= x <= y
    ensures UnitIndex(Finite(x)) <= UnitIndex(Finite(y))
  {
    forall k: nat | k <= 2
      ensures Scaled(Finite(x), k).v <= Scaled(Finite(y), k).v
    {
      var p := Pow1000(k);
      assert x / p <= y / p;
    }
  }

  /** The ladder stops at `Gbps`: 2 * 10^12 bits per second prints as
      2000 Gbps, and an infinite figure (zero duration) as an infinite Gbps. */
  lemma LadderSaturates()
    ensures UnitIndex(Finite(2000000000000.0)) == 3
    ensures Scaled(Finite(2000000000000.0), 3) == Finite(2000.0)
    ensures UnitIndex(BitsPerSecond(1, 0.0)) == 3 && Scaled(BitsPerSecond(1, 0.0), 3) == PosInf
  {
    assert Pow1000(3) == 1000000000.0;
  }
}
