/** The cross-connection average round-trip time of a TCP sender: the mean
    of the per-connection `average_rtt` samples, skipping the sentinel
    `(uint) -1` a connection reports when it has no measurement. The sum is
    a 32-bit `uint` and wraps. */
module Rtt {
  import opened Unsigned

  datatype Option<T> = None | Some(value: T)

  /** `(uint) -1`: no RTT was measured on this connection. */
  const RTT_SENTINEL: u32 := 0xFFFF_FFFF

  /** The samples that take part in the average, in order. */
  function ValidSamples(s: seq<u32>): (v: seq<u32>)
    ensures |v| <= |s|
    ensures forall i :: 0 <= i < |v| ==> v[i] != RTT_SENTINEL
  {
    if s == [] then []
    else (if s[0] != RTT_SENTINEL then [s[0]] else []) + ValidSamples(s[1..])
  }

  /** The exact (unbounded) sum of samples. */
  function Sum(s: seq<u32>): nat
  {
    if s == [] then 0 else s[0] + Sum(s[1..])
  }

  /** The stored average: the 32-bit sum of the valid samples divided by
      their number, or nothing (the field keeps its value) when there are none. */
  function AverageRtt(s: seq<u32>): (r: Option<u32>)
    ensures r.None? <==> forall i :: 0 <= i < |s| ==> s[i] == RTT_SENTINEL
  {
    NoValidSamples(s);
    var v := ValidSamples(s);
    if |v| == 0 then None else Some(((Sum(v) % U32_MODULUS) / |v|) as u32)
  }

  /** Nothing is kept exactly when every sample is the sentinel. */
  lemma {:induction false} NoValidSamples(s: seq<u32>)
    ensures ValidSamples(s) == [] <==> forall i :: 0 <= i < |s| ==> s[i] == RTT_SENTINEL
  {
    if s != [] {
      NoValidSamples(s[1..]);
      assert forall i :: 1 <= i < |s| ==> s[i] == s[1..][i - 1];
    }
  }

  /** The stored average is the truncated quotient of the 32-bit sum of the
      kept samples by their number. */
  lemma AverageIsQuotient(s: seq<u32>)
    requires AverageRtt(s).Some?
    ensures var q, n := AverageRtt(s).value, |ValidSamples(s)|;
      q * n <= Sum(ValidSamples(s)) % U32_MODULUS < (q + 1) * n
  {
    var v := ValidSamples(s);
    var w := Sum(v) % U32_MODULUS;
    DivBracket(w, |v|);
    assert AverageRtt(s).value == w / |v|;
  }

  /** A truncated quotient brackets its dividend. */
  lemma DivBracket(w: nat, n: nat)
    requires n > 0
    ensures (w / n) * n <= w < (w / n + 1) * n
  {
    var q := w / n;
    assert w == q * n + w % n;
    assert (q + 1) * n == q * n + n;
  }

  /** Filtering and summing distribute over concatenation. */
  lemma {:induction false} ValidSamplesConcat(a: seq<u32>, b: seq<u32>)
    ensures ValidSamples(a + b) == ValidSamples(a) + ValidSamples(b)
  {
    if a == [] {
      assert a + b == b;
    } else {
      assert (a + b)[1..] == a[1..] + b;
      ValidSamplesConcat(a[1..], b);
    }
  }

  lemma {:induction false} SumConcat(a: seq<u32>, b: seq<u32>)
    ensures Sum(a + b) == Sum(a) + Sum(b)
  {
    if a == [] {
      assert a + b == b;
    } else {
      assert (a + b)[1..] == a[1..] + b;
      SumConcat(a[1..], b);
    }
  }

  /** Every non-sentinel sample is kept: the valid samples are exactly the
      non-sentinel entries. */
  lemma {:induction false} ValidSamplesMembers(s: seq<u32>, x: u32)
    ensures x in ValidSamples(s) <==> x in s && x != RTT_SENTINEL
  {
    if s != [] {
      ValidSamplesMembers(s[1..], x);
      assert s == [s[0]] + s[1..];
    }
  }

  /** Filtering is idempotent, so sentinel entries, wherever they stand, do
      not change the average. */
  lemma {:induction false} ValidSamplesIdempotent(s: seq<u32>)
    ensures ValidSamples(ValidSamples(s)) == ValidSamples(s)
  {
    if s != [] {
      ValidSamplesIdempotent(s[1..]);
      var head := if s[0] != RTT_SENTINEL then [s[0]] else [];
      ValidSamplesConcat(head, ValidSamples(s[1..]));
      if s[0] != RTT_SENTINEL {
        assert [s[0]][1..] == [];
      }
    }
  }

  /** The average depends only on the valid samples. */
  lemma AverageOfSameSamples(s: seq<u32>, t: seq<u32>)
    requires ValidSamples(s) == ValidSamples(t)
    ensures AverageRtt(s) == AverageRtt(t)
  {
  }

  lemma AverageIgnoresSentinels(a: seq<u32>, b: seq<u32>)
    ensures AverageRtt(a + [RTT_SENTINEL] + b) == AverageRtt(a + b)
  {
    assert [RTT_SENTINEL][1..] == [];
    assert ValidSamples([RTT_SENTINEL]) == [];
    ValidSamplesConcat(a + [RTT_SENTINEL], b);
    ValidSamplesConcat(a, [RTT_SENTINEL]);
    assert ValidSamples(a + [RTT_SENTINEL]) == ValidSamples(a);
    ValidSamplesConcat(a, b);
    AverageOfSameSamples(a + [RTT_SENTINEL] + b, a + b);
  }

  lemma AverageOfValidSamples(s: seq<u32>)
    ensures AverageRtt(ValidSamples(s)) == AverageRtt(s)
  {
    ValidSamplesIdempotent(s);
    AverageOfSameSamples(ValidSamples(s), s);
  }

  /** Bounds on a sum from bounds on its terms. */
  lemma {:induction false} SumBounds(s: seq<u32>, lo: nat, hi: nat)
    requires forall i :: 0 <= i < |s| ==> lo <= s[i] <= hi
    ensures |s| * lo <= Sum(s) <= |s| * hi
  {
    if s != [] {
      SumBounds(s[1..], lo, hi);
      assert |s| * lo == (|s| - 1) * lo + lo;
      assert |s| * hi == (|s| - 1) * hi + hi;
    }
  }

  /** The average never exceeds the largest valid sample (wrap-around only
      makes the sum smaller), and, as long as the sum fits in 32 bits, it is
      at least the smallest one. */
  lemma AverageWithinSamples(s: seq<u32>, lo: nat, hi: nat)
    requires AverageRtt(s).Some?
    requires forall x :: x in ValidSamples(s) ==> lo <= x <= hi
    ensures AverageRtt(s).value <= hi
    ensures Sum(ValidSamples(s)) < U32_MODULUS ==> lo <= AverageRtt(s).value
  {
    var v := ValidSamples(s);
    var n := |v|;
    assert forall i :: 0 <= i < n ==> v[i] in v;
    SumBounds(v, lo, hi);
    var w := Sum(v) % U32_MODULUS;
    assert w <= Sum(v);
    DivBounds(w, n, hi);
    if Sum(v) < U32_MODULUS {
      assert w == Sum(v);
      DivLower(w, n, lo);
    }
  }

  lemma DivBounds(w: nat, n: nat, hi: nat)
    requires n > 0 && w <= n * hi
    ensures w / n <= hi
  {
    var q := w / n;
    assert q * n <= w;
    MulCancel(q, hi, n);
  }

  /** Cancelling a positive factor on both sides of `<=`. */
  lemma MulCancel(a: nat, b: nat, n: nat)
    requires n > 0 && a * n <= b * n
    ensures a <= b
  {
  }

  lemma MulCancelStrict(a: nat, b: nat, n: nat)
    requires n > 0 && a * n < b * n
    ensures a < b
  {
  }

  lemma DivLower(w: nat, n: nat, lo: nat)
    requires n > 0 && n * lo <= w
    ensures lo <= w / n
  {
    var q := w / n;
    assert w == q * n + w % n;
    assert lo * n < (q + 1) * n;
    MulCancelStrict(lo, q + 1, n);
  }

  /** Samples equal to one value average to that value. */
  lemma AverageOfEqualSamples(s: seq<u32>, x: u32)
    requires x != RTT_SENTINEL && x in s
    requires forall i :: 0 <= i < |s| ==> s[i] == x || s[i] == RTT_SENTINEL
    requires |ValidSamples(s)| * x < U32_MODULUS
    ensures AverageRtt(s) == Some(x)
  {
    var v := ValidSamples(s);
    var n := |v|;
    ValidSamplesMembers(s, x);
    assert n > 0;
    forall i | 0 <= i < n ensures v[i] == x {
      assert v[i] in v;
      ValidSamplesMembers(s, v[i]);
    }
    SumBounds(v, x, x);
    assert Sum(v) == n * x;
    assert Sum(v) % U32_MODULUS == n * x;
    DivExact(n, x);
  }

  lemma DivExact(n: nat, x: nat)
    requires n > 0
    ensures (n * x) / n == x
  {
    var q := (n * x) / n;
    assert n * x == q * n + (n * x) % n;
    MulCancel(q, x, n);
    assert x * n < (q + 1) * n;
    MulCancelStrict(x, q + 1, n);
  }

  /** Wrap-around: two valid samples of 2^31 us sum to 2^32, which the
      `uint` holds as 0, so the stored average is 0 rather than 2^31. */
  lemma AverageWraps()
    ensures AverageRtt([0x8000_0000, RTT_SENTINEL, 0x8000_0000]) == Some(0)
  {
    var s: seq<u32> := [0x8000_0000, RTT_SENTINEL, 0x8000_0000];
    var x: u32 := 0x8000_0000;
    assert s[1..] == [RTT_SENTINEL, x];
    assert s[1..][1..] == [x];
    assert [x][1..] == [];
    assert ValidSamples([x]) == [x];
    assert ValidSamples(s[1..]) == [x];
    assert ValidSamples(s) == [x, x];
    assert [x, x][1..] == [x];
    assert Sum([x]) == x;
    assert Sum([x, x]) == U32_MODULUS;
  }
}
