/** find_dominant_frequency of main.cpp: window the whole buffer, transform its
    first N entries (N the largest power of two not above the buffer length),
    pick the first bin of largest magnitude among the lower N/2, and convert that
    bin to Hz. */
module Dominant {
  import opened ComplexNumbers
  import opened Fft
  import opened Window
  import opened Dft

  /** The source's `int`. */
  type Int32 = x: int | -0x8000_0000 <= x < 0x8000_0000

  /** size_t arithmetic wraps modulo 2^64. */
  const SizeModulus: int := 0x1_0000_0000_0000_0000

  function Pow2(k: nat): (p: nat)
    ensures p >= 1
  {
    if k == 0 then 1 else 2 * Pow2(k - 1)
  }

  /** n is 1, 2, 4, 8, ... */
  predicate IsPow2(n: nat)
    decreases n
  {
    if n <= 1 then n == 1 else n % 2 == 0 && IsPow2(n / 2)
  }

  lemma {:induction false} Pow2IsPow2(k: nat)
    ensures IsPow2(Pow2(k))
  {
    if k > 0 {
      Pow2IsPow2(k - 1);
      assert Pow2(k) / 2 == Pow2(k - 1);
    }
  }

  /** Of two distinct powers of two the larger is at least twice the smaller. */
  lemma {:induction false} Pow2Gap(n: nat, p: nat)
    requires IsPow2(n) && IsPow2(p) && n < p
    ensures 2 * n <= p
    decreases n
  {
    if n > 1 {
      Pow2Gap(n / 2, p / 2);
    }
  }

  /** floor(log2(m)): the exponent of the largest power of two not above m. */
  function Log2Floor(m: nat): (k: nat)
    requires m >= 1
    ensures Pow2(k) <= m < Pow2(k + 1)
  {
    if m == 1 then 0 else 1 + Log2Floor(m / 2)
  }

  /** 1 << static_cast<int>(log2(m)). The shift is on an `int`, so the
      expression is defined only while the exponent is at most 30. */
  function SegmentLength(m: nat): (n: nat)
    requires 1 <= m < 0x8000_0000
    ensures IsPow2(n) && n <= m < 2 * n
  {
    var k := Log2Floor(m);
    Pow2IsPow2(k);
    Pow2(k)
  }

  /** The segment is the LARGEST power of two that fits in the buffer. */
  lemma SegmentLengthIsLargest(m: nat, p: nat)
    requires 1 <= m < 0x8000_0000
    requires IsPow2(p) && p <= m
    ensures p <= SegmentLength(m)
  {
    var n := SegmentLength(m);
    if n < p {
      Pow2Gap(n, p);
    }
  }

  /** complex<double>(x, 0.0) for every entry. */
  function ToComplex(s: seq<real>): seq<Complex> {
    seq(|s|, i requires 0 <= i < |s| => Complex(s[i], 0.0))
  }

  /** The magnitude of every entry (as a squared modulus). */
  function Norms(z: seq<Complex>): (m: seq<real>)
    ensures |m| == |z|
    ensures forall i :: 0 <= i < |z| ==> m[i] == Norm(z[i]) && m[i] >= 0.0
  {
    seq(|z|, i requires 0 <= i < |z| => Norm(z[i]))
  }

  /** The value of max_magnitude after scanning m: it starts at 0.0 and is
      replaced by every strictly larger entry. */
  function RunningMax(m: seq<real>): (r: real)
    ensures r >= 0.0
    ensures forall i :: 0 <= i < |m| ==> m[i] <= r
    ensures r == 0.0 || exists i :: 0 <= i < |m| && m[i] == r
    decreases |m|
  {
    if |m| == 0 then 0.0
    else
      var r := RunningMax(m[..|m| - 1]);
      if m[|m| - 1] > r then m[|m| - 1] else r
  }

  /** The value of max_index after scanning m: the index of the last strict
      improvement of the running maximum, 0 if there was none. */
  function PeakIndex(m: seq<real>): (k: nat)
    ensures |m| == 0 ==> k == 0
    ensures |m| > 0 ==> k < |m|
    decreases |m|
  {
    if |m| == 0 then 0
    else if m[|m| - 1] > RunningMax(m[..|m| - 1]) then |m| - 1
    else PeakIndex(m[..|m| - 1])
  }

  /** k is the lowest index at which m takes its largest value. */
  predicate IsFirstMax(m: seq<real>, k: nat) {
    && k < |m|
    && (forall i :: 0 <= i < |m| ==> m[i] <= m[k])
    && (forall i :: 0 <= i < k ==> m[i] < m[k])
  }

  /** On non-negative magnitudes the scan finds the first maximum: ties keep the
      earlier index, and all-zero magnitudes give index 0. No other index is a
      first maximum. */
  lemma {:induction false} PeakIndexIsFirstMax(m: seq<real>)
    requires |m| > 0
    requires forall i :: 0 <= i < |m| ==> m[i] >= 0.0
    ensures IsFirstMax(m, PeakIndex(m))
    ensures forall j :: IsFirstMax(m, j) ==> j == PeakIndex(m)
    ensures m[PeakIndex(m)] == RunningMax(m)
    decreases |m|
  {
    var p := m[..|m| - 1];
    var last := m[|m| - 1];
    if |m| == 1 {
      assert RunningMax(p) == 0.0;
    } else {
      PeakIndexIsFirstMax(p);
      var k := PeakIndex(p);
      assert p[k] == m[k];
      if last > RunningMax(p) {
        assert forall i :: 0 <= i < |m| - 1 ==> m[i] == p[i] && p[i] <= RunningMax(p);
      } else {
        assert forall i :: 0 <= i < |m| - 1 ==> m[i] == p[i];
      }
    }
  }

  /** (max_index * sample_rate) / double(N): the int is converted to size_t, the
      product wraps modulo 2^64, and the result is divided as a double. */
  function BinToHz(index: nat, rate: Int32, n: nat): (r: real)
    requires n >= 1
    ensures 0.0 <= r
    ensures r * n as real < SizeModulus as real
  {
    ((index * (rate % SizeModulus)) % SizeModulus) as real / n as real
  }

  /** A bin below N/2 < 2^30 times a rate below 2^31 stays below 2^61. */
  lemma ProductFits(index: nat, rate: nat)
    requires index < 0x4000_0000 && rate < 0x8000_0000
    ensures index * rate < 0x2000_0000_0000_0000
  {
    MulMonotone(index, rate, 0x8000_0000);
  }

  lemma {:induction false} MulMonotone(a: nat, b: nat, c: nat)
    requires b <= c
    ensures a * b <= a * c
  {
    if a > 0 {
      MulMonotone(a - 1, b, c);
      assert a * b == (a - 1) * b + b;
      assert a * c == (a - 1) * c + c;
    }
  }

  lemma {:induction false} MulStrict(a: nat, b: nat, c: nat)
    requires a < b && c > 0
    ensures a * c < b * c
  {
    if c > 1 {
      MulStrict(a, b, c - 1);
      assert a * c == a * (c - 1) + a;
      assert b * c == b * (c - 1) + b;
    }
  }

  /** 2p < n*r on the reals means p/n < r/2. */
  lemma QuotientBelowHalf(p: real, n: real, r: real)
    requires n > 0.0 && 2.0 * p < n * r
    ensures p / n < r / 2.0
  {
    assert p / n * n == p;
  }

  /** For a non-negative sample rate and a bin in the lower half nothing wraps:
      the result is index * rate / N, at least 0 and below the Nyquist frequency
      rate / 2 (when the rate is positive). */
  lemma BinToHzRange(index: nat, rate: Int32, n: nat)
    requires 1 <= n < 0x8000_0000 && index < n / 2 && rate >= 0
    ensures BinToHz(index, rate, n) == (index * rate) as real / n as real
    ensures 0.0 <= BinToHz(index, rate, n)
    ensures rate > 0 ==> BinToHz(index, rate, n) < rate as real / 2.0
  {
    var p := index * rate;
    ProductFits(index, rate);
    assert rate % SizeModulus == rate;
    assert p % SizeModulus == p;
    if rate > 0 {
      assert 2 * p < n * rate by {
        assert 2 * p == (2 * index) * rate;
        MulStrict(2 * index, n, rate);
      }
      QuotientBelowHalf(p as real, n as real, rate as real);
    }
  }

  /** The bin find_dominant_frequency settles on: the scan over the lower half of
      the transform of the first N windowed samples. */
  function DominantBin(samples: seq<real>, ham: (nat, nat) -> real, w: (nat, nat) -> Complex): (k: nat)
    requires 2 <= |samples| < 0x8000_0000
    ensures k < SegmentLength(|samples|) / 2
  {
    var n := SegmentLength(|samples|);
    var spectrum := FftSpec(ToComplex(Windowed(samples, ham)[..n]), w);
    PeakIndex(Norms(spectrum[..n / 2]))
  }

  /** The frequency find_dominant_frequency returns. */
  function DominantFrequency(samples: seq<real>, rate: Int32, ham: (nat, nat) -> real, w: (nat, nat) -> Complex): (f: real)
    requires 2 <= |samples| < 0x8000_0000
    ensures rate >= 0 ==> f == (DominantBin(samples, ham, w) * rate) as real / SegmentLength(|samples|) as real
    ensures rate > 0 ==> 0.0 <= f < rate as real / 2.0
  {
    var k, n := DominantBin(samples, ham, w), SegmentLength(|samples|);
    if rate >= 0 then
      BinToHzRange(k, rate, n);
      BinToHz(k, rate, n)
    else
      BinToHz(k, rate, n)
  }

  /** With twiddles that are powers of principal roots of unity, the chosen bin is
      the first bin in [0, N/2) where the discrete Fourier transform of the
      windowed segment has the largest magnitude, and the frequency is that bin
      times rate / N, in [0, rate/2) for a positive rate. */
  lemma DominantFrequencyIsPeakOfDft(samples: seq<real>, rate: Int32, ham: (nat, nat) -> real,
                                     w: (nat, nat) -> Complex, root: nat -> Complex)
    requires 2 <= |samples| < 0x8000_0000
    requires IsRootChain(root, SegmentLength(|samples|))
    requires IsTwiddleOf(w, root)
    requires rate > 0
    ensures var n := SegmentLength(|samples|);
            var x := ToComplex(Windowed(samples, ham)[..n]);
            var k := DominantBin(samples, ham, w);
            && IsFirstMax(Norms(Dft.Dft(x, root)[..n / 2]), k)
            && DominantFrequency(samples, rate, ham, w) == (k * rate) as real / n as real
            && 0.0 <= DominantFrequency(samples, rate, ham, w) < rate as real / 2.0
  {
    var n := SegmentLength(|samples|);
    var x := ToComplex(Windowed(samples, ham)[..n]);
    FftIsDft(x, w, root);
    PeakIndexIsFirstMax(Norms(Dft.Dft(x, root)[..n / 2]));
    BinToHzRange(DominantBin(samples, ham, w), rate, n);
  }

  /** find_dominant_frequency(samples, sample_rate). */
  method FindDominantFrequency(samples: seq<real>, rate: Int32, ham: (nat, nat) -> real, w: (nat, nat) -> Complex)
    returns (f: real)
    requires 2 <= |samples| < 0x8000_0000
    ensures f == DominantFrequency(samples, rate, ham, w)
  {
    var n := SegmentLength(|samples|);

    var windowed := new real[|samples|](i requires 0 <= i < |samples| => samples[i]);
    assert windowed[..] == samples;
    ApplyHammingWindow(windowed, ham);

    var data := CopyToComplex(windowed, n);
    Fft.Fft(data, w);

    var maxIndex := ScanMagnitudes(data, n / 2);
    f := BinToHz(maxIndex, rate, n);
  }

  /** The copy loop of find_dominant_frequency: the first n windowed samples
      become complex numbers with zero imaginary part. */
  method CopyToComplex(windowed: array<real>, n: nat) returns (data: array<Complex>)
    requires n <= windowed.Length
    ensures fresh(data)
    ensures data[..] == ToComplex(windowed[..n])
  {
    data := new Complex[n];
    for i := 0 to n
      modifies data
      invariant forall j :: 0 <= j < i ==> data[j] == Complex(windowed[j], 0.0)
    {
      data[i] := Complex(windowed[i], 0.0);
    }
  }

  /** The scan loop of find_dominant_frequency over data[0..count): it keeps the
      largest magnitude seen and its index, replacing them only on a strictly
      larger magnitude; the index it ends with is the first maximum. */
  method ScanMagnitudes(data: array<Complex>, count: nat) returns (maxIndex: nat)
    requires count <= data.Length
    ensures maxIndex == PeakIndex(Norms(data[..count]))
    ensures count > 0 ==> IsFirstMax(Norms(data[..count]), maxIndex)
  {
    ghost var mags := Norms(data[..count]);
    var maxMagnitude := 0.0;
    maxIndex := 0;
    for i := 0 to count
      invariant maxMagnitude == RunningMax(mags[..i])
      invariant maxIndex == PeakIndex(mags[..i])
    {
      var magnitude := Norm(data[i]);
      assert mags[..i + 1][..i] == mags[..i];
      if magnitude > maxMagnitude {
        maxMagnitude := magnitude;
        maxIndex := i;
      }
    }
    assert mags[..count] == mags;
    if count > 0 {
      PeakIndexIsFirstMax(mags);
    }
  }
}
