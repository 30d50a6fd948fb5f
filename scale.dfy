/** Scaling every sample by a nonzero constant (a louder or quieter recording, or
    one with inverted polarity) does not move the dominant bin. Windowing, the
    copy to complex numbers and the transform are linear, every magnitude is
    multiplied by c^2 > 0, and a positive factor does not change which index the
    scan keeps. None of this depends on the values of the window coefficients or
    of the twiddles. */
module ScaleInvariance {
  import opened ComplexNumbers
  import opened Fft
  import opened Window
  import opened Dominant

  /** Every sample multiplied by c. */
  function Scale(c: real, s: seq<real>): (r: seq<real>)
    ensures |r| == |s|
  {
    seq(|s|, i requires 0 <= i < |s| => c * s[i])
  }

  /** The complex number z multiplied by the real c. */
  function ScaleC(c: real, z: Complex): Complex {
    Complex(c * z.re, c * z.im)
  }

  /** Every complex entry multiplied by the real c. */
  function ScaleAll(c: real, s: seq<Complex>): (r: seq<Complex>)
    ensures |r| == |s|
  {
    seq(|s|, i requires 0 <= i < |s| => ScaleC(c, s[i]))
  }

  lemma AddScale(c: real, a: Complex, b: Complex)
    ensures Add(ScaleC(c, a), ScaleC(c, b)) == ScaleC(c, Add(a, b))
  {
    assert c * a.re + c * b.re == c * (a.re + b.re);
    assert c * a.im + c * b.im == c * (a.im + b.im);
  }

  lemma SubScale(c: real, a: Complex, b: Complex)
    ensures Sub(ScaleC(c, a), ScaleC(c, b)) == ScaleC(c, Sub(a, b))
  {
    assert c * a.re - c * b.re == c * (a.re - b.re);
    assert c * a.im - c * b.im == c * (a.im - b.im);
  }

  lemma MulScale(a: Complex, c: real, b: Complex)
    ensures Mul(a, ScaleC(c, b)) == ScaleC(c, Mul(a, b))
  {
    assert a.re * (c * b.re) - a.im * (c * b.im) == c * (a.re * b.re - a.im * b.im);
    assert a.re * (c * b.im) + a.im * (c * b.re) == c * (a.re * b.im + a.im * b.re);
  }

  lemma NormScale(c: real, z: Complex)
    ensures Norm(ScaleC(c, z)) == c * (c * Norm(z))
  {
    assert (c * z.re) * (c * z.re) == c * (c * (z.re * z.re));
    assert (c * z.im) * (c * z.im) == c * (c * (z.im * z.im));
  }

  /** Windowing commutes with scaling: entry i is c*s[i]*ham(i, M) either way. */
  lemma WindowedScale(c: real, s: seq<real>, ham: (nat, nat) -> real)
    ensures Windowed(Scale(c, s), ham) == Scale(c, Windowed(s, ham))
  {
    var l, r := Windowed(Scale(c, s), ham), Scale(c, Windowed(s, ham));
    forall i | 0 <= i < |s|
      ensures l[i] == r[i]
    {
      assert (c * s[i]) * ham(i, |s|) == c * (s[i] * ham(i, |s|));
    }
  }

  lemma ScaleTake(c: real, s: seq<real>, n: nat)
    requires n <= |s|
    ensures Scale(c, s)[..n] == Scale(c, s[..n])
  {
    assert forall i :: 0 <= i < n ==> Scale(c, s)[..n][i] == Scale(c, s[..n])[i];
  }

  lemma ScaleAllTake(c: real, s: seq<Complex>, n: nat)
    requires n <= |s|
    ensures ScaleAll(c, s)[..n] == ScaleAll(c, s[..n])
  {
  }

  /** Copying scaled samples into complex numbers scales the complex numbers: the
      zero imaginary part stays zero. */
  lemma ToComplexScale(c: real, s: seq<real>)
    ensures ToComplex(Scale(c, s)) == ScaleAll(c, ToComplex(s))
  {
    var l, r := ToComplex(Scale(c, s)), ScaleAll(c, ToComplex(s));
    forall i | 0 <= i < |s|
      ensures l[i] == r[i]
    {
      assert c * 0.0 == 0.0;
    }
  }

  lemma EvensOddsScale(c: real, s: seq<Complex>)
    ensures Evens(ScaleAll(c, s)) == ScaleAll(c, Evens(s))
    ensures Odds(ScaleAll(c, s)) == ScaleAll(c, Odds(s))
  {
  }

  /** The butterfly combination is linear in its three arguments. */
  lemma CombineScale(c: real, e: seq<Complex>, o: seq<Complex>, s: seq<Complex>, w: (nat, nat) -> Complex)
    requires |e| == |o| == |s| / 2
    ensures Combine(ScaleAll(c, e), ScaleAll(c, o), ScaleAll(c, s), w) == ScaleAll(c, Combine(e, o, s, w))
  {
    var n, h := |s|, |s| / 2;
    var l, r := Combine(ScaleAll(c, e), ScaleAll(c, o), ScaleAll(c, s), w), ScaleAll(c, Combine(e, o, s, w));
    forall k | 0 <= k < n
      ensures l[k] == r[k]
    {
      if k < h {
        MulScale(w(k, n), c, o[k]);
        AddScale(c, e[k], Mul(w(k, n), o[k]));
      } else if k < 2 * h {
        MulScale(w(k - h, n), c, o[k - h]);
        SubScale(c, e[k - h], Mul(w(k - h, n), o[k - h]));
      }
    }
  }

  /** The transform is linear: transforming c times a buffer gives c times its
      transform, whatever the twiddles are. */
  lemma {:induction false} FftLinear(c: real, s: seq<Complex>, w: (nat, nat) -> Complex)
    ensures FftSpec(ScaleAll(c, s), w) == ScaleAll(c, FftSpec(s, w))
    decreases |s|
  {
    if |s| > 1 {
      EvensOddsScale(c, s);
      FftLinear(c, Evens(s), w);
      FftLinear(c, Odds(s), w);
      CombineScale(c, FftSpec(Evens(s), w), FftSpec(Odds(s), w), s, w);
    }
  }

  /** Scaling a buffer by c multiplies every magnitude by c twice, that is by
      c^2. */
  lemma NormsScale(c: real, z: seq<Complex>)
    ensures Norms(ScaleAll(c, z)) == Scale(c, Scale(c, Norms(z)))
  {
    var l, r := Norms(ScaleAll(c, z)), Scale(c, Scale(c, Norms(z)));
    forall i | 0 <= i < |z|
      ensures l[i] == r[i]
    {
      NormScale(c, z[i]);
    }
  }

  /** A positive factor keeps the order of two reals, a negative one reverses it. */
  lemma MulOrder(d: real, x: real, y: real)
    requires d != 0.0
    ensures d > 0.0 ==> (d * x > d * y <==> x > y)
    ensures d < 0.0 ==> (d * x > d * y <==> x < y)
  {
    assert d * x - d * y == d * (x - y);
  }

  /** Multiplying every entry twice by the same nonzero factor keeps the order
      of any two entries ... */
  lemma TwiceOrder(c: real, m: seq<real>, i: nat, k: nat)
    requires c != 0.0
    requires i < |m| && k < |m|
    ensures Scale(c, Scale(c, m))[i] > Scale(c, Scale(c, m))[k] <==> m[i] > m[k]
  {
    var x, y := m[i], m[k];
    assert Scale(c, Scale(c, m))[i] == c * (c * x);
    assert Scale(c, Scale(c, m))[k] == c * (c * y);
    MulOrder(c, x, y);
    MulOrder(c, c * x, c * y);
  }

  /** ... and keeps a non-negative entry non-negative. */
  lemma TwiceNonNegative(c: real, m: seq<real>, i: nat)
    requires i < |m| && m[i] >= 0.0
    ensures Scale(c, Scale(c, m))[i] >= 0.0
  {
    var x := m[i];
    assert Scale(c, Scale(c, m))[i] == c * (c * x);
    if c != 0.0 {
      MulOrder(c, x, 0.0);
      MulOrder(c, c * x, 0.0);
    }
  }

  /** Multiplying every entry twice by a nonzero c keeps the order of any two
      entries, so the first maximum stays where it was. */
  lemma {:induction false} FirstMaxScale(c: real, m: seq<real>, k: nat)
    requires c != 0.0
    requires IsFirstMax(m, k)
    ensures IsFirstMax(Scale(c, Scale(c, m)), k)
  {
    var q := Scale(c, Scale(c, m));
    forall i | 0 <= i < |m|
      ensures q[i] <= q[k] && (i < k ==> q[i] < q[k])
    {
      TwiceOrder(c, m, i, k);
      TwiceOrder(c, m, k, i);
    }
  }

  /** Multiplying magnitudes by c^2, for a nonzero c, does not change the index
      the scan keeps. */
  lemma {:induction false} PeakIndexScale(c: real, m: seq<real>)
    requires c != 0.0
    requires forall i :: 0 <= i < |m| ==> m[i] >= 0.0
    ensures PeakIndex(Scale(c, Scale(c, m))) == PeakIndex(m)
  {
    if |m| > 0 {
      var q := Scale(c, Scale(c, m));
      forall i | 0 <= i < |m|
        ensures q[i] >= 0.0
      {
        TwiceNonNegative(c, m, i);
      }
      PeakIndexIsFirstMax(m);
      FirstMaxScale(c, m, PeakIndex(m));
      PeakIndexIsFirstMax(q);
    }
  }

  /** The segment handed to the transform, for scaled samples, is the scaled
      segment. */
  lemma SegmentScale(samples: seq<real>, c: real, ham: (nat, nat) -> real, n: nat)
    requires n <= |samples|
    ensures ToComplex(Windowed(Scale(c, samples), ham)[..n]) ==
            ScaleAll(c, ToComplex(Windowed(samples, ham)[..n]))
  {
    WindowedScale(c, samples, ham);
    ScaleTake(c, Windowed(samples, ham), n);
    ToComplexScale(c, Windowed(samples, ham)[..n]);
  }

  /** Scaling the spectrum by a nonzero c does not move its peak bin. */
  lemma {:induction false} PeakOfScaledSpectrum(c: real, z: seq<Complex>)
    requires c != 0.0
    ensures PeakIndex(Norms(ScaleAll(c, z))) == PeakIndex(Norms(z))
  {
    NormsScale(c, z);
    PeakIndexScale(c, Norms(z));
  }

  /** Multiplying every sample by the same nonzero constant changes neither the
      dominant bin nor the frequency find_dominant_frequency reports. */
  lemma {:induction false} DominantBinScaleInvariant(samples: seq<real>, c: real, rate: Int32,
                                                   ham: (nat, nat) -> real, w: (nat, nat) -> Complex)
    requires 2 <= |samples| < 0x8000_0000
    requires c != 0.0
    ensures DominantBin(Scale(c, samples), ham, w) == DominantBin(samples, ham, w)
    ensures DominantFrequency(Scale(c, samples), rate, ham, w) == DominantFrequency(samples, rate, ham, w)
  {
    var n := SegmentLength(|samples|);
    var x := ToComplex(Windowed(samples, ham)[..n]);
    var spectrum := FftSpec(x, w);
    SegmentScale(samples, c, ham, n);
    FftLinear(c, x, w);
    ScaleAllTake(c, spectrum, n / 2);
    PeakOfScaledSpectrum(c, spectrum[..n / 2]);
  }
}
