/** The recursive radix-2 Cooley-Tukey transform of main.cpp (fft), in place on
    an array of complex values. The twiddle factor polar(1, -2*pi*i/N) is the
    parameter w: w(i, n) stands for the unit complex number at angle -2*pi*i/n. */
module Fft {
  import opened ComplexNumbers

  /** The even-indexed entries s[0], s[2], ... (the source's `even` vector). */
  function Evens(s: seq<Complex>): (e: seq<Complex>)
    ensures |e| == |s| / 2
  {
    seq(|s| / 2, i requires 0 <= i < |s| / 2 => s[2 * i])
  }

  /** The odd-indexed entries s[1], s[3], ... (the source's `odd` vector). */
  function Odds(s: seq<Complex>): (o: seq<Complex>)
    ensures |o| == |s| / 2
  {
    seq(|s| / 2, i requires 0 <= i < |s| / 2 => s[2 * i + 1])
  }

  /** The butterfly combination of the transformed halves e and o into a buffer
      of length n = |s|: entry k < n/2 is e[k] + W(k,n)*o[k], entry k + n/2 is
      e[k] - W(k,n)*o[k]. On an odd length (never used by the program, which only
      transforms powers of two) the code as written leaves the last entry of s
      untouched, and so does this definition. */
  function Combine(e: seq<Complex>, o: seq<Complex>, s: seq<Complex>, w: (nat, nat) -> Complex): (r: seq<Complex>)
    requires |e| == |o| == |s| / 2
    ensures |r| == |s|
  {
    var n := |s|;
    var h := n / 2;
    seq(n, k requires 0 <= k < n =>
      if k < h then Add(e[k], Mul(w(k, n), o[k]))
      else if k < 2 * h then Sub(e[k - h], Mul(w(k - h, n), o[k - h]))
      else s[k])
  }

  /** What fft leaves in its buffer, as a function of what it found there:
      lengths 0 and 1 are returned unchanged, longer buffers are the butterfly
      combination of the transforms of their even- and odd-indexed halves. */
  function FftSpec(s: seq<Complex>, w: (nat, nat) -> Complex): (r: seq<Complex>)
    ensures |r| == |s|
    ensures |s| <= 1 ==> r == s
    decreases |s|
  {
    if |s| <= 1 then s
    else Combine(FftSpec(Evens(s), w), FftSpec(Odds(s), w), s, w)
  }

  /** The butterfly: for every i < N/2, output i is E[i] + W(i,N)*O[i] and output
      i + N/2 is E[i] - W(i,N)*O[i], where E and O are the transforms of the
      even- and odd-indexed halves. */
  lemma {:induction false} Butterfly(s: seq<Complex>, w: (nat, nat) -> Complex, i: nat)
    requires |s| >= 2 && i < |s| / 2
    ensures var t := Mul(w(i, |s|), FftSpec(Odds(s), w)[i]);
            FftSpec(s, w)[i] == Add(FftSpec(Evens(s), w)[i], t) &&
            FftSpec(s, w)[i + |s| / 2] == Sub(FftSpec(Evens(s), w)[i], t)
  {
    var e, o := FftSpec(Evens(s), w), FftSpec(Odds(s), w);
    var n, h := |s|, |s| / 2;
    var c := Combine(e, o, s, w);
    assert FftSpec(s, w) == c;
    assert i + h < 2 * h;
    assert c[i] == Add(e[i], Mul(w(i, n), o[i]));
    assert c[i + h] == Sub(e[i], Mul(w(i, n), o[i]));
  }

  /** fft(data): copy the halves into fresh buffers, transform them recursively,
      then overwrite data[i] and data[i + N/2] with the butterfly. */
  method Fft(a: array<Complex>, w: (nat, nat) -> Complex)
    modifies a
    ensures a[..] == FftSpec(old(a[..]), w)
    decreases a.Length
  {
    if a.Length <= 1 {
      return;
    }
    ghost var s := a[..];
    var even, odd := SplitHalves(a);
    ghost var e, o := even[..], odd[..];
    assert e == Evens(s) && o == Odds(s);
    Fft(even, w);
    Fft(odd, w);
    assert even[..] == FftSpec(e, w);
    assert odd[..] == FftSpec(o, w);
    CombineInPlace(a, even, odd, w);
  }

  /** The first loop of fft: even[i] = data[2i], odd[i] = data[2i+1]. */
  method SplitHalves(a: array<Complex>) returns (even: array<Complex>, odd: array<Complex>)
    ensures fresh(even) && fresh(odd) && even != odd
    ensures even[..] == Evens(a[..]) && odd[..] == Odds(a[..])
  {
    var h := a.Length / 2;
    even := new Complex[h];
    odd := new Complex[h];
    for i := 0 to h
      modifies even, odd
      invariant forall j :: 0 <= j < i ==> even[j] == a[2 * j] && odd[j] == a[2 * j + 1]
    {
      even[i] := a[i * 2];
      odd[i] := a[i * 2 + 1];
    }
  }

  /** The second loop of fft: data[i] = even[i] + t and data[i + N/2] = even[i] - t
      with t = W(i,N) * odd[i]. */
  method CombineInPlace(a: array<Complex>, even: array<Complex>, odd: array<Complex>, w: (nat, nat) -> Complex)
    requires even.Length == odd.Length == a.Length / 2
    requires a != even && a != odd
    modifies a
    ensures a[..] == Combine(even[..], odd[..], old(a[..]), w)
  {
    var n := a.Length;
    var h := n / 2;
    ghost var r := Combine(even[..], odd[..], a[..], w);
    for i := 0 to h
      invariant forall j :: 0 <= j < i ==> a[j] == r[j]
      invariant forall j :: h <= j < h + i ==> a[j] == r[j]
      invariant forall j :: i <= j < h || h + i <= j < n ==> a[j] == old(a[j])
    {
      var t := Mul(w(i, n), odd[i]);
      a[i] := Add(even[i], t);
      a[i + h] := Sub(even[i], t);
    }
  }
}
