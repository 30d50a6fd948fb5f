/** The Hamming window of main.cpp (apply_hamming_window), in place on a buffer
    of samples. The coefficient 0.54 - 0.46*cos(2*pi*i/(N-1)) is the parameter
    ham: ham(i, n) stands for the coefficient of entry i in a buffer of length n. */
module Window {

  /** The windowed buffer: entry i scaled by the coefficient for (i, |s|). */
  function Windowed(s: seq<real>, ham: (nat, nat) -> real): (r: seq<real>)
    ensures |r| == |s|
  {
    seq(|s|, i requires 0 <= i < |s| => s[i] * ham(i, |s|))
  }

  /** Windowing keeps the length, and entry i depends only on s[i], i and the
      length of the WHOLE buffer; so windowing a buffer and then keeping its
      first n entries is not windowing those n entries on their own. */
  lemma WindowedAt(s: seq<real>, ham: (nat, nat) -> real, n: nat, i: nat)
    requires i < n <= |s|
    ensures |Windowed(s, ham)| == |s|
    ensures Windowed(s, ham)[..n][i] == s[i] * ham(i, |s|)
    ensures Windowed(s[..n], ham)[i] == s[i] * ham(i, n)
  {
  }

  /** apply_hamming_window(data): data[i] *= coefficient(i, N) for every i.
      The coefficient divides by N - 1, so a buffer of length 1 has no window
      (0/0); a buffer of length 0 is left alone by the empty loop. */
  method ApplyHammingWindow(a: array<real>, ham: (nat, nat) -> real)
    requires a.Length != 1
    modifies a
    ensures a[..] == Windowed(old(a[..]), ham)
  {
    var n := a.Length;
    ghost var w := Windowed(a[..], ham);
    for i := 0 to n
      invariant forall j :: 0 <= j < i ==> a[j] == w[j]
      invariant forall j :: i <= j < n ==> a[j] == old(a[j])
    {
      a[i] := a[i] * ham(i, n);
    }
  }
}
