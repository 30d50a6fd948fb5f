/** What the recursive transform computes. With the twiddle W(i, N) taken to be
    the i-th power of a principal N-th root of unity (as polar(1, -2*pi*i/N) is,
    in exact arithmetic), the buffer fft leaves behind is the discrete Fourier
    transform X[k] = sum over j < N of x[j] * W(j*k, N), for every power-of-two N. */
module Dft {
  import opened ComplexNumbers
  import opened Fft

  /** The first c terms of the transform sum at frequency k with kernel r:
      x[0]*r^(0*k) + x[1]*r^(1*k) + ... + x[c-1]*r^((c-1)*k). */
  function Eval(x: seq<Complex>, c: nat, r: Complex, k: nat): Complex
    requires c <= |x|
  {
    if c == 0 then Zero else Add(Eval(x, c - 1, r, k), Mul(x[c - 1], Pow(r, Prod(c - 1, k))))
  }

  /** The discrete Fourier transform of x with kernel root(|x|), by its definition. */
  function Dft(x: seq<Complex>, root: nat -> Complex): seq<Complex> {
    seq(|x|, k requires 0 <= k < |x| => Eval(x, |x|, root(|x|), k))
  }

  /** root(n) is a principal n-th root of unity and squaring it gives root(n/2),
      all the way down to n == 1; this holds only for powers of two n, and it is
      what e^(-2*pi*i/n) satisfies for them. */
  predicate IsRootChain(root: nat -> Complex, n: nat)
    decreases n
  {
    if n <= 1 then n == 1
    else
      && n % 2 == 0
      && Mul(root(n), root(n)) == root(n / 2)
      && Pow(root(n), n / 2) == Neg(One)
      && IsRootChain(root, n / 2)
  }

  /** The twiddle W(i, n) is the i-th power of root(n). */
  ghost predicate IsTwiddleOf(w: (nat, nat) -> Complex, root: nat -> Complex) {
    forall i: nat, n: nat :: w(i, n) == Pow(root(n), i)
  }

  /** A sum of even length splits into the sum over the even-indexed entries and
      r^k times the sum over the odd-indexed ones, both with the kernel r*r. */
  lemma {:induction false} SplitEval(x: seq<Complex>, c: nat, r: Complex, k: nat)
    requires 2 * c <= |x|
    ensures Eval(x, 2 * c, r, k) ==
            Add(Eval(Evens(x), c, Mul(r, r), k), Mul(Pow(r, k), Eval(Odds(x), c, Mul(r, r), k)))
    decreases c
  {
    var s := Mul(r, r);
    var e, o := Evens(x), Odds(x);
    var p := Pow(r, k);
    if c == 0 {
      assert Mul(p, Zero) == Zero;
    } else {
      var d := c - 1;
      var a := Eval(e, d, s, k);
      var b := Eval(o, d, s, k);
      var q := Pow(r, Prod(2 * d, k));
      assert Pow(s, Prod(d, k)) == q by {
        PowSquare(r, Prod(d, k));
        ProdDouble(d, k);
      }
      var xe := Mul(x[2 * d], q);
      var xo := Mul(x[2 * d + 1], Pow(r, Prod(2 * d + 1, k)));
      assert Mul(p, Mul(x[2 * d + 1], q)) == xo by {
        MulLeftComm(p, x[2 * d + 1], q);
        PowAdd(r, k, Prod(2 * d, k));
        ProdSucc(2 * d, k);
      }
      calc {
        Eval(x, 2 * c, r, k);
        { assert 2 * c - 1 == 2 * d + 1 && 2 * c - 2 == 2 * d; }
        Add(Add(Eval(x, 2 * d, r, k), xe), xo);
        { SplitEval(x, d, r, k); }
        Add(Add(Add(a, Mul(p, b)), xe), xo);
        { AddRegroup(a, Mul(p, b), xe, xo); }
        Add(Add(a, xe), Add(Mul(p, b), xo));
        { MulAddDistrib(p, b, Mul(x[2 * d + 1], q)); }
        Add(Eval(e, c, s, k), Mul(p, Eval(o, c, s, k)));
      }
    }
  }

  /** When s^h == 1 the kernel powers repeat with period h in the frequency. */
  lemma {:induction false} EvalShift(y: seq<Complex>, c: nat, s: Complex, k: nat, h: nat)
    requires c <= |y|
    requires Pow(s, h) == One
    ensures Eval(y, c, s, k + h) == Eval(y, c, s, k)
    decreases c
  {
    if c > 0 {
      var d := c - 1;
      EvalShift(y, d, s, k, h);
      calc {
        Pow(s, Prod(d, k + h));
        { ProdShift(d, k, h); }
        Pow(s, Prod(d, k) + Prod(h, d));
        { PowAdd(s, Prod(d, k), Prod(h, d)); }
        Mul(Pow(s, Prod(d, k)), Pow(s, Prod(h, d)));
        { PowPeriod(s, h, d); }
        Mul(Pow(s, Prod(d, k)), One);
        { MulOne(Pow(s, Prod(d, k))); }
        Pow(s, Prod(d, k));
      }
    }
  }

  /** If r^h == -1 then (r*r)^h == 1. */
  lemma SquareOfHalfTurn(r: Complex, h: nat)
    requires Pow(r, h) == Neg(One)
    ensures Pow(Mul(r, r), h) == One
  {
    calc {
      Pow(Mul(r, r), h);
      { PowSquare(r, h); }
      Pow(r, h + h);
      { PowAdd(r, h, h); }
      Mul(Neg(One), Neg(One));
      One;
    }
  }

  /** If r^h == -1 then r^(j+h) == -(r^j). */
  lemma HalfTurn(r: Complex, j: nat, h: nat)
    requires Pow(r, h) == Neg(One)
    ensures Pow(r, j + h) == Neg(Pow(r, j))
  {
    PowAdd(r, j, h);
    MulNegOne(Pow(r, j));
  }

  lemma DftOfSingleton(x: seq<Complex>, root: nat -> Complex)
    requires |x| == 1
    ensures Dft(x, root) == x
  {
    calc {
      Dft(x, root)[0];
      Eval(x, 1, root(1), 0);
      Add(Eval(x, 0, root(1), 0), Mul(x[0], Pow(root(1), Prod(0, 0))));
      { assert Prod(0, 0) == 0; }
      Add(Zero, Mul(x[0], One));
      { MulOne(x[0]); }
      x[0];
    }
  }

  /** The DFT itself obeys the butterfly recurrence, lower half: entry k < n/2
      is E[k] + r^k * O[k] with E and O the DFTs of the even- and odd-indexed
      halves (the Danielson-Lanczos lemma). */
  lemma DftLow(x: seq<Complex>, root: nat -> Complex, k: nat)
    requires |x| >= 2 && |x| % 2 == 0 && k < |x| / 2
    requires Mul(root(|x|), root(|x|)) == root(|x| / 2)
    ensures Dft(x, root)[k] ==
            Add(Dft(Evens(x), root)[k], Mul(Pow(root(|x|), k), Dft(Odds(x), root)[k]))
  {
    var h := |x| / 2;
    var r := root(|x|);
    assert Dft(x, root)[k] == Eval(x, 2 * h, r, k);
    SplitEval(x, h, r, k);
  }

  /** The DFT itself obeys the butterfly recurrence, upper half: entry j + n/2
      is E[j] - r^j * O[j]. */
  lemma DftHigh(x: seq<Complex>, root: nat -> Complex, j: nat)
    requires |x| >= 2 && |x| % 2 == 0 && j < |x| / 2
    requires Mul(root(|x|), root(|x|)) == root(|x| / 2)
    requires Pow(root(|x|), |x| / 2) == Neg(One)
    ensures Dft(x, root)[j + |x| / 2] ==
            Sub(Dft(Evens(x), root)[j], Mul(Pow(root(|x|), j), Dft(Odds(x), root)[j]))
  {
    var h := |x| / 2;
    var r, s := root(|x|), root(h);
    var e, o := Evens(x), Odds(x);
    var ej, oj := Eval(e, h, s, j), Eval(o, h, s, j);
    assert Dft(e, root)[j] == ej;
    assert Dft(o, root)[j] == oj;
    calc {
      Dft(x, root)[j + h];
      Eval(x, 2 * h, r, j + h);
      { SplitEval(x, h, r, j + h); }
      Add(Eval(e, h, s, j + h), Mul(Pow(r, j + h), Eval(o, h, s, j + h)));
      { SquareOfHalfTurn(r, h); EvalShift(e, h, s, j, h); EvalShift(o, h, s, j, h); }
      Add(ej, Mul(Pow(r, j + h), oj));
      { HalfTurn(r, j, h); }
      Add(ej, Mul(Neg(Pow(r, j)), oj));
      { AddNegMul(ej, Pow(r, j), oj); }
      Sub(ej, Mul(Pow(r, j), oj));
    }
  }

  lemma CombineLowIsDft(x: seq<Complex>, w: (nat, nat) -> Complex, root: nat -> Complex, k: nat)
    requires |x| >= 2 && |x| % 2 == 0 && k < |x| / 2
    requires Mul(root(|x|), root(|x|)) == root(|x| / 2)
    requires w(k, |x|) == Pow(root(|x|), k)
    ensures Combine(Dft(Evens(x), root), Dft(Odds(x), root), x, w)[k] == Dft(x, root)[k]
  {
    DftLow(x, root, k);
  }

  lemma CombineHighIsDft(x: seq<Complex>, w: (nat, nat) -> Complex, root: nat -> Complex, k: nat)
    requires |x| >= 2 && |x| % 2 == 0 && |x| / 2 <= k < |x|
    requires Mul(root(|x|), root(|x|)) == root(|x| / 2)
    requires Pow(root(|x|), |x| / 2) == Neg(One)
    requires w(k - |x| / 2, |x|) == Pow(root(|x|), k - |x| / 2)
    ensures Combine(Dft(Evens(x), root), Dft(Odds(x), root), x, w)[k] == Dft(x, root)[k]
  {
    DftHigh(x, root, k - |x| / 2);
  }

  /** Two sequences of the same length that agree everywhere are equal. */
  lemma SameEntries(c: seq<Complex>, d: seq<Complex>)
    requires |c| == |d|
    requires forall k :: 0 <= k < |c| ==> c[k] == d[k]
    ensures c == d
  {
  }

  /** One level of the recursion: the butterfly combination of the DFTs of the
      two halves is the DFT of the whole buffer. */
  lemma CombineOfDftsIsDft(x: seq<Complex>, w: (nat, nat) -> Complex, root: nat -> Complex)
    requires |x| >= 2 && |x| % 2 == 0
    requires Mul(root(|x|), root(|x|)) == root(|x| / 2)
    requires Pow(root(|x|), |x| / 2) == Neg(One)
    requires forall j :: 0 <= j < |x| / 2 ==> w(j, |x|) == Pow(root(|x|), j)
    ensures Combine(Dft(Evens(x), root), Dft(Odds(x), root), x, w) == Dft(x, root)
  {
    var h := |x| / 2;
    var c := Combine(Dft(Evens(x), root), Dft(Odds(x), root), x, w);
    var d := Dft(x, root);
    forall k | 0 <= k < |x|
      ensures c[k] == d[k]
    {
      if k < h {
        assert w(k, |x|) == Pow(root(|x|), k);
        CombineLowIsDft(x, w, root, k);
      } else {
        assert w(k - h, |x|) == Pow(root(|x|), k - h);
        CombineHighIsDft(x, w, root, k);
      }
    }
    SameEntries(c, d);
  }

  /** The recursive radix-2 transform computes the discrete Fourier transform of
      every power-of-two-length input, when its twiddle factors are the powers of
      principal roots of unity. */
  lemma {:induction false} FftIsDft(x: seq<Complex>, w: (nat, nat) -> Complex, root: nat -> Complex)
    requires IsRootChain(root, |x|)
    requires IsTwiddleOf(w, root)
    ensures FftSpec(x, w) == Dft(x, root)
    decreases |x|
  {
    if |x| == 1 {
      DftOfSingleton(x, root);
    } else {
      FftIsDft(Evens(x), w, root);
      FftIsDft(Odds(x), w, root);
      CombineOfDftsIsDft(x, w, root);
    }
  }
}
