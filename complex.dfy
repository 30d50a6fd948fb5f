/** Complex numbers over the reals, standing for std::complex<double>, with the
    ring laws and the power laws the transform proofs rely on. */
module ComplexNumbers {

  datatype Complex = Complex(re: real, im: real)

  const Zero: Complex := Complex(0.0, 0.0)
  const One: Complex := Complex(1.0, 0.0)

  function Add(a: Complex, b: Complex): Complex {
    Complex(a.re + b.re, a.im + b.im)
  }

  function Sub(a: Complex, b: Complex): Complex {
    Complex(a.re - b.re, a.im - b.im)
  }

  function Neg(a: Complex): Complex {
    Complex(-a.re, -a.im)
  }

  function Mul(a: Complex, b: Complex): Complex {
    Complex(a.re * b.re - a.im * b.im, a.re * b.im + a.im * b.re)
  }

  /** Squared modulus |z|^2. The source compares abs(z) = sqrt(|z|^2); since sqrt
      is strictly increasing on the non-negative reals and sqrt(0) == 0, comparing
      squared moduli makes exactly the same decisions. */
  function Norm(a: Complex): (r: real)
    ensures r >= 0.0
  {
    a.re * a.re + a.im * a.im
  }

  /** The product of two exponents, kept behind a name so that proofs about
      powers do not mix non-linear integer and real arithmetic. */
  function Prod(a: nat, b: nat): nat {
    a * b
  }

  /** z^n by repeated multiplication. */
  function Pow(z: Complex, n: nat): Complex {
    if n == 0 then One else Mul(z, Pow(z, n - 1))
  }

  lemma MulAssoc(a: Complex, b: Complex, c: Complex)
    ensures Mul(Mul(a, b), c) == Mul(a, Mul(b, c))
  {
    var re := a.re * b.re * c.re - a.im * b.im * c.re - a.re * b.im * c.im - a.im * b.re * c.im;
    var im := a.re * b.re * c.im - a.im * b.im * c.im + a.re * b.im * c.re + a.im * b.re * c.re;
    assert Mul(Mul(a, b), c) == Complex(re, im);
    assert Mul(a, Mul(b, c)) == Complex(re, im);
  }

  lemma MulComm(a: Complex, b: Complex)
    ensures Mul(a, b) == Mul(b, a)
  {
  }

  lemma MulAddDistrib(a: Complex, b: Complex, c: Complex)
    ensures Mul(a, Add(b, c)) == Add(Mul(a, b), Mul(a, c))
  {
  }

  lemma ProdDouble(d: nat, k: nat)
    ensures 2 * Prod(d, k) == Prod(2 * d, k)
  {
  }

  lemma ProdSucc(a: nat, k: nat)
    ensures k + Prod(a, k) == Prod(a + 1, k)
  {
  }

  lemma ProdStep(a: nat, b: nat)
    requires b > 0
    ensures Prod(a, b) == a + Prod(a, b - 1)
  {
  }

  lemma ProdShift(d: nat, k: nat, h: nat)
    ensures Prod(d, k + h) == Prod(d, k) + Prod(h, d)
  {
  }

  lemma MulOne(a: Complex)
    ensures Mul(a, One) == a
  {
  }

  lemma MulLeftComm(a: Complex, b: Complex, c: Complex)
    ensures Mul(a, Mul(b, c)) == Mul(b, Mul(a, c))
  {
    MulAssoc(a, b, c);
    MulComm(a, b);
    MulAssoc(b, a, c);
  }

  lemma AddRegroup(a: Complex, b: Complex, c: Complex, d: Complex)
    ensures Add(Add(Add(a, b), c), d) == Add(Add(a, c), Add(b, d))
  {
  }

  lemma AddNegMul(a: Complex, p: Complex, b: Complex)
    ensures Add(a, Mul(Neg(p), b)) == Sub(a, Mul(p, b))
  {
  }

  lemma MulNegOne(a: Complex)
    ensures Mul(a, Neg(One)) == Neg(a)
  {
  }

  lemma {:induction false} PowAdd(z: Complex, a: nat, b: nat)
    ensures Pow(z, a + b) == Mul(Pow(z, a), Pow(z, b))
    decreases a
  {
    if a == 0 {
      assert Mul(One, Pow(z, b)) == Pow(z, b);
    } else {
      PowAdd(z, a - 1, b);
      MulAssoc(z, Pow(z, a - 1), Pow(z, b));
    }
  }

  lemma {:induction false} PowMul(z: Complex, a: nat, b: nat)
    ensures Pow(z, Prod(a, b)) == Pow(Pow(z, a), b)
    decreases b
  {
    if b > 0 {
      calc {
        Pow(z, Prod(a, b));
        { ProdStep(a, b); }
        Pow(z, a + Prod(a, b - 1));
        { PowAdd(z, a, Prod(a, b - 1)); }
        Mul(Pow(z, a), Pow(z, Prod(a, b - 1)));
        { PowMul(z, a, b - 1); }
        Mul(Pow(z, a), Pow(Pow(z, a), b - 1));
      }
    }
  }

  /** If z^h == 1 then every power of z whose exponent is a multiple of h is 1. */
  lemma {:induction false} PowPeriod(z: Complex, h: nat, d: nat)
    requires Pow(z, h) == One
    ensures Pow(z, Prod(h, d)) == One
    decreases d
  {
    if d > 0 {
      calc {
        Pow(z, Prod(h, d));
        { ProdStep(h, d); }
        Pow(z, h + Prod(h, d - 1));
        { PowAdd(z, h, Prod(h, d - 1)); }
        Mul(Pow(z, h), Pow(z, Prod(h, d - 1)));
        { PowPeriod(z, h, d - 1); }
        Mul(One, One);
        { MulOne(One); }
        One;
      }
    }
  }

  /** (z*z)^m == z^(2m): the squared root of unity generates the half-size transform. */
  lemma PowSquare(z: Complex, m: nat)
    ensures Pow(Mul(z, z), m) == Pow(z, 2 * m)
  {
    assert Pow(z, 2) == Mul(z, z) by {
      assert Pow(z, 1) == z;
    }
    PowMul(z, 2, m);
    assert Prod(2, m) == 2 * m;
  }
}
