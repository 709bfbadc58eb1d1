/** Complex numbers as pairs of reals. */
module ComplexNumbers {
  import opened Linear

  datatype Complex = C(re: real, im: real)

  const ZERO := C(0.0, 0.0)
  const ONE := C(1.0, 0.0)

  function Add(a: Complex, b: Complex): Complex { C(a.re + b.re, a.im + b.im) }

  function Mul(a: Complex, b: Complex): Complex { C(a.re * b.re - a.im * b.im, a.re * b.im + a.im * b.re) }

  function Scale(t: real, a: Complex): Complex { C(t * a.re, t * a.im) }

  function NormSq(a: Complex): real { a.re * a.re + a.im * a.im }

  /** The real inner product of two numbers seen as plane vectors. */
  function Inner(a: Complex, b: Complex): real { a.re * b.re + a.im * b.im }

  /** The product with i^e. */
  function TimesI(e: int, a: Complex): Complex {
    if e % 4 == 0 then a else if e % 4 == 1 then C(-a.im, a.re) else if e % 4 == 2 then C(-a.re, -a.im) else C(a.im, -a.re)
  }

  lemma TimesITwice(d: int, e: int, a: Complex)
    ensures TimesI(d, TimesI(e, a)) == TimesI(d + e, a)
  {
  }

  lemma TimesIInner(e: int, a: Complex, b: Complex)
    ensures Inner(TimesI(e, a), TimesI(e, b)) == Inner(a, b)
    ensures Inner(TimesI(1, a), b) == -Inner(a, TimesI(1, b))
    ensures Inner(a, TimesI(2, b)) == -Inner(a, b)
  {
  }

  lemma InnerSymmetric(a: Complex, b: Complex)
    ensures Inner(a, b) == Inner(b, a)
  {
  }

  lemma InnerLinear(s: real, a: Complex, t: real, b: Complex, x: Complex)
    ensures Inner(x, Add(Scale(s, a), Scale(t, b))) == s * Inner(x, a) + t * Inner(x, b)
  {
    assert x.re * (s * a.re + t * b.re) == s * (x.re * a.re) + t * (x.re * b.re);
    assert x.im * (s * a.im + t * b.im) == s * (x.im * a.im) + t * (x.im * b.im);
    assert s * (x.re * a.re + x.im * a.im) == s * (x.re * a.re) + s * (x.im * a.im);
    assert t * (x.re * b.re + x.im * b.im) == t * (x.re * b.re) + t * (x.im * b.im);
  }

  lemma TimesILinear(e: int, s: real, a: Complex, t: real, b: Complex)
    ensures TimesI(e, Add(Scale(s, a), Scale(t, b))) == Add(Scale(s, TimesI(e, a)), Scale(t, TimesI(e, b)))
  {
  }

  /** Twice the inner product is at most the sum of the squared lengths. */
  lemma InnerBound(a: Complex, b: Complex)
    ensures 2.0 * Inner(a, b) <= Inner(a, a) + Inner(b, b)
    ensures -2.0 * Inner(a, b) <= Inner(a, a) + Inner(b, b)
  {
    SquareGap(a.re, b.re);
    SquareGap(a.im, b.im);
  }

  lemma SquareGap(x: real, y: real)
    ensures 2.0 * (x * y) <= x * x + y * y
    ensures -2.0 * (x * y) <= x * x + y * y
  {
    TimesSquare(x - y);
    TimesSquare(x + y);
    assert Times(x - y, x - y) == x * x - 2.0 * (x * y) + y * y;
    assert Times(x + y, x + y) == x * x + 2.0 * (x * y) + y * y;
  }

  lemma AddNothing(s: real, a: Complex)
    ensures Add(Scale(s, a), Scale(0.0, a)) == Scale(s, a)
  {
  }

  lemma InnerZero(a: Complex)
    ensures Inner(ZERO, a) == 0.0
  {
  }

  function Conj(a: Complex): Complex { C(a.re, -a.im) }

  lemma MulAssociative(a: Complex, b: Complex, c: Complex)
    ensures Mul(Mul(a, b), c) == Mul(a, Mul(b, c))
  {
  }

  lemma MulCommutes(a: Complex, b: Complex)
    ensures Mul(a, b) == Mul(b, a)
  {
  }

  lemma ConjOfProduct(a: Complex, b: Complex)
    ensures Conj(Mul(a, b)) == Mul(Conj(a), Conj(b))
  {
  }

  lemma MulZero(t: Complex)
    ensures Mul(ZERO, t) == ZERO
  {
  }

  lemma MulOne(a: Complex)
    ensures Mul(ONE, a) == a && Mul(a, ONE) == a
  {
  }

  lemma MulOverAdd(x: Complex, a: Complex, b: Complex)
    ensures Mul(x, Add(a, b)) == Add(Mul(x, a), Mul(x, b))
  {
  }
}
