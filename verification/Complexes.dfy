/** Complex numbers over the reals, with the ring laws as lemmas. */
module Complexes {
  import Reals

  datatype Complex = Complex(re: real, im: real)

  const ZERO := Complex(0.0, 0.0)
  const ONE := Complex(1.0, 0.0)

  function Real(x: real): Complex {
    Complex(x, 0.0)
  }

  function Add(a: Complex, b: Complex): Complex {
    Complex(a.re + b.re, a.im + b.im)
  }

  function Sub(a: Complex, b: Complex): Complex {
    Complex(a.re - b.re, a.im - b.im)
  }

  function Neg(a: Complex): Complex {
    Complex(-a.re, -a.im)
  }

  function Mul(a: Complex, b: Complex): Complex {
    Complex(a.re * b.re - a.im * b.im, a.re * b.im + a.im * b.re)
  }

  function Scale(k: real, a: Complex): Complex {
    Complex(k * a.re, k * a.im)
  }

  function Conj(a: Complex): Complex {
    Complex(a.re, -a.im)
  }

  /** The squared magnitude. */
  function Norm2(a: Complex): real {
    Reals.Square(a.re) + Reals.Square(a.im)
  }

  /** The inverse; zero, which has none, is mapped to zero. */
  function Inv(a: Complex): Complex {
    var n := Norm2(a);
    if n == 0.0 then ZERO else Scale(1.0 / n, Conj(a))
  }

  function Div(a: Complex, b: Complex): Complex {
    Mul(a, Inv(b))
  }

  lemma MulComm(a: Complex, b: Complex)
    ensures Mul(a, b) == Mul(b, a)
  {
  }

  lemma MulAssoc(a: Complex, b: Complex, c: Complex)
    ensures Mul(Mul(a, b), c) == Mul(a, Mul(b, c))
  {
  }

  lemma MulSub(a: Complex, b: Complex, c: Complex)
    ensures Mul(a, Sub(b, c)) == Sub(Mul(a, b), Mul(a, c))
  {
  }

  lemma MulAdd(a: Complex, b: Complex, c: Complex)
    ensures Mul(a, Add(b, c)) == Add(Mul(a, b), Mul(a, c))
  {
  }

  lemma MulOne(a: Complex)
    ensures Mul(a, ONE) == a && Mul(a, Real(-1.0)) == Neg(a) && Mul(a, ZERO) == ZERO
  {
  }

  lemma ScaleIsMul(k: real, a: Complex)
    ensures Scale(k, a) == Mul(Real(k), a)
  {
  }

  lemma ScaleAdd(k: real, a: Complex, b: Complex)
    ensures Scale(k, Add(a, b)) == Add(Scale(k, a), Scale(k, b))
  {
  }

  lemma ScaleScale(k: real, l: real, a: Complex)
    ensures Scale(k, Scale(l, a)) == Scale(Reals.Mul(k, l), a)
  {
  }

  lemma ScaleSum(k: real, l: real, a: Complex)
    ensures Scale(k + l, a) == Add(Scale(k, a), Scale(l, a))
  {
  }

  lemma ScaleReals(k: real, x: real)
    ensures Scale(k, Real(x)) == Real(Reals.Mul(k, x))
  {
  }

  lemma ScaleZero(a: Complex)
    ensures Scale(0.0, a) == ZERO && Scale(1.0, a) == a
  {
  }

  lemma NonZero(a: Complex)
    ensures Norm2(a) == 0.0 <==> a == ZERO
    ensures Norm2(a) >= 0.0
  {
    Reals.SquareSign(a.re);
    Reals.SquareSign(a.im);
    hide Reals.Square;
  }

  lemma InvMul(a: Complex)
    requires a != ZERO
    ensures Mul(a, Inv(a)) == ONE
  {
    NonZero(a);
    var n := Norm2(a);
    var t := 1.0 / n;
    assert t * n == 1.0;
    MulConj(a, t);
    hide Norm2, Mul, Scale;
  }

  lemma MulConj(a: Complex, t: real)
    ensures Mul(a, Scale(t, Conj(a))) == Complex(t * Norm2(a), 0.0)
  {
  }

  lemma RealMul(x: real, y: real)
    ensures Mul(Real(x), Real(y)) == Real(Reals.Mul(x, y))
  {
  }

  /** A product vanishes exactly when a factor does. */
  lemma ZeroProduct(a: Complex, b: Complex)
    ensures Mul(a, b) == ZERO <==> a == ZERO || b == ZERO
  {
    hide Mul, Inv;
    MulComm(a, b);
    MulOne(a);
    MulOne(b);
    if b != ZERO {
      InvMul(b);
      MulAssoc(a, b, Inv(b));
      MulComm(ZERO, Inv(b));
      MulOne(Inv(b));
    }
  }

  lemma DivMul(a: Complex, b: Complex)
    requires b != ZERO
    ensures Mul(Div(a, b), b) == a
  {
    hide Mul, Inv;
    InvMul(b);
    MulAssoc(a, Inv(b), b);
    MulComm(Inv(b), b);
    MulOne(a);
  }

  /** Conjugation respects sums and products. */
  lemma ConjMul(a: Complex, b: Complex)
    ensures Conj(Mul(a, b)) == Mul(Conj(a), Conj(b))
    ensures Conj(Add(a, b)) == Add(Conj(a), Conj(b))
  {
  }
}
