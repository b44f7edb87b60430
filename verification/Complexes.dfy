/** Complex numbers and the laws that the summation loops use. */
module Complexes {

  datatype Complex = Complex(r: real, i: real)

  const ZERO := Complex(0.0, 0.0)
  const ONE := Complex(1.0, 0.0)

  function Add(a: Complex, b: Complex): Complex {
    Complex(a.r + b.r, a.i + b.i)
  }

  function Sub(a: Complex, b: Complex): Complex {
    Complex(a.r - b.r, a.i - b.i)
  }

  function Mul(a: Complex, b: Complex): Complex {
    Complex(a.r * b.r - a.i * b.i, a.r * b.i + a.i * b.r)
  }

  function Scale(t: real, a: Complex): Complex {
    Complex(t * a.r, t * a.i)
  }

  lemma MulCommutes(a: Complex, b: Complex)
    ensures Mul(a, b) == Mul(b, a)
  {
  }

  lemma RealAssociates(a: real, b: real, c: real)
    ensures (a * b) * c == a * (b * c)
  {
  }

  lemma MulAssociates(a: Complex, b: Complex, c: Complex)
    ensures Mul(Mul(a, b), c) == Mul(a, Mul(b, c))
  {
    RealAssociates(a.r, b.r, c.r);
    RealAssociates(a.i, b.i, c.r);
    RealAssociates(a.r, b.i, c.i);
    RealAssociates(a.i, b.r, c.i);
    RealAssociates(a.r, b.r, c.i);
    RealAssociates(a.i, b.i, c.i);
    RealAssociates(a.r, b.i, c.r);
    RealAssociates(a.i, b.r, c.r);
    Outer(a, b, c);
    Inner(a, b, c);
  }

  lemma Outer(a: Complex, b: Complex, c: Complex)
    ensures Mul(Mul(a, b), c).r == a.r * b.r * c.r - a.i * b.i * c.r - a.r * b.i * c.i - a.i * b.r * c.i
    ensures Mul(Mul(a, b), c).i == a.r * b.r * c.i - a.i * b.i * c.i + a.r * b.i * c.r + a.i * b.r * c.r
  {
  }

  lemma Inner(a: Complex, b: Complex, c: Complex)
    ensures Mul(a, Mul(b, c)).r == a.r * (b.r * c.r) - a.r * (b.i * c.i) - a.i * (b.r * c.i) - a.i * (b.i * c.r)
    ensures Mul(a, Mul(b, c)).i == a.r * (b.r * c.i) + a.r * (b.i * c.r) + a.i * (b.r * c.r) - a.i * (b.i * c.i)
  {
  }

  lemma MulAdds(a: Complex, b: Complex, c: Complex)
    ensures Mul(a, Add(b, c)) == Add(Mul(a, b), Mul(a, c)) && Mul(Add(b, c), a) == Add(Mul(b, a), Mul(c, a))
  {
  }

  lemma MulSubs(a: Complex, b: Complex, c: Complex)
    ensures Mul(a, Sub(b, c)) == Sub(Mul(a, b), Mul(a, c)) && Mul(Sub(b, c), a) == Sub(Mul(b, a), Mul(c, a))
  {
  }

  lemma MulOne(a: Complex)
    ensures Mul(a, ONE) == a && Mul(ONE, a) == a && Mul(a, ZERO) == ZERO && Mul(ZERO, a) == ZERO
  {
  }

  function Power(z: Complex, n: nat): Complex {
    if n == 0 then ONE else Mul(z, Power(z, n - 1))
  }
}
