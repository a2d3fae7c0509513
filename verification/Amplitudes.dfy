/** Exact amplitudes.

    An amplitude is an element of R[w] with w^4 = -1, written by its four real
    coefficients.  Substituting w = exp(i*pi/4) maps this ring onto the complex
    numbers (`Number`), so an equation proved here holds for complex amplitudes,
    and every constant of the Clifford+T gate set (i = w^2, 1/sqrt 2 = (w - w^3)/2)
    is exact.  An inequation has to be proved of the numbers themselves. */
module Amplitudes {

  datatype Amp = Amp(c0: real, c1: real, c2: real, c3: real)

  const ZERO := Amp(0.0, 0.0, 0.0, 0.0)

  function Add(a: Amp, b: Amp): Amp {
    Amp(a.c0 + b.c0, a.c1 + b.c1, a.c2 + b.c2, a.c3 + b.c3)
  }

  function Neg(a: Amp): Amp {
    Amp(-a.c0, -a.c1, -a.c2, -a.c3)
  }

  /** Multiplication by w = exp(i*pi/4), the phase of a T gate. */
  function Turn(a: Amp): Amp {
    Amp(-a.c3, a.c0, a.c1, a.c2)
  }

  /** Multiplication by 1/w, the phase of a Tdag gate. */
  function TurnBack(a: Amp): Amp {
    Amp(a.c1, a.c2, a.c3, -a.c0)
  }

  /** Multiplication by 1/sqrt 2 = (w - w^3)/2. */
  function Halve(a: Amp): Amp {
    Amp(0.5 * (a.c1 - a.c3), 0.5 * (a.c0 + a.c2), 0.5 * (a.c1 + a.c3), 0.5 * (a.c2 - a.c0))
  }

  /** Multiplication by w^k for any integer k. */
  function Phase(k: int, a: Amp): Amp
    decreases if k < 0 then -k else k
  {
    if k == 0 then a else if k > 0 then Turn(Phase(k - 1, a)) else TurnBack(Phase(k + 1, a))
  }

  /** Matrix entries: the constants of the Clifford+T gates, or any other number,
      given as two functions: multiplication by it and by its conjugate. */
  datatype Coef =
    | Zero | One | MinusOne | Omega | OmegaInv | RootHalf | MinusRootHalf
    | Factor(f: Amp -> Amp, conj: Amp -> Amp)

  function Conjugate(c: Coef): Coef {
    match c
    case Omega => OmegaInv
    case OmegaInv => Omega
    case Factor(f, g) => Factor(g, f)
    case _ => c
  }

  function Scale(c: Coef, a: Amp): Amp {
    match c
    case Zero => ZERO
    case One => a
    case MinusOne => Neg(a)
    case Omega => Turn(a)
    case OmegaInv => TurnBack(a)
    case RootHalf => Halve(a)
    case MinusRootHalf => Neg(Halve(a))
    case Factor(f, _) => f(a)
  }

  ghost predicate FixesZero(c: Coef) {
    Scale(c, ZERO) == ZERO
  }

  /** The defining facts of the constants: w has order 8, and the Hadamard entry
      squares to one half. */
  lemma {:induction false} ConstantLaws(a: Amp)
    ensures Turn(TurnBack(a)) == a && TurnBack(Turn(a)) == a
    ensures Turn(Turn(Turn(Turn(a)))) == Neg(a)
    ensures Add(Halve(Halve(a)), Halve(Halve(a))) == a
  {
  }

  lemma {:induction false} PhaseAdds(j: int, k: int, a: Amp)
    ensures Phase(j, Phase(k, a)) == Phase(j + k, a)
    decreases if j < 0 then -j else j
  {
    if j > 0 {
      PhaseAdds(j - 1, k, a);
      PhaseStep(j - 1 + k, a);
    } else if j < 0 {
      PhaseAdds(j + 1, k, a);
      PhaseStep(j + k, a);
      ConstantLaws(Phase(j + k, a));
    }
  }

  lemma {:induction false} PhaseStep(k: int, a: Amp)
    ensures Phase(k + 1, a) == Turn(Phase(k, a))
  {
    if k < 0 {
      ConstantLaws(Phase(k + 1, a));
    }
  }

  lemma {:induction false} PhaseFour(a: Amp)
    ensures Phase(0, a) == a && Phase(4, a) == Neg(a) && Phase(8, a) == a && Phase(-4, a) == Neg(a)
  {
    PhaseStep(3, a);
    PhaseStep(2, a);
    PhaseStep(1, a);
    PhaseStep(0, a);
    PhaseAdds(4, 4, a);
    PhaseStep(7, a); PhaseStep(6, a); PhaseStep(5, a); PhaseStep(4, a);
    PhaseAdds(4, -4, a);
    PhaseStep(-4, a); PhaseStep(-3, a); PhaseStep(-2, a); PhaseStep(-1, a);
  }

  // ----- The complex numbers -----

  datatype Complex = Complex(re: real, im: real)

  function Scaled(s: real, x: real): real {
    s * x
  }

  /** What an amplitude stands for, where `s` is 1/sqrt 2.  Different amplitudes may stand for
      the same number. */
  function Number(a: Amp, s: real): Complex {
    Complex(a.c0 + Scaled(s, a.c1 - a.c3), a.c2 + Scaled(s, a.c1 + a.c3))
  }

  const NOTHING := Complex(0.0, 0.0)

  lemma {:induction false} ScaledLaws(s: real, x: real, y: real)
    ensures Scaled(s, x + y) == Scaled(s, x) + Scaled(s, y) && Scaled(s, x - y) == Scaled(s, x) - Scaled(s, y)
    ensures Scaled(s, -x) == -Scaled(s, x)
  {
  }

  lemma {:induction false} ScaledTwice(s: real, x: real)
    requires s * s == 0.5
    ensures Scaled(s, Scaled(s, x)) == 0.5 * x
  {
    assert s * (s * x) == (s * s) * x;
  }

  lemma {:induction false} NumberAt(a: Amp, s: real, p: real, r: real, d: real, e: real)
    requires a.c0 == p && a.c2 == r && a.c1 - a.c3 == d && a.c1 + a.c3 == e
    ensures Number(a, s) == Complex(p + Scaled(s, d), r + Scaled(s, e))
  {
    hide Scaled;
  }

  /** Multiplication by w turns by an eighth. */
  lemma {:induction false} NumberOfTurn(a: Amp, s: real)
    requires s * s == 0.5
    ensures var z := Number(a, s);
            && Number(Turn(a), s) == Complex(Scaled(s, z.re - z.im), Scaled(s, z.re + z.im))
            && Number(TurnBack(a), s) == Complex(Scaled(s, z.re + z.im), Scaled(s, z.im - z.re))
  {
    hide Number, Scaled;
    var d, e := a.c1 - a.c3, a.c1 + a.c3;
    NumberAt(a, s, a.c0, a.c2, d, e);
    NumberAt(Turn(a), s, -a.c3, a.c1, a.c0 - a.c2, a.c0 + a.c2);
    NumberAt(TurnBack(a), s, a.c1, a.c3, a.c2 + a.c0, a.c2 - a.c0);
    var x, y := a.c0 + Scaled(s, d), a.c2 + Scaled(s, e);
    ScaledLaws(s, x, y);
    ScaledLaws(s, y, x);
    ScaledLaws(s, a.c0, Scaled(s, d));
    ScaledLaws(s, a.c2, Scaled(s, e));
    ScaledLaws(s, a.c0, a.c2);
    ScaledLaws(s, a.c2, a.c0);
    ScaledTwice(s, d);
    ScaledTwice(s, e);
  }

  /** And the other operations are what they are on complex numbers. */
  lemma {:induction false} NumberOfOthers(a: Amp, b: Amp, s: real)
    requires s * s == 0.5
    ensures var y, z := Number(a, s), Number(b, s);
            && Number(Add(a, b), s) == Complex(y.re + z.re, y.im + z.im)
            && Number(Neg(a), s) == Complex(-y.re, -y.im)
            && Number(Halve(a), s) == Complex(Scaled(s, y.re), Scaled(s, y.im))
  {
    hide Number, Scaled;
    var d, e, f, g := a.c1 - a.c3, a.c1 + a.c3, b.c1 - b.c3, b.c1 + b.c3;
    NumberAt(a, s, a.c0, a.c2, d, e);
    NumberAt(b, s, b.c0, b.c2, f, g);
    NumberAt(Add(a, b), s, a.c0 + b.c0, a.c2 + b.c2, d + f, e + g);
    NumberAt(Neg(a), s, -a.c0, -a.c2, -d, -e);
    NumberAt(Halve(a), s, 0.5 * d, 0.5 * e, a.c0, a.c2);
    ScaledLaws(s, d, f);
    ScaledLaws(s, e, g);
    ScaledTwice(s, d);
    ScaledTwice(s, e);
    ScaledLaws(s, a.c0, Scaled(s, d));
    ScaledLaws(s, a.c2, Scaled(s, e));
  }

  /** No number but 0 stays the same when it is turned by an eighth, in either direction. */
  lemma {:induction false} TurnedIsOther(x: real, y: real, s: real)
    requires s * s == 0.5
    ensures Scaled(s, x - y) == x && Scaled(s, x + y) == y ==> x == 0.0 && y == 0.0
    ensures Scaled(s, x + y) == x && Scaled(s, y - x) == y ==> x == 0.0 && y == 0.0
    ensures Scaled(s, 0.0) == 0.0
  {
    hide Scaled;
    ScaledLaws(s, x, y);
    ScaledLaws(s, y, x);
    ScaledLaws(s, 0.0, 0.0);
    ScaledTwice(s, x - y);
    ScaledTwice(s, x + y);
    ScaledTwice(s, y - x);
  }
}
