/** What the unitarity test accepts.  It multiplies by the conjugate where the adjoint is
    announced, so it tests U.conj(U) and not U.adjoint(U). */
module UnitarityTest {
  import opened Matrices
  import opened CustomGates

  // ----- The verdict on hermiticity does not depend on the order of the entries -----

  lemma {:induction false} HermitianInEitherOrder(a: Matrix, n: nat)
    ensures Hermitian(Transposed(a), n) <==> Hermitian(a, n)
  {
    if Hermitian(a, n) {
      forall i, j | 0 <= i < n && 0 <= j < n ensures Transposed(a)(i, j) == Adjoint(Transposed(a))(i, j) {
        assert a(j, i) == Adjoint(a)(j, i);
      }
    }
    if Hermitian(Transposed(a), n) {
      forall i, j | 0 <= i < n && 0 <= j < n ensures a(i, j) == Adjoint(a)(i, j) {
        assert Transposed(a)(j, i) == Adjoint(Transposed(a))(j, i);
      }
    }
  }

  // ----- Nor does the verdict on unitarity -----

  lemma {:induction false} TransposedDot(u: Matrix, i: nat, j: nat, k: nat)
    ensures Dot(Transposed(u), Conjugated(Transposed(u)), i, j, k) == Conj(Dot(u, Conjugated(u), j, i, k))
    decreases k
  {
    hide Dot, Times;
    if k > 0 {
      TransposedDot(u, i, j, k - 1);
      NextTerm(u, j, i, k - 1);
      NextTerm(Transposed(u), i, j, k - 1);
    } else {
      NoTerms(u, j, i);
      NoTerms(Transposed(u), i, j);
    }
  }

  lemma {:induction false} UnitaryInEitherOrder(u: Matrix, n: nat, tol: real)
    ensures Near(Tested(Transposed(u), n), Identity(), n, tol) <==> Near(Tested(u, n), Identity(), n, tol)
  {
    hide Dot, Close;
    forall i: nat, j: nat | i < n && j < n
      ensures Close(Tested(Transposed(u), n)(i, j), Identity()(i, j), tol) <==>
              Close(Tested(u, n)(j, i), Identity()(j, i), tol)
    {
      TransposedDot(u, i, j, n);
      ConjugatesClose(Tested(u, n)(j, i), Identity()(j, i), tol);
      assert Identity()(i, j) == Conj(Identity()(j, i));
    }
    if Near(Tested(Transposed(u), n), Identity(), n, tol) {
      forall i: nat, j: nat | i < n && j < n ensures Close(Tested(u, n)(i, j), Identity()(i, j), tol) {
        assert Close(Tested(Transposed(u), n)(j, i), Identity()(j, i), tol);
      }
    }
  }

  lemma {:induction false} ConjugatesClose(a: Cx, b: Cx, tol: real)
    ensures Close(Conj(a), Conj(b), tol) <==> Close(a, b, tol)
  {
  }

  // ----- Products -----

  lemma {:induction false} Distributes(x: Cx, y: Cx, z: Cx)
    ensures Times(x, Plus(y, z)) == Plus(Times(x, y), Times(x, z)) &&
            Times(Plus(y, z), x) == Plus(Times(y, x), Times(z, x))
  {
    DistributesReal(x.re, y.re, z.re);
    DistributesReal(x.re, y.im, z.im);
    DistributesReal(x.im, y.re, z.re);
    DistributesReal(x.im, y.im, z.im);
    DistributesLeft(x, y, z);
  }

  lemma {:induction false} DistributesLeft(x: Cx, y: Cx, z: Cx)
    ensures Times(Plus(y, z), x) == Plus(Times(y, x), Times(z, x))
  {
    DistributesReal(x.re, y.re, z.re);
    DistributesReal(x.re, y.im, z.im);
    DistributesReal(x.im, y.re, z.re);
    DistributesReal(x.im, y.im, z.im);
  }

  lemma {:induction false} DistributesReal(x: real, y: real, z: real)
    ensures x * (y + z) == x * y + x * z && (y + z) * x == y * x + z * x
  {
  }

  lemma {:induction false} Associates(x: Cx, y: Cx, z: Cx)
    ensures Times(Times(x, y), z) == Times(x, Times(y, z))
  {
    ProductsOfThree(x.re, y.re, y.im, z.re, z.im);
    ProductsOfThree(x.im, y.re, y.im, z.re, z.im);
  }

  lemma {:induction false} ProductsOfThree(a: real, b: real, c: real, d: real, e: real)
    ensures a * (b * d - c * e) == (a * b) * d - (a * c) * e && a * (b * e + c * d) == (a * b) * e + (a * c) * d
  {
    assert a * (b * d - c * e) == a * (b * d) - a * (c * e);
    assert a * (b * e + c * d) == a * (b * e) + a * (c * d);
  }

  lemma {:induction false} SameDots(a: Matrix, b: Matrix, c: Matrix, d: Matrix, i: nat, j: nat, k: nat)
    requires forall l: nat | l < k :: a(i, l) == c(i, l) && b(l, j) == d(l, j)
    ensures Dot(a, b, i, j, k) == Dot(c, d, i, j, k)
    decreases k
  {
    if k > 0 {
      SameDots(a, b, c, d, i, j, k - 1);
    }
  }

  /** One more term in the inner sums. */
  lemma {:induction false} InnerTerm(a: Matrix, b: Matrix, c: Matrix, i: nat, j: nat, p: nat, q: nat)
    ensures Dot(a, Product(b, c, p + 1), i, j, q) ==
            Plus(Dot(a, Product(b, c, p), i, j, q), Times(Dot(a, b, i, p, q), c(p, j)))
    decreases q
  {
    hide Times;
    if q > 0 {
      InnerTerm(a, b, c, i, j, p, q - 1);
      var x, y, z, d := a(i, q - 1), Dot(b, c, q - 1, j, p), b(q - 1, p), c(p, j);
      Distributes(x, y, Times(z, d));
      Associates(x, z, d);
      Distributes(d, Dot(a, b, i, p, q - 1), Times(x, z));
      assert Product(b, c, p + 1)(q - 1, j) == Plus(y, Times(z, d));
    } else {
      Distributes(c(p, j), ZERO, ZERO);
    }
    TimesZero(c(p, j));
  }

  lemma {:induction false} TimesZero(x: Cx)
    ensures Times(ZERO, x) == ZERO && Times(x, ZERO) == ZERO && Times(x, ONE) == x && Times(ONE, x) == x
  {
  }

  /** (A.B).C and A.(B.C) agree, for sums of any two lengths. */
  lemma {:induction false} ProductAssociates(a: Matrix, b: Matrix, c: Matrix, i: nat, j: nat, p: nat, q: nat)
    ensures Dot(Product(a, b, q), c, i, j, p) == Dot(a, Product(b, c, p), i, j, q)
    decreases p
  {
    if p > 0 {
      ProductAssociates(a, b, c, i, j, p - 1, q);
      InnerTerm(a, b, c, i, j, p - 1, q);
    } else {
      EmptyInner(a, b, c, i, j, q);
    }
  }

  lemma {:induction false} EmptyInner(a: Matrix, b: Matrix, c: Matrix, i: nat, j: nat, q: nat)
    ensures Dot(a, Product(b, c, 0), i, j, q) == ZERO
    decreases q
  {
    if q > 0 {
      EmptyInner(a, b, c, i, j, q - 1);
      TimesZero(a(i, q - 1));
    }
  }

  /** Multiplying by the identity, on either side. */
  lemma {:induction false} DotIdentity(a: Matrix, i: nat, j: nat, k: nat)
    ensures Dot(a, Identity(), i, j, k) == if j < k then a(i, j) else ZERO
    ensures Dot(Identity(), a, i, j, k) == if i < k then a(i, j) else ZERO
    decreases k
  {
    hide Times;
    if k > 0 {
      DotIdentity(a, i, j, k - 1);
      TimesZero(a(i, k - 1));
      TimesZero(a(k - 1, j));
    }
  }

  // ----- Symmetric matrices -----

  /** On a symmetric matrix the test is the one that is announced. */
  lemma {:induction false} SymmetricIsTestedAsAnnounced(u: Matrix, n: nat, tol: real)
    requires Symmetric(u, n)
    ensures Near(Tested(u, n), Identity(), n, tol) <==> Near(Product(u, Adjoint(u), n), Identity(), n, tol)
  {
    hide Dot, Close;
    forall i: nat, j: nat | i < n && j < n ensures Tested(u, n)(i, j) == Product(u, Adjoint(u), n)(i, j) {
      forall l: nat | l < n ensures Conjugated(u)(l, j) == Adjoint(u)(l, j) {
        assert u(l, j) == Transposed(u)(l, j);
      }
      SameDots(u, Conjugated(u), u, Adjoint(u), i, j, n);
    }
    SameIsNear(Tested(u, n), Product(u, Adjoint(u), n), n, tol);
  }

  lemma {:induction false} SameIsNear(a: Matrix, b: Matrix, n: nat, tol: real)
    requires Same(a, b, n)
    ensures Near(a, Identity(), n, tol) <==> Near(b, Identity(), n, tol)
  {
    hide Close;
    if Near(a, Identity(), n, tol) {
      forall i, j | 0 <= i < n && 0 <= j < n ensures Close(b(i, j), Identity()(i, j), tol) {
        assert a(i, j) == b(i, j) && Close(a(i, j), Identity()(i, j), tol);
      }
    }
    if Near(b, Identity(), n, tol) {
      forall i, j | 0 <= i < n && 0 <= j < n ensures Close(a(i, j), Identity()(i, j), tol) {
        assert a(i, j) == b(i, j) && Close(b(i, j), Identity()(i, j), tol);
      }
    }
  }

  // ----- Unitary matrices -----

  /** For a unitary matrix, what the test leaves over is its lack of symmetry, turned by
      the adjoint. */
  lemma {:induction false} LackOfSymmetry(u: Matrix, n: nat, i: nat, j: nat)
    requires Unitary(u, n) && i < n && j < n
    ensures Conj(u(i, j)) == Dot(Adjoint(u), Tested(u, n), i, j, n)
    ensures Conj(u(j, i)) == Dot(Adjoint(u), Identity(), i, j, n)
  {
    hide Times, Dot;
    var w, c := Adjoint(u), Conjugated(u);
    ProductAssociates(w, u, c, i, j, n, n);
    SameDots(Product(w, u, n), c, Identity(), c, i, j, n);
    DotIdentity(c, i, j, n);
    DotIdentity(w, i, j, n);
  }

  /** Entries of a unitary matrix are at most 1, in both parts. */
  lemma {:induction false} EntriesBounded(u: Matrix, n: nat, i: nat, j: nat)
    requires Unitary(u, n) && i < n && j < n
    ensures Abs(u(i, j).re) <= 1.0 && Abs(u(i, j).im) <= 1.0
  {
    hide Unitary, Dot, Adjoint, Abs;
    RowOfLengthOne(u, n, i);
    OneOfSquares(u, i, j, n);
    SquareBelowOne(u(i, j).re);
    SquareBelowOne(u(i, j).im);
  }

  lemma {:induction false} RowOfLengthOne(u: Matrix, n: nat, i: nat)
    requires Unitary(u, n) && i < n
    ensures Dot(u, Adjoint(u), i, i, n) == ONE
  {
    hide Dot;
    assert Product(u, Adjoint(u), n)(i, i) == Identity()(i, i);
  }

  lemma {:induction false} SquareBelowOne(x: real)
    requires x * x <= 1.0
    ensures Abs(x) <= 1.0
  {
    assert Abs(x) * Abs(x) == x * x;
    SquareAboveOne(Abs(x));
  }

  lemma {:induction false} SquareAboveOne(x: real)
    ensures x > 1.0 ==> x * x > 1.0
  {
  }

  lemma {:induction false} OneOfSquares(u: Matrix, i: nat, j: nat, k: nat)
    ensures Dot(u, Adjoint(u), i, i, k).re >= 0.0
    ensures j < k ==> u(i, j).re * u(i, j).re + u(i, j).im * u(i, j).im <= Dot(u, Adjoint(u), i, i, k).re
    ensures u(i, j).re * u(i, j).re >= 0.0 && u(i, j).im * u(i, j).im >= 0.0
    decreases k
  {
    if k > 0 {
      OneOfSquares(u, i, j, k - 1);
      var x, y := u(i, k - 1).re, u(i, k - 1).im;
      assert y * -y == -(y * y);
      assert Dot(u, Adjoint(u), i, i, k).re == Dot(u, Adjoint(u), i, i, k - 1).re + (x * x + y * y);
    }
  }

  /** Twice the tolerance, `k` times over. */
  function Slack(k: nat, tol: real): (r: real)
    ensures r == 2.0 * k as real * tol
  {
    if k == 0 then 0.0
    else
      SlackNext(k, tol);
      Slack(k - 1, tol) + 2.0 * tol
  }

  lemma {:induction false} SlackNext(k: nat, tol: real)
    requires k > 0
    ensures 2.0 * (k - 1) as real * tol + 2.0 * tol == 2.0 * k as real * tol
  {
    var x := (k - 1) as real;
    assert k as real == x + 1.0;
    assert (2.0 * (x + 1.0)) * tol == (2.0 * x) * tol + 2.0 * tol;
  }

  /** Both parts are at most `bound`. */
  predicate Small(z: Cx, bound: real) {
    Abs(z.re) <= bound && Abs(z.im) <= bound
  }

  /** If two columns are close, so are their products with a row whose entries are small:
      every term adds at most twice the tolerance times the bound. */
  lemma {:induction false} CloseDots(w: Matrix, a: Matrix, b: Matrix, i: nat, j: nat, k: nat, bound: real, tol: real)
    requires forall l: nat | l < k :: Small(w(i, l), bound) && Close(a(l, j), b(l, j), tol)
    ensures Close(Dot(w, a, i, j, k), Dot(w, b, i, j, k), Slack(k, bound * tol))
    decreases k
  {
    hide Times, Close, Small, Plus;
    if k > 0 {
      CloseDots(w, a, b, i, j, k - 1, bound, tol);
      CloseTerms(w(i, k - 1), a(k - 1, j), b(k - 1, j), bound, tol);
      CloseSums(Dot(w, a, i, j, k - 1), Dot(w, b, i, j, k - 1),
                Times(w(i, k - 1), a(k - 1, j)), Times(w(i, k - 1), b(k - 1, j)),
                Slack(k - 1, bound * tol), 2.0 * (bound * tol));
    } else {
      NothingIsClose();
    }
  }

  /** The same for two rows and a column. */
  lemma {:induction false} CloseRows(a: Matrix, b: Matrix, w: Matrix, i: nat, j: nat, k: nat, bound: real, tol: real)
    requires forall l: nat | l < k :: Small(w(l, j), bound) && Close(a(i, l), b(i, l), tol)
    ensures Close(Dot(a, w, i, j, k), Dot(b, w, i, j, k), Slack(k, bound * tol))
    decreases k
  {
    hide Times, Close, Small, Plus;
    if k > 0 {
      CloseRows(a, b, w, i, j, k - 1, bound, tol);
      CloseTerms(w(k - 1, j), a(i, k - 1), b(i, k - 1), bound, tol);
      Commutes(w(k - 1, j), a(i, k - 1));
      Commutes(w(k - 1, j), b(i, k - 1));
      CloseSums(Dot(a, w, i, j, k - 1), Dot(b, w, i, j, k - 1),
                Times(a(i, k - 1), w(k - 1, j)), Times(b(i, k - 1), w(k - 1, j)),
                Slack(k - 1, bound * tol), 2.0 * (bound * tol));
    } else {
      NothingIsClose();
    }
  }

  lemma {:induction false} Commutes(x: Cx, y: Cx)
    ensures Times(x, y) == Times(y, x)
  {
  }

  lemma {:induction false} NothingIsClose()
    ensures Close(ZERO, ZERO, 0.0)
  {
  }

  lemma {:induction false} CloseSums(a: Cx, b: Cx, c: Cx, d: Cx, s: real, t: real)
    requires Close(a, b, s) && Close(c, d, t)
    ensures Close(Plus(a, c), Plus(b, d), s + t)
  {
  }

  lemma {:induction false} CloseTerms(w: Cx, a: Cx, b: Cx, bound: real, tol: real)
    requires Small(w, bound) && Close(a, b, tol)
    ensures Close(Times(w, a), Times(w, b), 2.0 * (bound * tol))
  {
    hide Abs, Times;
    DifferenceOfTerms(w, a, b);
    SmallTerms(w.re, w.im, a.re - b.re, a.im - b.im, Times(w, a).re - Times(w, b).re, Times(w, a).im - Times(w, b).im,
               bound, tol);
  }

  lemma {:induction false} SmallTerms(p: real, q: real, x: real, y: real, u: real, v: real, bound: real, tol: real)
    requires Abs(p) <= bound && Abs(q) <= bound && Abs(x) <= tol && Abs(y) <= tol
    requires u == p * x - q * y && v == p * y + q * x
    ensures Abs(u) <= 2.0 * (bound * tol) && Abs(v) <= 2.0 * (bound * tol)
  {
    AtMost(p, x, bound, tol);
    AtMost(q, y, bound, tol);
    AtMost(p, y, bound, tol);
    AtMost(q, x, bound, tol);
    TwoSmall(p * x, q * y, bound * tol);
    TwoSmall(p * y, q * x, bound * tol);
  }

  lemma {:induction false} DifferenceOfTerms(w: Cx, a: Cx, b: Cx)
    ensures var x, y := a.re - b.re, a.im - b.im;
            && Times(w, a).re - Times(w, b).re == w.re * x - w.im * y
            && Times(w, a).im - Times(w, b).im == w.re * y + w.im * x
  {
    DistributesReal(w.re, a.re, -b.re);
    DistributesReal(w.im, a.im, -b.im);
    DistributesReal(w.re, a.im, -b.im);
    DistributesReal(w.im, a.re, -b.re);
    assert w.re * -b.re == -(w.re * b.re) && w.im * -b.im == -(w.im * b.im);
    assert w.re * -b.im == -(w.re * b.im) && w.im * -b.re == -(w.im * b.re);
  }

  lemma {:induction false} TwoSmall(x: real, y: real, tol: real)
    requires Abs(x) <= tol && Abs(y) <= tol
    ensures Abs(x - y) <= 2.0 * tol && Abs(x + y) <= 2.0 * tol
  {
  }

  lemma {:induction false} AtMost(w: real, x: real, bound: real, tol: real)
    requires Abs(w) <= bound && Abs(x) <= tol
    ensures Abs(w * x) <= bound * tol
  {
    AbsOfProduct(w, x);
    ScaledUp(Abs(w), bound, Abs(x), tol);
  }

  lemma {:induction false} AbsOfProduct(w: real, x: real)
    ensures Abs(w * x) == Abs(w) * Abs(x)
  {
    assert (-w) * x == -(w * x) && w * (-x) == -(w * x) && (-w) * (-x) == w * x;
    SignOfProduct(w, x);
    SignOfProduct(-w, x);
    SignOfProduct(w, -x);
    SignOfProduct(-w, -x);
  }

  lemma {:induction false} SignOfProduct(w: real, x: real)
    ensures w >= 0.0 && x >= 0.0 ==> w * x >= 0.0
  {
  }

  lemma {:induction false} ScaledUp(p: real, bound: real, x: real, tol: real)
    requires 0.0 <= p <= bound && 0.0 <= x <= tol
    ensures p * x <= bound * tol
  {
    SignOfProduct(bound - p, x);
    SignOfProduct(bound, tol - x);
    assert (bound - p) * x == bound * x - p * x && bound * (tol - x) == bound * tol - bound * x;
  }

  /** A unitary matrix that passes the test is symmetric, up to the tolerance times twice
      the dimension. */
  lemma {:induction false} AcceptedIsAlmostSymmetric(u: Matrix, n: nat, tol: real)
    requires Unitary(u, n) && Near(Tested(u, n), Identity(), n, tol)
    ensures Near(u, Transposed(u), n, Slack(n, tol))
  {
    hide Dot, Times, Unitary;
    forall i: nat, j: nat | i < n && j < n ensures Close(u(i, j), Transposed(u)(i, j), Slack(n, tol)) {
      hide Near;
      LackOfSymmetry(u, n, i, j);
      forall l: nat | l < n
        ensures Small(Adjoint(u)(i, l), 1.0)
        ensures Close(Tested(u, n)(l, j), Identity()(l, j), tol)
      {
        EntriesBounded(u, n, l, i);
        NearAt(Tested(u, n), Identity(), n, tol, l, j);
      }
      CloseDots(Adjoint(u), Tested(u, n), Identity(), i, j, n, 1.0, tol);
    }
  }

  lemma {:induction false} NearAt(a: Matrix, b: Matrix, n: nat, tol: real, i: nat, j: nat)
    requires Near(a, b, n, tol) && i < n && j < n
    ensures Close(a(i, j), b(i, j), tol)
  {
  }

  /** Without rounding and tolerance, the unitary matrices that pass are the symmetric ones. */
  lemma {:induction false} UnitaryPassesIffSymmetric(u: Matrix, n: nat)
    requires Unitary(u, n)
    ensures Near(Tested(u, n), Identity(), n, 0.0) <==> Symmetric(u, n)
  {
    hide Tested, Product;
    if Near(Tested(u, n), Identity(), n, 0.0) {
      AcceptedIsAlmostSymmetric(u, n, 0.0);
      assert Slack(n, 0.0) == 0.0;
      forall i: nat, j: nat | i < n && j < n ensures u(i, j) == Transposed(u)(i, j) {
        NearAt(u, Transposed(u), n, 0.0, i, j);
      }
    }
    if Symmetric(u, n) {
      SymmetricUnitaryPasses(u, n, 0.0);
    }
  }

  lemma {:induction false} SymmetricUnitaryPasses(u: Matrix, n: nat, tol: real)
    requires Unitary(u, n) && Symmetric(u, n) && tol >= 0.0
    ensures Near(Tested(u, n), Identity(), n, tol)
  {
    hide Tested, Dot;
    SymmetricIsTestedAsAnnounced(u, n, tol);
    forall i, j | 0 <= i < n && 0 <= j < n ensures Close(Product(u, Adjoint(u), n)(i, j), Identity()(i, j), tol) {
      assert Product(u, Adjoint(u), n)(i, j) == Identity()(i, j);
    }
  }

  /** A unitary matrix that is symmetric up to d passes with a tolerance of 2n times d. */
  lemma {:induction false} AlmostSymmetricIsAccepted(u: Matrix, n: nat, d: real)
    requires Unitary(u, n) && Near(u, Transposed(u), n, d)
    ensures Near(Tested(u, n), Identity(), n, Slack(n, d))
  {
    hide Dot, Times, Unitary;
    forall i: nat, j: nat | i < n && j < n ensures Close(Tested(u, n)(i, j), Identity()(i, j), Slack(n, d)) {
      hide Near, Close;
      UnitaryRows(u, n, i, j);
      forall l: nat | l < n
        ensures Small(u(i, l), 1.0)
        ensures Close(Conjugated(u)(l, j), Adjoint(u)(l, j), d)
      {
        EntriesBounded(u, n, i, l);
        NearAt(u, Transposed(u), n, d, l, j);
        ConjugatesClose(u(l, j), Transposed(u)(l, j), d);
      }
      CloseDots(u, Conjugated(u), Adjoint(u), i, j, n, 1.0, d);
    }
  }

  lemma {:induction false} UnitaryRows(u: Matrix, n: nat, i: nat, j: nat)
    requires Unitary(u, n) && i < n && j < n
    ensures Dot(u, Adjoint(u), i, j, n) == Identity()(i, j)
  {
    hide Dot, Adjoint;
    assert Product(u, Adjoint(u), n)(i, j) == Identity()(i, j);
  }

  // ----- Matrices that are accepted -----

  lemma {:induction false} ConjugatedDot(u: Matrix, i: nat, j: nat, k: nat)
    ensures Dot(Conjugated(u), u, i, j, k) == Conj(Dot(u, Conjugated(u), i, j, k))
    decreases k
  {
    hide Times, Plus;
    if k > 0 {
      ConjugatedDot(u, i, j, k - 1);
      ConjugatedTerm(u(i, k - 1), u(k - 1, j));
      ConjugatedSum(Dot(u, Conjugated(u), i, j, k - 1), Times(u(i, k - 1), Conj(u(k - 1, j))));
    }
  }

  lemma {:induction false} ConjugatedSum(x: Cx, y: Cx)
    ensures Conj(Plus(x, y)) == Plus(Conj(x), Conj(y))
  {
  }

  lemma {:induction false} ConjugatedTerm(x: Cx, y: Cx)
    ensures Times(Conj(x), y) == Conj(Times(x, Conj(y)))
  {
    SignOut(x.re, y.im);
    SignOut(x.im, y.re);
    SignOut(x.im, y.im);
  }

  lemma {:induction false} SignOut(a: real, b: real)
    ensures (-a) * b == a * (-b) == -(a * b)
  {
  }

  /** Without rounding and tolerance, the matrices that pass are the inverses of their
      conjugates, and of those the symmetric ones are unitary. */
  lemma {:induction false} AcceptedIsUnitaryIffSymmetric(u: Matrix, n: nat)
    requires Near(Tested(u, n), Identity(), n, 0.0)
    ensures Unitary(u, n) <==> Symmetric(u, n)
  {
    hide Dot, Near;
    if Unitary(u, n) {
      UnitaryPassesIffSymmetric(u, n);
    }
    if Symmetric(u, n) {
      forall i: nat, j: nat | i < n && j < n
        ensures Product(u, Adjoint(u), n)(i, j) == Identity()(i, j)
        ensures Product(Adjoint(u), u, n)(i, j) == Identity()(i, j)
      {
        hide Unitary;
        forall a: nat, b: nat | a < n && b < n ensures Adjoint(u)(a, b) == Conjugated(u)(a, b) {
          assert u(a, b) == Transposed(u)(a, b);
        }
        NearAt(Tested(u, n), Identity(), n, 0.0, i, j);
        SameDots(u, Adjoint(u), u, Conjugated(u), i, j, n);
        SameDots(Adjoint(u), u, Conjugated(u), u, i, j, n);
        ConjugatedDot(u, i, j, n);
      }
    }
  }

  /** So of all matrices that are unitary or accepted, the verdict is right on the symmetric
      ones, and on no other. */
  lemma {:induction false} VerdictRightIffSymmetric(u: Matrix, n: nat)
    requires Unitary(u, n) || Near(Tested(u, n), Identity(), n, 0.0)
    ensures (Near(Tested(u, n), Identity(), n, 0.0) <==> Unitary(u, n)) <==> Symmetric(u, n)
  {
    hide Unitary, Tested, Near, Symmetric;
    if Unitary(u, n) {
      UnitaryPassesIffSymmetric(u, n);
    } else {
      AcceptedIsUnitaryIffSymmetric(u, n);
    }
  }

  // ----- Pauli Y -----

  function PauliY(): Matrix {
    (i: nat, j: nat) => if i == 0 && j == 1 then Cx(0.0, -1.0) else if i == 1 && j == 0 then Cx(0.0, 1.0) else ZERO
  }

  lemma {:induction false} DotOfTwo(a: Matrix, b: Matrix, i: nat, j: nat)
    ensures Dot(a, b, i, j, 2) == Plus(Times(a(i, 0), b(0, j)), Times(a(i, 1), b(1, j)))
  {
    hide Times;
    assert Dot(a, b, i, j, 1) == Plus(ZERO, Times(a(i, 0), b(0, j)));
  }

  lemma {:induction false} PauliEntry(i: nat, j: nat)
    requires i < 2 && j < 2
    ensures var y := PauliY();
            && Adjoint(y)(i, j) == y(i, j)
            && Product(y, y, 2)(i, j) == Identity()(i, j)
            && Product(y, Conjugated(y), 2)(i, j) == if i == j then Cx(-1.0, 0.0) else ZERO
  {
    hide Dot, Times, PauliY, Conjugated;
    var y := PauliY();
    PauliValues();
    TimesOfUnits();
    DotOfTwo(y, y, i, j);
    DotOfTwo(y, Conjugated(y), i, j);
  }

  lemma {:induction false} PauliValues()
    ensures var y := PauliY();
            && y(0, 0) == y(1, 1) == ZERO && y(0, 1) == Cx(0.0, -1.0) && y(1, 0) == Cx(0.0, 1.0)
            && Conjugated(y)(0, 0) == Conjugated(y)(1, 1) == ZERO
            && Conjugated(y)(0, 1) == Cx(0.0, 1.0) && Conjugated(y)(1, 0) == Cx(0.0, -1.0)
  {
    hide Conjugated;
    var y := PauliY();
    ConjugatedAt(y, 0, 0);
    ConjugatedAt(y, 0, 1);
    ConjugatedAt(y, 1, 0);
    ConjugatedAt(y, 1, 1);
  }

  lemma {:induction false} ConjugatedAt(a: Matrix, i: nat, j: nat)
    ensures Conjugated(a)(i, j) == Cx(a(i, j).re, -a(i, j).im)
  {
  }

  lemma {:induction false} TimesOfUnits()
    ensures var p, m := Cx(0.0, 1.0), Cx(0.0, -1.0);
            && Times(p, m) == ONE && Times(m, p) == ONE && Times(p, p) == Cx(-1.0, 0.0) && Times(m, m) == Cx(-1.0, 0.0)
            && Times(ZERO, ZERO) == ZERO && Times(ZERO, p) == ZERO && Times(ZERO, m) == ZERO
            && Times(p, ZERO) == ZERO && Times(m, ZERO) == ZERO
  {
    hide Times;
    TimesImaginary(1.0, 1.0);
    TimesImaginary(1.0, -1.0);
    TimesImaginary(-1.0, 1.0);
    TimesImaginary(-1.0, -1.0);
    TimesZero(Cx(0.0, 1.0));
    TimesZero(Cx(0.0, -1.0));
    TimesZero(ZERO);
  }

  lemma {:induction false} TimesImaginary(s: real, t: real)
    ensures Times(Cx(0.0, s), Cx(0.0, t)) == Cx(-(s * t), 0.0)
  {
  }

  /** The matrix of Y is unitary and hermitian, and yet the test rejects it. */
  lemma {:induction false} PauliYIsRejected()
    ensures Unitary(PauliY(), 2) && Hermitian(PauliY(), 2)
    ensures !Near(Tested(PauliY(), 2), Identity(), 2, TOLERANCE)
  {
    hide PauliY, Dot;
    var y := PauliY();
    forall i: nat, j: nat | i < 2 && j < 2
      ensures y(i, j) == Adjoint(y)(i, j) && Product(y, Adjoint(y), 2)(i, j) == Identity()(i, j)
      ensures Product(Adjoint(y), y, 2)(i, j) == Identity()(i, j)
    {
      forall a: nat, b: nat | a < 2 && b < 2 ensures Adjoint(y)(a, b) == y(a, b) {
        PauliEntry(a, b);
      }
      SameDots(y, Adjoint(y), y, y, i, j, 2);
      SameDots(Adjoint(y), y, y, y, i, j, 2);
      PauliEntry(i, j);
    }
    PauliEntry(0, 0);
    assert !Close(Tested(y, 2)(0, 0), Identity()(0, 0), TOLERANCE);
  }

  // ----- Accepted matrices, at any tolerance -----

  ghost predicate Bounded(u: Matrix, n: nat, bound: real) {
    forall i: nat, j: nat | i < n && j < n :: Small(u(i, j), bound)
  }

  lemma {:induction false} BoundedAt(u: Matrix, n: nat, bound: real, i: nat, j: nat)
    requires Bounded(u, n, bound) && i < n && j < n
    ensures Small(u(i, j), bound) && Small(Adjoint(u)(j, i), bound) && Small(Conjugated(u)(i, j), bound)
  {
  }

  lemma {:induction false} CloseSteps(a: Cx, b: Cx, c: Cx, s: real, t: real)
    requires Close(a, b, s) && Close(b, c, t)
    ensures Close(a, c, s + t) && Close(c, a, s + t)
  {
  }

  /** A matrix that passes and is symmetric up to d is almost unitary. */
  lemma {:induction false} AcceptedSymmetricIsAlmostUnitary(u: Matrix, n: nat, tol: real, d: real, bound: real)
    requires Near(Tested(u, n), Identity(), n, tol) && Near(u, Transposed(u), n, d) && Bounded(u, n, bound)
    ensures Near(Product(Adjoint(u), u, n), Identity(), n, Slack(n, bound * d) + tol)
  {
    hide *;
    forall i: nat, j: nat | i < n && j < n
      ensures Close(Product(Adjoint(u), u, n)(i, j), Identity()(i, j), Slack(n, bound * d) + tol)
    {
      AcceptedEntry(u, n, tol, d, bound, i, j);
    }
    NearIfClose(Product(Adjoint(u), u, n), Identity(), n, Slack(n, bound * d) + tol);
  }

  lemma {:induction false} NearIfClose(a: Matrix, b: Matrix, n: nat, tol: real)
    requires forall i: nat, j: nat | i < n && j < n :: Close(a(i, j), b(i, j), tol)
    ensures Near(a, b, n, tol)
  {
    hide Close;
  }

  lemma {:induction false} AcceptedEntry(u: Matrix, n: nat, tol: real, d: real, bound: real, i: nat, j: nat)
    requires Near(Tested(u, n), Identity(), n, tol) && Near(u, Transposed(u), n, d) && Bounded(u, n, bound)
    requires i < n && j < n
    ensures Close(Product(Adjoint(u), u, n)(i, j), Identity()(i, j), Slack(n, bound * d) + tol)
  {
    hide Dot, Times, Bounded, Near, Close, Adjoint, Conjugated, Small, Slack;
    forall l: nat | l < n ensures Small(u(l, j), bound) && Close(Adjoint(u)(i, l), Conjugated(u)(i, l), d) {
      BoundedAt(u, n, bound, l, j);
      AdjointIsClose(u, n, d, i, l);
    }
    CloseRows(Adjoint(u), Conjugated(u), u, i, j, n, bound, d);
    ConjugatedIsClose(u, n, tol, i, j);
    CloseSteps(Product(Adjoint(u), u, n)(i, j), Dot(Conjugated(u), u, i, j, n), Identity()(i, j),
               Slack(n, bound * d), tol);
  }

  lemma {:induction false} AdjointIsClose(u: Matrix, n: nat, d: real, i: nat, l: nat)
    requires Near(u, Transposed(u), n, d) && i < n && l < n
    ensures Close(Adjoint(u)(i, l), Conjugated(u)(i, l), d)
  {
    hide Near, Close;
    NearAt(u, Transposed(u), n, d, l, i);
    ConjugatesClose(u(l, i), Transposed(u)(l, i), d);
  }

  lemma {:induction false} ConjugatedIsClose(u: Matrix, n: nat, tol: real, i: nat, j: nat)
    requires Near(Tested(u, n), Identity(), n, tol) && i < n && j < n
    ensures Close(Dot(Conjugated(u), u, i, j, n), Identity()(i, j), tol)
  {
    hide Near, Close, Dot;
    NearAt(Tested(u, n), Identity(), n, tol, i, j);
    ConjugatesClose(Tested(u, n)(i, j), Identity()(i, j), tol);
    ConjugatedDot(u, i, j, n);
  }

  /** And a matrix that passes and is unitary up to d is almost symmetric. */
  lemma {:induction false} AcceptedUnitaryIsAlmostSymmetric(u: Matrix, n: nat, tol: real, d: real, bound: real)
    requires Near(Tested(u, n), Identity(), n, tol) && Near(Product(Adjoint(u), u, n), Identity(), n, d)
    requires Bounded(u, n, bound)
    ensures Near(u, Transposed(u), n, Slack(n, bound * d) + Slack(n, bound * tol))
  {
    hide Dot, Times, Bounded;
    forall i: nat, j: nat | i < n && j < n
      ensures Close(u(i, j), Transposed(u)(i, j), Slack(n, bound * d) + Slack(n, bound * tol))
    {
      hide Near, Close;
      var w, c := Adjoint(u), Conjugated(u);
      forall l: nat | l < n
        ensures Small(c(l, j), bound) && Close(Product(w, u, n)(i, l), Identity()(i, l), d)
        ensures Small(w(i, l), bound) && Close(Tested(u, n)(l, j), Identity()(l, j), tol)
      {
        BoundedAt(u, n, bound, l, j);
        BoundedAt(u, n, bound, l, i);
        NearAt(Product(w, u, n), Identity(), n, d, i, l);
        NearAt(Tested(u, n), Identity(), n, tol, l, j);
      }
      CloseRows(Product(w, u, n), Identity(), c, i, j, n, bound, d);
      CloseDots(w, Tested(u, n), Identity(), i, j, n, bound, tol);
      ProductAssociates(w, u, c, i, j, n, n);
      DotIdentity(c, i, j, n);
      DotIdentity(w, i, j, n);
      BothWays(c(i, j), Dot(w, Tested(u, n), i, j, n), Slack(n, bound * d));
      CloseSteps(c(i, j), Dot(w, Tested(u, n), i, j, n), w(i, j), Slack(n, bound * d), Slack(n, bound * tol));
      ConjugatesClose(u(i, j), Transposed(u)(i, j), Slack(n, bound * d) + Slack(n, bound * tol));
    }
  }

  lemma {:induction false} BothWays(a: Cx, b: Cx, tol: real)
    ensures Close(a, b, tol) <==> Close(b, a, tol)
  {
  }

  // ----- A shear -----

  function Shear(): Matrix {
    (i: nat, j: nat) => if i == 1 && j == 0 then ZERO else if i == 1 && j == 1 then Cx(-1.0, 0.0) else ONE
  }

  lemma {:induction false} ShearEntry(i: nat, j: nat)
    requires i < 2 && j < 2
    ensures Product(Shear(), Conjugated(Shear()), 2)(i, j) == Identity()(i, j)
    ensures Product(Shear(), Adjoint(Shear()), 2)(0, 0) == Cx(2.0, 0.0)
  {
    hide Dot, Times, Shear, Conjugated, Adjoint;
    var s := Shear();
    ShearValues();
    RealUnits();
    DotOfTwo(s, Conjugated(s), i, j);
    DotOfTwo(s, Adjoint(s), 0, 0);
  }

  lemma {:induction false} ShearValues()
    ensures var s := Shear();
            && s(0, 0) == s(0, 1) == ONE && s(1, 0) == ZERO && s(1, 1) == Cx(-1.0, 0.0)
            && Conjugated(s)(0, 0) == Conjugated(s)(0, 1) == ONE
            && Conjugated(s)(1, 0) == ZERO && Conjugated(s)(1, 1) == Cx(-1.0, 0.0)
            && Adjoint(s)(0, 0) == Adjoint(s)(1, 0) == ONE
  {
    hide Conjugated;
    var s := Shear();
    ConjugatedAt(s, 0, 0);
    ConjugatedAt(s, 0, 1);
    ConjugatedAt(s, 1, 0);
    ConjugatedAt(s, 1, 1);
  }

  lemma {:induction false} RealUnits()
    ensures var m := Cx(-1.0, 0.0);
            && Times(ONE, ONE) == ONE && Times(m, m) == ONE && Times(ONE, m) == m && Times(m, ONE) == m
            && Times(ZERO, ZERO) == ZERO && Times(ZERO, ONE) == ZERO && Times(ZERO, m) == ZERO
            && Times(ONE, ZERO) == ZERO && Times(m, ZERO) == ZERO
  {
    hide Times;
    TimesZero(ONE);
    TimesZero(ZERO);
    TimesZero(Cx(-1.0, 0.0));
    TimesReal(-1.0, -1.0);
  }

  lemma {:induction false} TimesReal(s: real, t: real)
    ensures Times(Cx(s, 0.0), Cx(t, 0.0)) == Cx(s * t, 0.0)
  {
  }

  /** Real and its own inverse, so the test accepts it, and yet it is not unitary. */
  lemma {:induction false} ShearIsAccepted()
    ensures Near(Tested(Shear(), 2), Identity(), 2, TOLERANCE)
    ensures !Unitary(Shear(), 2)
  {
    hide Dot, Shear;
    forall i: nat, j: nat | i < 2 && j < 2 ensures Close(Tested(Shear(), 2)(i, j), Identity()(i, j), TOLERANCE) {
      ShearEntry(i, j);
    }
    ShearEntry(0, 0);
    assert Product(Shear(), Adjoint(Shear()), 2)(0, 0) != Identity()(0, 0);
  }
}
