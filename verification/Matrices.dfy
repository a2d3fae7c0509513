/** Square matrices of complex numbers, and the flat arrays that hold them. */
module Matrices {
  datatype Cx = Cx(re: real, im: real)

  const ZERO := Cx(0.0, 0.0)
  const ONE := Cx(1.0, 0.0)

  function Plus(a: Cx, b: Cx): Cx {
    Cx(a.re + b.re, a.im + b.im)
  }

  function Minus(a: Cx, b: Cx): Cx {
    Cx(a.re - b.re, a.im - b.im)
  }

  function Times(a: Cx, b: Cx): Cx {
    Cx(a.re * b.re - a.im * b.im, a.re * b.im + a.im * b.re)
  }

  function Conj(a: Cx): Cx {
    Cx(a.re, -a.im)
  }

  type Matrix = (nat, nat) -> Cx

  function Identity(): Matrix {
    (i: nat, j: nat) => if i == j then ONE else ZERO
  }

  function Transposed(a: Matrix): Matrix {
    (i: nat, j: nat) => a(j, i)
  }

  /** Entry by entry, without transposing. */
  function Conjugated(a: Matrix): Matrix {
    (i: nat, j: nat) => Conj(a(i, j))
  }

  function Adjoint(a: Matrix): Matrix {
    (i: nat, j: nat) => Conj(a(j, i))
  }

  /** The first `k` terms of an entry of the product. */
  function Dot(a: Matrix, b: Matrix, i: nat, j: nat, k: nat): Cx {
    if k == 0 then ZERO else Plus(Dot(a, b, i, j, k - 1), Times(a(i, k - 1), b(k - 1, j)))
  }

  function Product(a: Matrix, b: Matrix, n: nat): Matrix {
    (i: nat, j: nat) => Dot(a, b, i, j, n)
  }

  ghost predicate Same(a: Matrix, b: Matrix, n: nat) {
    forall i, j | 0 <= i < n && 0 <= j < n :: a(i, j) == b(i, j)
  }

  function Abs(x: real): real {
    if x < 0.0 then -x else x
  }

  predicate Close(a: Cx, b: Cx, tol: real) {
    Abs(a.re - b.re) <= tol && Abs(a.im - b.im) <= tol
  }

  /** Entrywise, real and imaginary parts apart. */
  ghost predicate Near(a: Matrix, b: Matrix, n: nat, tol: real) {
    forall i, j | 0 <= i < n && 0 <= j < n :: Close(a(i, j), b(i, j), tol)
  }

  ghost predicate Hermitian(a: Matrix, n: nat) {
    Same(a, Adjoint(a), n)
  }

  ghost predicate Symmetric(a: Matrix, n: nat) {
    Same(a, Transposed(a), n)
  }

  ghost predicate Unitary(a: Matrix, n: nat) {
    Same(Product(a, Adjoint(a), n), Identity(), n) && Same(Product(Adjoint(a), a, n), Identity(), n)
  }

  // ----- Flat arrays -----

  function Flat(dim: nat, i: nat, j: nat): (r: nat)
    ensures i < dim && j < dim ==> r < dim * dim
  {
    FlatBelow(dim, i, j);
    i * dim + j
  }

  lemma {:induction false} FlatBelow(dim: nat, i: nat, j: nat)
    ensures i < dim && j < dim ==> i * dim + j < dim * dim
  {
    if i < dim {
      assert i * dim + dim == (i + 1) * dim <= dim * dim;
    }
  }

  lemma {:induction false} FlatIsIndex(dim: nat, i: nat, j: nat, a: nat, b: nat)
    requires j < dim && b < dim && Flat(dim, i, j) == Flat(dim, a, b)
    ensures i == a && j == b
  {
    RowsApart(dim, i, a);
    RowsApart(dim, a, i);
  }

  lemma {:induction false} RowsApart(dim: nat, i: nat, a: nat)
    ensures i < a ==> i * dim + dim <= a * dim
  {
    if i < a {
      assert (i + 1) * dim <= a * dim;
    }
  }

  /** No other index pair has this place. */
  lemma {:induction false} FlatInjective(dim: nat, i: nat, j: nat)
    requires i < dim && j < dim
    ensures forall a: nat, b: nat | a < dim && b < dim && Flat(dim, a, b) == Flat(dim, i, j) :: a == i && b == j
  {
    forall a: nat, b: nat | a < dim && b < dim && Flat(dim, a, b) == Flat(dim, i, j) ensures a == i && b == j {
      FlatIsIndex(dim, a, b, i, j);
    }
  }

  /** The matrix whose rows follow one another in the two arrays. */
  function RowMajor(re: seq<real>, im: seq<real>, dim: nat): Matrix
    requires |re| == |im| == dim * dim
  {
    (i: nat, j: nat) => if i < dim && j < dim then Cx(re[Flat(dim, i, j)], im[Flat(dim, i, j)]) else ZERO
  }
}
