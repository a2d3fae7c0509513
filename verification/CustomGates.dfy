/** Validation of the matrix of a custom gate: order of the entries, whether the matrix is
    hermitian, and the test for unitarity. */
module CustomGates {
  import opened Matrices

  const TOLERANCE: real := 0.0000000001

  /** Column-major arrays are rewritten as row-major ones. */
  method ConvertOrder(re: array<real>, im: array<real>, dim: nat)
    requires re.Length == im.Length == dim * dim && re != im
    modifies re, im
    ensures Same(RowMajor(re[..], im[..], dim), Transposed(RowMajor(old(re[..]), old(im[..]), dim)), dim)
  {
    hide Flat;
    var reInCm, imInCm := re[..], im[..];
    var i := 0;
    while i < dim
      invariant 0 <= i <= dim && Converted(re[..], im[..], reInCm, imInCm, dim, i, 0)
    {
      var j := 0;
      while j < dim
        invariant 0 <= j <= dim && Converted(re[..], im[..], reInCm, imInCm, dim, i, j)
      {
        FlatInjective(dim, i, j);
        re[Flat(dim, i, j)] := reInCm[Flat(dim, j, i)];
        im[Flat(dim, i, j)] := imInCm[Flat(dim, j, i)];
        j := j + 1;
      }
      i := i + 1;
    }
  }

  /** The entries before (i, j), row by row, are transposed. */
  ghost predicate Converted(re: seq<real>, im: seq<real>, re0: seq<real>, im0: seq<real>, dim: nat, i: nat, j: nat) {
    && |re| == |im| == |re0| == |im0| == dim * dim
    && forall a: nat, b: nat | a < dim && b < dim && (a < i || (a == i && b < j)) ::
         re[Flat(dim, a, b)] == re0[Flat(dim, b, a)] && im[Flat(dim, a, b)] == im0[Flat(dim, b, a)]
  }

  /** The loops stop at the first pair of entries that differ: both indices are set to
      their last values. */
  method IsHermitian(re: array<real>, im: array<real>, dim: nat) returns (hermitian: bool)
    requires re.Length == im.Length == dim * dim
    ensures hermitian <==> Hermitian(RowMajor(re[..], im[..], dim), dim)
  {
    hide Flat;
    ghost var u := RowMajor(re[..], im[..], dim);
    hermitian := true;
    var i := 0;
    while i < dim
      invariant 0 <= i <= dim
      invariant hermitian ==> forall a: nat, b: nat | a < i && b < dim :: u(a, b) == Adjoint(u)(a, b)
      invariant !hermitian ==> !Hermitian(u, dim) && i == dim
    {
      ghost var row := i;
      var j := 0;
      while j < dim
        invariant 0 <= j <= dim && row <= i < dim
        invariant hermitian ==> forall a: nat, b: nat | b < dim && (a < i || (a == i && b < j)) ::
                  u(a, b) == Adjoint(u)(a, b)
        invariant !hermitian ==> !Hermitian(u, dim) && i == dim - 1 && j == dim
      {
        assert u(i, j) == Cx(re[Flat(dim, i, j)], im[Flat(dim, i, j)]) &&
          u(j, i) == Cx(re[Flat(dim, j, i)], im[Flat(dim, j, i)]);
        if re[Flat(dim, i, j)] != re[Flat(dim, j, i)] || im[Flat(dim, i, j)] != -im[Flat(dim, j, i)] {
          assert u(i, j) != Adjoint(u)(i, j);
          hermitian := false;
          i := dim - 1;
          j := dim - 1;
        }
        j := j + 1;
      }
      i := i + 1;
    }
  }

  /** What the unitarity test multiplies: the matrix and its conjugate, the second factor
      read without transposing. */
  function Tested(u: Matrix, dim: nat): Matrix {
    Product(u, Conjugated(u), dim)
  }

  /** One more term of an entry, in real arithmetic. */
  lemma {:induction false} NextTerm(u: Matrix, i: nat, j: nat, k: nat)
    ensures var d, e := Dot(u, Conjugated(u), i, j, k), Dot(u, Conjugated(u), i, j, k + 1);
            && -e.im == -d.im + u(i, k).re * u(k, j).im - u(i, k).im * u(k, j).re
            && e.re == d.re + u(i, k).re * u(k, j).re + u(i, k).im * u(k, j).im
  {
    assert u(i, k).re * -u(k, j).im == -(u(i, k).re * u(k, j).im);
    assert u(i, k).im * -u(k, j).im == -(u(i, k).im * u(k, j).im);
  }

  ghost predicate ImaginaryPasses(u: Matrix, dim: nat) {
    forall i: nat, j: nat | i < dim && j < dim :: Abs(-Tested(u, dim)(i, j).im) <= TOLERANCE
  }

  ghost predicate RealPasses(u: Matrix, dim: nat) {
    forall i: nat, j: nat | i < dim && j < dim :: Abs(Tested(u, dim)(i, j).re - Identity()(i, j).re) <= TOLERANCE
  }

  /** The sums of the first pass, which stop at the first one that is not small. */
  method ImaginaryPass(re: array<real>, im: array<real>, dim: nat) returns (ok: bool)
    requires re.Length == im.Length == dim * dim
    ensures ok <==> ImaginaryPasses(RowMajor(re[..], im[..], dim), dim)
  {
    hide Flat, Dot, Abs;
    ghost var u := RowMajor(re[..], im[..], dim);
    ok := true;
    var temp := new real[dim * dim](_ => 0.0);
    var i := 0;
    while i < dim
      invariant 0 <= i <= dim
      invariant ok ==> forall a: nat, b: nat | a < i && b < dim :: Abs(-Tested(u, dim)(a, b).im) <= TOLERANCE
      invariant ok ==> forall a: nat, b: nat | i <= a < dim && b < dim :: temp[Flat(dim, a, b)] == 0.0
      invariant !ok ==> !ImaginaryPasses(u, dim) && i == dim
    {
      ghost var row := i;
      var j := 0;
      while j < dim
        invariant 0 <= j <= dim && row <= i < dim
        invariant ok ==>
                    forall a: nat, b: nat | b < dim && (a < i || (a == i && b < j)) ::
                      Abs(-Tested(u, dim)(a, b).im) <= TOLERANCE
        invariant ok ==>
                    forall a: nat, b: nat | a < dim && b < dim && (i < a || (a == i && j <= b)) ::
                      temp[Flat(dim, a, b)] == 0.0
        invariant !ok ==> !ImaginaryPasses(u, dim) && i == dim - 1 && j == dim
      {
        FlatInjective(dim, i, j);
        Accumulate(temp, re, im, dim, i, j);
        if Abs(temp[Flat(dim, i, j)]) > TOLERANCE {
          ok := false;
          i := dim - 1;
          j := dim - 1;
        }
        j := j + 1;
      }
      i := i + 1;
    }
  }

  /** Re[U].Im[U] - Im[U].Re[U] at (i, j). */
  method Accumulate(temp: array<real>, re: array<real>, im: array<real>, dim: nat, i: nat, j: nat)
    requires re.Length == im.Length == temp.Length == dim * dim && i < dim && j < dim && temp != re && temp != im
    requires temp[Flat(dim, i, j)] == 0.0
    modifies temp
    ensures temp[..] == old(temp[..])[Flat(dim, i, j) := -Tested(RowMajor(re[..], im[..], dim), dim)(i, j).im]
  {
    hide Flat, Dot;
    ghost var u := RowMajor(re[..], im[..], dim);
    NoTerms(u, i, j);
    var k := 0;
    while k < dim
      invariant 0 <= k <= dim
      invariant forall q | 0 <= q < temp.Length && q != Flat(dim, i, j) :: temp[q] == old(temp[q])
      invariant temp[Flat(dim, i, j)] == -Dot(u, Conjugated(u), i, j, k).im
    {
      NextTerm(u, i, j, k);
      assert u(i, k) == Cx(re[Flat(dim, i, k)], im[Flat(dim, i, k)]) &&
        u(k, j) == Cx(re[Flat(dim, k, j)], im[Flat(dim, k, j)]);
      temp[Flat(dim, i, j)] := temp[Flat(dim, i, j)] + re[Flat(dim, i, k)] * im[Flat(dim, k, j)];
      temp[Flat(dim, i, j)] := temp[Flat(dim, i, j)] - im[Flat(dim, i, k)] * re[Flat(dim, k, j)];
      k := k + 1;
    }
  }

  lemma {:induction false} NoTerms(u: Matrix, i: nat, j: nat)
    ensures Dot(u, Conjugated(u), i, j, 0) == ZERO
  {
  }

  /** The sums of the second pass. */
  method RealPass(re: array<real>, im: array<real>, dim: nat) returns (ok: bool)
    requires re.Length == im.Length == dim * dim
    ensures ok <==> RealPasses(RowMajor(re[..], im[..], dim), dim)
  {
    hide Flat, Dot, Abs;
    ghost var u := RowMajor(re[..], im[..], dim);
    ok := true;
    var temp := new real[dim * dim](_ => 0.0);
    var i := 0;
    while i < dim
      invariant 0 <= i <= dim
      invariant ok ==>
                  forall a: nat, b: nat | a < i && b < dim ::
                    Abs(Tested(u, dim)(a, b).re - Identity()(a, b).re) <= TOLERANCE
      invariant ok ==> forall a: nat, b: nat | i <= a < dim && b < dim :: temp[Flat(dim, a, b)] == 0.0
      invariant !ok ==> !RealPasses(u, dim) && i == dim
    {
      ghost var row := i;
      var j := 0;
      while j < dim
        invariant 0 <= j <= dim && row <= i < dim
        invariant ok ==>
                    forall a: nat, b: nat | b < dim && (a < i || (a == i && b < j)) ::
                      Abs(Tested(u, dim)(a, b).re - Identity()(a, b).re) <= TOLERANCE
        invariant ok ==>
                    forall a: nat, b: nat | a < dim && b < dim && (i < a || (a == i && j <= b)) ::
                      temp[Flat(dim, a, b)] == 0.0
        invariant !ok ==> !RealPasses(u, dim) && i == dim - 1 && j == dim
      {
        FlatInjective(dim, i, j);
        AccumulateReal(temp, re, im, dim, i, j);
        if (i == j && Abs(temp[Flat(dim, i, j)] - 1.0) > TOLERANCE) ||
          (i != j && Abs(temp[Flat(dim, i, j)]) > TOLERANCE) {
          assert !(Abs(Tested(u, dim)(i, j).re - Identity()(i, j).re) <= TOLERANCE) by {
            assert i != j ==> temp[Flat(dim, i, j)] - 0.0 == temp[Flat(dim, i, j)];
          }
          ok := false;
          i := dim - 1;
          j := dim - 1;
        }
        j := j + 1;
      }
      i := i + 1;
    }
  }

  /** Re[U].Re[U] + Im[U].Im[U] at (i, j). */
  method AccumulateReal(temp: array<real>, re: array<real>, im: array<real>, dim: nat, i: nat, j: nat)
    requires re.Length == im.Length == temp.Length == dim * dim && i < dim && j < dim && temp != re && temp != im
    requires temp[Flat(dim, i, j)] == 0.0
    modifies temp
    ensures temp[..] == old(temp[..])[Flat(dim, i, j) := Tested(RowMajor(re[..], im[..], dim), dim)(i, j).re]
  {
    hide Flat, Dot;
    ghost var u := RowMajor(re[..], im[..], dim);
    NoTerms(u, i, j);
    var k := 0;
    while k < dim
      invariant 0 <= k <= dim
      invariant forall q | 0 <= q < temp.Length && q != Flat(dim, i, j) :: temp[q] == old(temp[q])
      invariant temp[Flat(dim, i, j)] == Dot(u, Conjugated(u), i, j, k).re
    {
      NextTerm(u, i, j, k);
      assert u(i, k) == Cx(re[Flat(dim, i, k)], im[Flat(dim, i, k)]) &&
        u(k, j) == Cx(re[Flat(dim, k, j)], im[Flat(dim, k, j)]);
      temp[Flat(dim, i, j)] := temp[Flat(dim, i, j)] + re[Flat(dim, i, k)] * re[Flat(dim, k, j)];
      temp[Flat(dim, i, j)] := temp[Flat(dim, i, j)] + im[Flat(dim, i, k)] * im[Flat(dim, k, j)];
      k := k + 1;
    }
  }

  /** The two passes together; the second is not begun if the first has failed. */
  method IsUnitary(re: array<real>, im: array<real>, dim: nat) returns (unitary: bool)
    requires re.Length == im.Length == dim * dim
    ensures var u := RowMajor(re[..], im[..], dim);
            unitary <==> Near(Tested(u, dim), Identity(), dim, TOLERANCE)
  {
    unitary := ImaginaryPass(re, im, dim);
    if unitary {
      unitary := RealPass(re, im, dim);
    }
    PassesMean(RowMajor(re[..], im[..], dim), dim);
  }

  lemma {:induction false} PassesMean(u: Matrix, dim: nat)
    ensures ImaginaryPasses(u, dim) && RealPasses(u, dim) <==> Near(Tested(u, dim), Identity(), dim, TOLERANCE)
  {
    hide Dot;
    var t, id := Tested(u, dim), Identity();
    forall i: nat, j: nat | i < dim && j < dim
      ensures Close(t(i, j), id(i, j), TOLERANCE) <==>
              Abs(-t(i, j).im) <= TOLERANCE && Abs(t(i, j).re - id(i, j).re) <= TOLERANCE
    {
      assert id(i, j).im == 0.0;
    }
    if Near(t, id, dim, TOLERANCE) {
      forall i: nat, j: nat | i < dim && j < dim
        ensures Abs(-t(i, j).im) <= TOLERANCE && Abs(t(i, j).re - id(i, j).re) <= TOLERANCE
      {
        assert Close(t(i, j), id(i, j), TOLERANCE);
      }
    }
  }
}
