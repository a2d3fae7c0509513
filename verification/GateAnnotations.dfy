/** The annotations of one custom gate, and their validation from the list of qubits to the
    test for unitarity. */
module GateAnnotations {
  import opened Options
  import opened BasisStates
  import opened Matrices
  import opened CustomGates
  import opened UnitarityTest

  /** The square root, rounded down. */
  function SquareRoot(n: nat): (r: nat)
    ensures r * r <= n < (r + 1) * (r + 1)
  {
    if n == 0 then 0
    else
      var r := SquareRoot(n - 1);
      NextSquare(r);
      if n < (r + 1) * (r + 1) then r else r + 1
  }

  lemma {:induction false} NextSquare(r: nat)
    ensures (r + 1) * (r + 1) < (r + 2) * (r + 2)
  {
  }

  lemma {:induction false} RootOfSquare(p: nat)
    ensures SquareRoot(p * p) == p
  {
    hide SquareRoot;
    var r := SquareRoot(p * p);
    SquaresApart(r, p);
    SquaresApart(p, r);
  }

  lemma {:induction false} SquaresApart(r: nat, p: nat)
    ensures r < p ==> (r + 1) * (r + 1) <= p * p
  {
    if r < p {
      assert (r + 1) * (r + 1) <= (r + 1) * p <= p * p;
    }
  }

  /** How many entries the matrix of a gate on n qubits has, and how many rows. */
  lemma {:induction false} EntryCount(n: nat)
    ensures |BasisPairs(n)| == Power(4, n) == |AllBases(n)| * |AllBases(n)|
    ensures SquareRoot(Power(4, n)) == |AllBases(n)|
  {
    hide SquareRoot, Power;
    PairCount(n);
    RootOfSquare(|AllBases(n)|);
  }

  ghost predicate Distinct(list: seq<int>) {
    forall i, j | 0 <= i < j < |list| :: list[i] != list[j]
  }

  /** Every pair is compared until one is found that is equal. */
  method NoRepetitions(list: seq<int>) returns (ok: bool)
    ensures ok <==> Distinct(list)
  {
    ok := true;
    var i := 0;
    while i < |list|
      invariant 0 <= i
      invariant ok ==> i <= |list| && forall a, b | 0 <= a < b < |list| && a < i :: list[a] != list[b]
      invariant !ok ==> !Distinct(list) && i > |list|
      decreases |list| - i
    {
      var row := i;
      var j := i + 1;
      while j < |list|
        invariant ok && i == row && row < j <= |list|
        invariant forall b | row < b < j :: list[row] != list[b]
      {
        if list[i] == list[j] {
          ok := false;
          i := |list|;
          break;
        }
        j := j + 1;
      }
      i := i + 1;
    }
  }

  class GateAnnotation {
    const qubitList: seq<int>
    var matrixReal: seq<real>
    var matrixImag: seq<real>
    var matrixOrder: Option<string>
    var isHermitian: Option<bool>
    var isUnitary: Option<bool>

    /** One amplitude for every pair of basis states of the gate's qubits. */
    ghost predicate Sized()
      reads this
    {
      |matrixReal| == |matrixImag| == |BasisPairs(|qubitList|)|
    }

    predicate OrderKnown()
      reads this
    {
      matrixOrder == None || matrixOrder == Some("rm") || matrixOrder == Some("cm")
    }

    /** The matrix as its annotations give it, the order of its entries taken into account. */
    function Meant(dim: nat): Matrix
      requires |matrixReal| == |matrixImag| == dim * dim
      reads this
    {
      var u := RowMajor(matrixReal, matrixImag, dim);
      if matrixOrder == Some("cm") then Transposed(u) else u
    }

    /** The annotations are valid as far as the qubits, the number of entries and their order
        go.  The matrix keeps its meaning and ends up in row-major form; both verdicts are
        those on the matrix that is meant, whatever was filled in before. */
    method CompleteValidation() returns (valid: bool)
      modifies this
      ensures valid <==> Distinct(qubitList) && old(Sized()) && old(OrderKnown())
      ensures !(Distinct(qubitList) && old(Sized())) ==> unchanged(this)
      ensures Distinct(qubitList) && old(Sized()) ==>
                var dim := |AllBases(|qubitList|)|;
                && |old(matrixReal)| == |old(matrixImag)| == dim * dim == |matrixReal| == |matrixImag|
                && Same(Meant(dim), old(Meant(dim)), dim)
                && Same(Meant(dim), RowMajor(matrixReal, matrixImag, dim), dim)
                && matrixOrder == (if old(matrixOrder) == Some("cm") then Some("rm") else old(matrixOrder))
                && isHermitian.Some? && (isHermitian.value <==> Hermitian(old(Meant(dim)), dim))
                && isUnitary.Some? && (isUnitary.value <==>
                                       Near(Tested(old(Meant(dim)), dim), Identity(), dim, TOLERANCE))
    {
      hide RowMajor, Tested, Same, Near, Hermitian, Power, SquareRoot, BasisPairs, AllBases, Distinct, Meant;
      EntryCount(|qubitList|);
      valid := NoRepetitions(qubitList);
      if |matrixReal| != |matrixImag| || |matrixReal| != Power(4, |qubitList|) {
        valid := false;
      }
      var dim := SquareRoot(|matrixReal|);
      if !valid {
        return;
      }
      valid := FillIn(dim);
    }

    /** The part behind the checks of size. */
    method FillIn(dim: nat) returns (known: bool)
      requires |matrixReal| == |matrixImag| == dim * dim
      modifies this
      ensures known == old(OrderKnown()) && |matrixReal| == |matrixImag| == dim * dim
      ensures Same(Meant(dim), old(Meant(dim)), dim) && Same(Meant(dim), RowMajor(matrixReal, matrixImag, dim), dim)
      ensures matrixOrder == if old(matrixOrder) == Some("cm") then Some("rm") else old(matrixOrder)
      ensures isHermitian.Some? && (isHermitian.value <==> Hermitian(old(Meant(dim)), dim))
      ensures isUnitary.Some? && (isUnitary.value <==>
                                  Near(Tested(old(Meant(dim)), dim), Identity(), dim, TOLERANCE))
    {
      hide RowMajor, Tested, Same, Near, Hermitian;
      known := true;
      var re, im := new real[|matrixReal|](i requires 0 <= i < |matrixReal| reads this => matrixReal[i]),
                    new real[|matrixImag|](i requires 0 <= i < |matrixImag| reads this => matrixImag[i]);
      assert re[..] == matrixReal && im[..] == matrixImag;
      ghost var u := Meant(dim);
      SameItself(u, dim);
      if matrixOrder == Some("cm") {
        ConvertOrder(re, im, dim);
        matrixReal, matrixImag, matrixOrder := re[..], im[..], Some("rm");
      } else if matrixOrder.Some? && matrixOrder != Some("rm") {
        known := false;
      }
      var v := RowMajor(re[..], im[..], dim);
      SameItself(v, dim);
      var hermitian := IsHermitian(re, im, dim);
      var unitary := IsUnitary(re, im, dim);
      SameVerdicts(v, u, dim);
      if isHermitian != Some(hermitian) {
        isHermitian := Some(hermitian);
      }
      if isUnitary != Some(unitary) {
        isUnitary := Some(unitary);
      }
    }
  }

  lemma {:induction false} SameItself(a: Matrix, n: nat)
    ensures Same(a, a, n)
  {
  }

  lemma {:induction false} SameVerdicts(a: Matrix, b: Matrix, n: nat)
    requires Same(a, b, n)
    ensures Hermitian(a, n) <==> Hermitian(b, n)
    ensures Near(Tested(a, n), Identity(), n, TOLERANCE) <==> Near(Tested(b, n), Identity(), n, TOLERANCE)
  {
    forall i: nat, j: nat | i < n && j < n
      ensures Adjoint(a)(i, j) == Adjoint(b)(i, j) && Tested(a, n)(i, j) == Tested(b, n)(i, j) {
      assert a(j, i) == b(j, i);
      SameDots(a, Conjugated(a), b, Conjugated(b), i, j, n);
    }
    SameIsNear(Tested(a, n), Tested(b, n), n, TOLERANCE);
    hide Tested;
    assert forall i: nat, j: nat | i < n && j < n :: a(i, j) == b(i, j);
  }
}
