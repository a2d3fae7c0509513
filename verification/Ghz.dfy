/** The GHZ sample program: loops that emit a circuit for any number of qubits, and
    the state that the circuit leaves. */
module Ghz {
  import opened Amplitudes
  import opened Circuits

  /** The first k preparations; m[i] is what qubit i is found in. */
  function PrepsUpTo(q: seq<Qubit>, m: seq<bool>, k: nat): seq<Prim>
    requires k <= |q| == |m|
  {
    if k == 0 then [] else PrepsUpTo(q, m, k - 1) + [PrepZ(q[k - 1], m[k - 1])]
  }

  /** The first k gates of the chain of CNOTs. */
  function ChainUpTo(q: seq<Qubit>, k: nat): seq<Prim>
    requires k < |q|
  {
    if k == 0 then [] else ChainUpTo(q, k - 1) + [CNot(q[k - 1], q[k])]
  }

  function GhzCircuit(q: seq<Qubit>, m: seq<bool>): seq<Prim>
    requires |q| == |m| > 0
  {
    PrepsUpTo(q, m, |q|) + [Hadamard(q[0])] + ChainUpTo(q, |q| - 1)
  }

  /** prepQubits<N> */
  method PrepQubits(q: seq<Qubit>, m: seq<bool>) returns (circuit: seq<Prim>)
    requires |q| == |m|
    ensures circuit == PrepsUpTo(q, m, |q|)
  {
    circuit := [];
    for i := 0 to |q|
      invariant circuit == PrepsUpTo(q, m, i)
    {
      circuit := circuit + [PrepZ(q[i], m[i])];
    }
  }

  /** GHZ<N>, for N >= 1 */
  method GHZ(q: seq<Qubit>, m: seq<bool>) returns (circuit: seq<Prim>)
    requires |q| == |m| > 0
    ensures circuit == GhzCircuit(q, m)
  {
    circuit := PrepQubits(q, m);
    circuit := circuit + [Hadamard(q[0])];
    ghost var start := circuit;
    for i := 0 to |q| - 1
      invariant circuit == start + ChainUpTo(q, i)
    {
      circuit := circuit + [CNot(q[i], q[i + 1])];
    }
  }

  // ----- What the circuit does -----

  ghost predicate Qubits(q: seq<Qubit>, n: nat) {
    (forall i | 0 <= i < |q| :: q[i] < n) && (forall i, j | 0 <= i < j < |q| :: q[i] != q[j])
  }

  /** `b` with the first k qubits of `q` set to `m`. */
  function Found(b: Basis, q: seq<Qubit>, m: seq<bool>, k: nat): (r: Basis)
    requires k <= |q| == |m|
    ensures |r| == |b|
  {
    if k == 0 then b else Put(Found(b, q, m, k - 1), q[k - 1], m[k - 1])
  }

  /** All of the qubits `q[lo..hi]` are 0 in `b`. */
  ghost predicate Clear(b: Basis, q: seq<Qubit>, lo: nat, hi: nat)
    requires hi <= |q|
  {
    forall i | lo <= i < hi :: !Bit(b, q[i])
  }

  /** The first k + 1 qubits of `q` have the same bit in `b`. */
  ghost predicate Equal(b: Basis, q: seq<Qubit>, k: nat)
    requires k < |q|
  {
    forall i | 0 <= i < k :: Bit(b, q[i]) == Bit(b, q[i + 1])
  }

  lemma {:induction false} FoundPut(b: Basis, q: seq<Qubit>, m: seq<bool>, k: nat, j: nat, v: bool)
    requires k <= |q| == |m| && j < |q| && Qubits(q, |b|)
    ensures j < k ==> Found(Put(b, q[j], v), q, m, k) == Found(b, q, m, k)
    ensures j >= k ==> Found(Put(b, q[j], v), q, m, k) == Put(Found(b, q, m, k), q[j], v)
    decreases k
  {
    if k > 0 {
      FoundPut(b, q, m, k - 1, j, v);
      if j == k - 1 {
        assert Put(Put(Found(b, q, m, k - 1), q[j], v), q[j], m[j]) == Put(Found(b, q, m, k - 1), q[j], m[j]);
      } else if j >= k {
        assert q[j] != q[k - 1];
      }
    }
  }

  lemma {:induction false} AfterPreps(n: nat, q: seq<Qubit>, m: seq<bool>, k: nat, s: State, b: Basis)
    requires IsState(n, s) && |b| == n && k <= |q| == |m| && Qubits(q, n)
    ensures At(Run(PrepsUpTo(q, m, k), s), b) == if Clear(b, q, 0, k) then At(s, Found(b, q, m, k)) else ZERO
    decreases k
  {
    hide Run, Found, Clear, Apply, IsState, Put;
    if k == 0 {
      NoPreps(q, m, s, b);
    } else {
      var s1 := Run(PrepsUpTo(q, m, k - 1), s);
      var p, v := q[k - 1], m[k - 1];
      RunKeepsRegister(n, PrepsUpTo(q, m, k - 1), s);
      RunSnoc(PrepsUpTo(q, m, k - 1), PrepZ(p, v), s);
      AtPrep(n, p, v, s1, b);
      AfterPreps(n, q, m, k - 1, s, Put(b, p, v));
      PrepStep(b, q, m, k, v);
    }
  }

  lemma {:induction false} NoPreps(q: seq<Qubit>, m: seq<bool>, s: State, b: Basis)
    requires |q| == |m|
    ensures Run(PrepsUpTo(q, m, 0), s) == s && Clear(b, q, 0, 0) && Found(b, q, m, 0) == b
  {
  }

  lemma {:induction false} PrepStep(b: Basis, q: seq<Qubit>, m: seq<bool>, k: nat, v: bool)
    requires 0 < k <= |q| == |m| && Qubits(q, |b|) && v == m[k - 1]
    ensures Found(Put(b, q[k - 1], v), q, m, k - 1) == Found(b, q, m, k)
    ensures Clear(b, q, 0, k) == (!b[q[k - 1]] && Clear(Put(b, q[k - 1], v), q, 0, k - 1))
  {
    FoundPut(b, q, m, k - 1, k - 1, v);
    var c := Put(b, q[k - 1], v);
    forall i | 0 <= i < k - 1 ensures Bit(c, q[i]) == Bit(b, q[i]) {
    }
    assert Clear(b, q, 0, k) ==> Clear(c, q, 0, k - 1);
  }

  lemma {:induction false} AfterSplit(n: nat, q: seq<Qubit>, m: seq<bool>, s: State, b: Basis)
    requires IsState(n, s) && |b| == n && |q| == |m| > 0 && Qubits(q, n)
    ensures At(Run(PrepsUpTo(q, m, |q|) + [Hadamard(q[0])], s), b) ==
            if Clear(b, q, 1, |q|) then Halve(At(s, Found(b, q, m, |q|))) else ZERO
  {
    hide Run, Found, Clear, Superpose, Halve;
    var ps, k := PrepsUpTo(q, m, |q|), |q|;
    var b0, b1 := Put(b, q[0], false), Put(b, q[0], true);
    RunKeepsRegister(n, ps, s);
    RunSnoc(ps, Hadamard(q[0]), s);
    AtHadamard(n, q[0], Run(ps, s), b);
    AfterPreps(n, q, m, k, s, b0);
    AfterPreps(n, q, m, k, s, b1);
    FoundPut(b, q, m, k, 0, false);
    SplitStep(b, q);
    SuperposeZero(b[q[0]], At(s, Found(b, q, m, k)));
    SuperposeZero(b[q[0]], ZERO);
    ZeroIsFixed();
  }

  lemma {:induction false} SplitStep(b: Basis, q: seq<Qubit>)
    requires |q| > 0 && Qubits(q, |b|)
    ensures Clear(Put(b, q[0], false), q, 0, |q|) == Clear(b, q, 1, |q|)
    ensures !Clear(Put(b, q[0], true), q, 0, |q|)
  {
    var c := Put(b, q[0], false);
    forall i | 1 <= i < |q| ensures Bit(c, q[i]) == Bit(b, q[i]) {
    }
    assert Bit(Put(b, q[0], true), q[0]);
    if Clear(c, q, 0, |q|) {
      assert Clear(b, q, 1, |q|);
    }
  }

  /** The loop invariant of the chain, on one amplitude. */
  lemma {:induction false} AfterChain(n: nat, q: seq<Qubit>, m: seq<bool>, k: nat, s: State, b: Basis)
    requires IsState(n, s) && |b| == n && k < |q| == |m| && Qubits(q, n)
    ensures At(Run(PrepsUpTo(q, m, |q|) + [Hadamard(q[0])] + ChainUpTo(q, k), s), b) ==
            if Equal(b, q, k) && Clear(b, q, k + 1, |q|) then Halve(At(s, Found(b, q, m, |q|))) else ZERO
    decreases k
  {
    hide Run, Found, Clear, Halve, PrepsUpTo, Apply, IsState;
    var start := PrepsUpTo(q, m, |q|) + [Hadamard(q[0])];
    if k == 0 {
      assert start + ChainUpTo(q, 0) == start;
      AfterSplit(n, q, m, s, b);
    } else {
      var ps := start + ChainUpTo(q, k - 1);
      assert start + ChainUpTo(q, k) == ps + [CNot(q[k - 1], q[k])];
      RunKeepsRegister(n, ps, s);
      RunSnoc(ps, CNot(q[k - 1], q[k]), s);
      AtCNot(n, q[k - 1], q[k], Run(ps, s), b);
      var c := if b[q[k - 1]] then Flip(b, q[k]) else b;
      AfterChain(n, q, m, k - 1, s, c);
      ChainStep(b, q, k);
      FoundPut(b, q, m, |q|, k, !Bit(b, q[k]));
    }
  }

  lemma {:induction false} ChainStep(b: Basis, q: seq<Qubit>, k: nat)
    requires 0 < k < |q| && Qubits(q, |b|)
    ensures var c := if b[q[k - 1]] then Flip(b, q[k]) else b;
            (Equal(b, q, k) && Clear(b, q, k + 1, |q|)) == (Equal(c, q, k - 1) && Clear(c, q, k, |q|))
  {
    var c := if b[q[k - 1]] then Flip(b, q[k]) else b;
    forall i | 0 <= i < |q| && i != k ensures Bit(c, q[i]) == Bit(b, q[i]) {
    }
    assert Bit(c, q[k]) == (Bit(b, q[k]) != Bit(b, q[k - 1]));
    if Equal(b, q, k) && Clear(b, q, k + 1, |q|) {
      assert Equal(c, q, k - 1) && Clear(c, q, k, |q|);
    }
    if Equal(c, q, k - 1) && Clear(c, q, k, |q|) {
      assert Bit(b, q[k]) == Bit(b, q[k - 1]);
      assert Equal(b, q, k) && Clear(b, q, k + 1, |q|);
    }
  }

  /** For every N >= 1 and every start state: the amplitude that the qubits carried when
      they were prepared, over sqrt 2, where they are all equal, and nothing elsewhere. */
  lemma {:induction false} GhzState(n: nat, q: seq<Qubit>, m: seq<bool>, s: State, b: Basis)
    requires IsState(n, s) && |b| == n && |q| == |m| > 0 && Qubits(q, n)
    ensures At(Run(GhzCircuit(q, m), s), b) ==
            if Equal(b, q, |q| - 1) then Halve(At(s, Found(b, q, m, |q|))) else ZERO
  {
    hide Run, Found, PrepsUpTo, ChainUpTo, Halve;
    AfterChain(n, q, m, |q| - 1, s, b);
    assert Clear(b, q, |q|, |q|);
  }

  /** On a register of exactly these qubits: equal amplitudes on all zeros and all ones,
      zero elsewhere. */
  lemma {:induction false} GhzRegister(n: nat, m: seq<bool>, s: State, b: Basis)
    requires IsState(n, s) && |b| == n == |m| > 0
    ensures var q := seq(n, i => i);
            At(Run(GhzCircuit(q, m), s), b) ==
            if b == seq(n, _ => false) || b == seq(n, _ => true) then Halve(At(s, m)) else ZERO
  {
    hide Run, GhzCircuit, Halve;
    var q: seq<Qubit> := seq(n, i => i);
    GhzState(n, q, m, s, b);
    FoundAll(b, q, m, n);
    assert Found(b, q, m, n) == m;
    EqualIsConstant(b, q, n);
  }

  lemma {:induction false} FoundAll(b: Basis, q: seq<Qubit>, m: seq<bool>, k: nat)
    requires k <= |q| == |m| == |b| && forall i | 0 <= i < |q| :: q[i] == i
    ensures forall i | 0 <= i < k :: Found(b, q, m, k)[i] == m[i]
  {
    if k > 0 {
      FoundAll(b, q, m, k - 1);
    }
  }

  lemma {:induction false} EqualIsConstant(b: Basis, q: seq<Qubit>, n: nat)
    requires |b| == n == |q| > 0 && forall i | 0 <= i < n :: q[i] == i
    ensures Equal(b, q, n - 1) == (b == seq(n, _ => false) || b == seq(n, _ => true))
  {
    if Equal(b, q, n - 1) {
      AllAlike(b, q, n - 1);
      assert b == seq(n, _ => b[0]);
    }
  }

  lemma {:induction false} AllAlike(b: Basis, q: seq<Qubit>, k: nat)
    requires k < |b| == |q| && Equal(b, q, k) && forall i | 0 <= i < |q| :: q[i] == i
    ensures forall i | 0 <= i <= k :: b[i] == b[0]
  {
    if k > 0 {
      AllAlike(b, q, k - 1);
      assert Bit(b, q[k - 1]) == Bit(b, q[k - 1 + 1]);
    }
  }
}
