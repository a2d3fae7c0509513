/** State-vector semantics of quantum circuits on any number of qubits.

    Every instruction is a 2x2 matrix on one qubit, applied where all of its
    control qubits are 1.  The semantics is read backwards: `Pull` says what the
    amplitude of a basis state is after the instruction, in terms of the
    amplitudes before it. */
module Circuits {
  import opened Amplitudes

  type Qubit = nat
  /** A computational basis state: one bit per qubit. */
  type Basis = seq<bool>
  /** Amplitudes of the basis states; two states are equal when all entries are. */
  type State = map<Basis, Amp>

  datatype Mat2 = Mat2(m00: Coef, m01: Coef, m10: Coef, m11: Coef)
  datatype Prim = Prim(ctrls: seq<Qubit>, target: Qubit, m: Mat2)

  const MAT_H := Mat2(RootHalf, RootHalf, RootHalf, MinusRootHalf)
  const MAT_X := Mat2(Zero, One, One, Zero)
  const MAT_Z := Mat2(One, Zero, Zero, MinusOne)
  const MAT_T := Mat2(One, Zero, Zero, Omega)
  const MAT_TDAG := Mat2(One, Zero, Zero, OmegaInv)

  /** Preparation of |0> when the qubit is found in `m`: that branch is moved to |0>. */
  function MatPrep(m: bool): Mat2 {
    if m then Mat2(Zero, One, Zero, Zero) else Mat2(One, Zero, Zero, Zero)
  }

  /** Measurement with outcome `x`: the projection onto |x>. */
  function MatMeas(x: bool): Mat2 {
    if x then Mat2(Zero, Zero, Zero, One) else Mat2(One, Zero, Zero, Zero)
  }

  /** The amplitudes of a register of exactly `n` qubits. */
  ghost predicate IsState(n: nat, s: State) {
    forall b: Basis :: b in s <==> |b| == n
  }

  function Bit(b: Basis, q: Qubit): bool {
    q < |b| && b[q]
  }

  function Put(b: Basis, q: Qubit, v: bool): (r: Basis)
    ensures |r| == |b|
  {
    if q < |b| then b[q := v] else b
  }

  function Flip(b: Basis, q: Qubit): (r: Basis)
    ensures |r| == |b|
  {
    Put(b, q, !Bit(b, q))
  }

  predicate AllSet(b: Basis, qs: seq<Qubit>) {
    forall q | q in qs :: Bit(b, q)
  }

  function At(s: State, b: Basis): Amp {
    if b in s then s[b] else ZERO
  }

  /** The entry in row `v` of a 2x2 matrix times the amplitudes of |0> and |1>. */
  function Act(m: Mat2, v: bool, a0: Amp, a1: Amp): Amp {
    if v then Add(Scale(m.m10, a0), Scale(m.m11, a1)) else Add(Scale(m.m00, a0), Scale(m.m01, a1))
  }

  function Pull(p: Prim, s: State, b: Basis): Amp {
    if AllSet(b, p.ctrls) then
      Act(p.m, Bit(b, p.target), At(s, Put(b, p.target, false)), At(s, Put(b, p.target, true)))
    else At(s, b)
  }

  function Apply(p: Prim, s: State): State {
    map b | b in s :: Pull(p, s, b)
  }

  /** Runs the instructions in time order, first one first. */
  function Run(ps: seq<Prim>, s: State): State {
    if ps == [] then s else Run(ps[1..], Apply(ps[0], s))
  }

  lemma {:induction false} RunKeepsRegister(n: nat, ps: seq<Prim>, s: State)
    requires IsState(n, s)
    ensures IsState(n, Run(ps, s))
    decreases |ps|
  {
    if ps != [] {
      RunKeepsRegister(n, ps[1..], Apply(ps[0], s));
    }
  }

  lemma {:induction false} RunAppend(ps: seq<Prim>, qs: seq<Prim>, s: State)
    ensures Run(ps + qs, s) == Run(qs, Run(ps, s))
    decreases |ps|
  {
    if ps == [] {
      assert ps + qs == qs;
    } else {
      assert (ps + qs)[0] == ps[0] && (ps + qs)[1..] == ps[1..] + qs;
      RunAppend(ps[1..], qs, Apply(ps[0], s));
    }
  }

  /** Two states of one register are equal when every entry is. */
  lemma {:induction false} SameState(n: nat, s: State, t: State)
    requires IsState(n, s) && IsState(n, t)
    requires forall b: Basis | |b| == n :: At(s, b) == At(t, b)
    ensures s == t
  {
    assert s.Keys == t.Keys;
    forall b | b in s ensures s[b] == t[b] {
      assert At(s, b) == At(t, b);
    }
  }

  lemma {:induction false} AtApply(n: nat, p: Prim, s: State, b: Basis)
    requires IsState(n, s) && |b| == n
    ensures At(Apply(p, s), b) == Pull(p, s, b)
  {
    hide Pull;
  }

  lemma {:induction false} ApplyKeeps(n: nat, p: Prim, s: State)
    requires IsState(n, s)
    ensures IsState(n, Apply(p, s))
  {
  }

  // ----- The instructions of the Clifford+T gate set -----

  lemma {:induction false} ActX(v: bool, a0: Amp, a1: Amp)
    ensures Act(MAT_X, v, a0, a1) == if v then a0 else a1
  {
  }

  /** The Hadamard row: (a0 + a1)/sqrt 2 for |0> and (a0 - a1)/sqrt 2 for |1>. */
  function Superpose(v: bool, a0: Amp, a1: Amp): Amp {
    Add(Halve(a0), if v then Neg(Halve(a1)) else Halve(a1))
  }

  lemma {:induction false} ActH(v: bool, a0: Amp, a1: Amp)
    ensures Act(MAT_H, v, a0, a1) == Superpose(v, a0, a1)
  {
  }

  lemma {:induction false} ActDiagonal(m: Mat2, v: bool, a0: Amp, a1: Amp)
    requires m == MAT_T || m == MAT_TDAG || m == MAT_Z
    ensures Act(m, v, a0, a1) == if v then Phase(PhaseOf(m.m11), a1) else a0
  {
    PhaseFour(a1);
    PhaseStep(0, a1);
    PhaseStep(-1, a1);
  }

  lemma {:induction false} HadamardTwice(v: bool, a0: Amp, a1: Amp)
    ensures Superpose(v, Superpose(false, a0, a1), Superpose(true, a0, a1)) == if v then a1 else a0
    ensures Superpose(v, Superpose(false, a0, a1), Neg(Superpose(true, a0, a1))) == if v then a0 else a1
  {
  }

  lemma {:induction false} PhaseOfSuperpose(k: int, v: bool, a0: Amp, a1: Amp)
    ensures Phase(k, Superpose(v, a0, a1)) == Superpose(v, Phase(k, a0), Phase(k, a1))
    decreases if k < 0 then -k else k
  {
    if k > 0 {
      PhaseOfSuperpose(k - 1, v, a0, a1);
      TurnOfSuperpose(v, Phase(k - 1, a0), Phase(k - 1, a1));
    } else if k < 0 {
      PhaseOfSuperpose(k + 1, v, a0, a1);
      TurnOfSuperpose(v, Phase(k + 1, a0), Phase(k + 1, a1));
    }
  }

  lemma {:induction false} TurnOfSuperpose(v: bool, a0: Amp, a1: Amp)
    ensures Turn(Superpose(v, a0, a1)) == Superpose(v, Turn(a0), Turn(a1))
    ensures TurnBack(Superpose(v, a0, a1)) == Superpose(v, TurnBack(a0), TurnBack(a1))
  {
  }

  /** The phase that a diagonal matrix gives to |1>, as a power of w. */
  function PhaseOf(c: Coef): int {
    match c
    case Omega => 1
    case OmegaInv => -1
    case MinusOne => 4
    case _ => 0
  }

  lemma {:induction false} PullDiagonal(p: Prim, s: State, b: Basis)
    requires p.m == MAT_T || p.m == MAT_TDAG || p.m == MAT_Z
    requires p.target < |b|
    ensures Pull(p, s, b) ==
            if AllSet(b, p.ctrls) && b[p.target] then Phase(PhaseOf(p.m.m11), At(s, b)) else At(s, b)
  {
    hide Act, Phase;
    if AllSet(b, p.ctrls) {
      assert Put(b, p.target, b[p.target]) == b;
      ActDiagonal(p.m, b[p.target], At(s, Put(b, p.target, false)), At(s, Put(b, p.target, true)));
    }
  }

  lemma {:induction false} PullX(p: Prim, s: State, b: Basis)
    requires p.m == MAT_X && p.target < |b|
    ensures Pull(p, s, b) == if AllSet(b, p.ctrls) then At(s, Flip(b, p.target)) else At(s, b)
  {
    hide Act;
    ActX(b[p.target], At(s, Put(b, p.target, false)), At(s, Put(b, p.target, true)));
  }

  lemma {:induction false} PullH(p: Prim, s: State, b: Basis)
    requires p.m == MAT_H && p.target < |b|
    ensures Pull(p, s, b) == if AllSet(b, p.ctrls)
                             then Superpose(b[p.target], At(s, Put(b, p.target, false)), At(s, Put(b, p.target, true)))
                             else At(s, b)
  {
    hide Act, Superpose;
    ActH(b[p.target], At(s, Put(b, p.target, false)), At(s, Put(b, p.target, true)));
  }

  lemma {:induction false} ActPrep(m: bool, v: bool, a0: Amp, a1: Amp)
    ensures Act(MatPrep(m), v, a0, a1) == if v then ZERO else if m then a1 else a0
  {
  }

  lemma {:induction false} ActMeas(x: bool, v: bool, a0: Amp, a1: Amp)
    ensures Act(MatMeas(x), v, a0, a1) == if v != x then ZERO else if v then a1 else a0
  {
  }

  lemma {:induction false} SuperposeZero(v: bool, a: Amp)
    ensures Superpose(v, a, ZERO) == Halve(a)
    ensures Superpose(v, ZERO, a) == if v then Neg(Halve(a)) else Halve(a)
  {
    ZeroIsFixed();
    AddZero(Halve(a));
    AddZero(Neg(Halve(a)));
    hide Halve, Neg, Add;
  }

  lemma {:induction false} AddZero(a: Amp)
    ensures Add(a, ZERO) == a && Add(ZERO, a) == a
  {
  }

  lemma {:induction false} ZeroIsFixed()
    ensures Halve(ZERO) == ZERO && Neg(ZERO) == ZERO
  {
    hide Halve, Neg;
    HalfOfZero(ZERO);
    NegOfZero(ZERO);
  }

  lemma {:induction false} HalfOfZero(a: Amp)
    requires a.c0 == 0.0 && a.c1 == 0.0 && a.c2 == 0.0 && a.c3 == 0.0
    ensures Halve(a) == a
  {
    match a
    case Amp(p, q, r, s) =>
      assert 0.5 * (q - s) == p;
      assert 0.5 * (p + r) == q;
      assert 0.5 * (q + s) == r;
      assert 0.5 * (r - p) == s;
  }

  lemma {:induction false} NegOfZero(a: Amp)
    requires a.c0 == 0.0 && a.c1 == 0.0 && a.c2 == 0.0 && a.c3 == 0.0
    ensures Neg(a) == a
  {
    match a
    case Amp(p, q, r, s) =>
      assert -p == p;
      assert -q == q;
      assert -r == r;
      assert -s == s;
  }

  lemma {:induction false} NegLaws(a: Amp)
    ensures Neg(Neg(a)) == a && Halve(Neg(a)) == Neg(Halve(a))
  {
  }

  // ----- One amplitude after one more instruction -----

  function PrepZ(q: Qubit, m: bool): Prim { Prim([], q, MatPrep(m)) }

  function MeasZ(q: Qubit, x: bool): Prim { Prim([], q, MatMeas(x)) }

  function Hadamard(q: Qubit): Prim { Prim([], q, MAT_H) }

  function CNot(c: Qubit, t: Qubit): Prim { Prim([c], t, MAT_X) }

  lemma {:induction false} AtX(n: nat, q: Qubit, s: State, b: Basis)
    requires IsState(n, s) && |b| == n && q < n
    ensures At(Apply(Prim([], q, MAT_X), s), b) == At(s, Flip(b, q))
  {
    hide Apply, Act, Pull;
    AtApply(n, Prim([], q, MAT_X), s, b);
    PullX(Prim([], q, MAT_X), s, b);
  }

  lemma {:induction false} AtZ(n: nat, q: Qubit, s: State, b: Basis)
    requires IsState(n, s) && |b| == n && q < n
    ensures At(Apply(Prim([], q, MAT_Z), s), b) == if b[q] then Neg(At(s, b)) else At(s, b)
  {
    hide Apply, Act, Pull, Neg;
    AtApply(n, Prim([], q, MAT_Z), s, b);
    PullDiagonal(Prim([], q, MAT_Z), s, b);
    PhaseFour(At(s, b));
  }

  lemma {:induction false} AtCNot(n: nat, c: Qubit, t: Qubit, s: State, b: Basis)
    requires IsState(n, s) && |b| == n && c < n && t < n
    ensures At(Apply(CNot(c, t), s), b) == At(s, if b[c] then Flip(b, t) else b)
  {
    hide Apply, Act, Pull;
    AtApply(n, CNot(c, t), s, b);
    assert c in [c];
    PullX(CNot(c, t), s, b);
  }

  lemma {:induction false} AtHadamard(n: nat, q: Qubit, s: State, b: Basis)
    requires IsState(n, s) && |b| == n && q < n
    ensures At(Apply(Hadamard(q), s), b) == Superpose(b[q], At(s, Put(b, q, false)), At(s, Put(b, q, true)))
  {
    hide Apply, Act, Pull, Superpose;
    AtApply(n, Hadamard(q), s, b);
    PullH(Hadamard(q), s, b);
  }

  lemma {:induction false} AtPrep(n: nat, q: Qubit, m: bool, s: State, b: Basis)
    requires IsState(n, s) && |b| == n && q < n
    ensures At(Apply(PrepZ(q, m), s), b) == if b[q] then ZERO else At(s, Put(b, q, m))
  {
    hide Apply, Act;
    AtApply(n, PrepZ(q, m), s, b);
    ActPrep(m, b[q], At(s, Put(b, q, false)), At(s, Put(b, q, true)));
  }

  lemma {:induction false} AtMeas(n: nat, q: Qubit, x: bool, s: State, b: Basis)
    requires IsState(n, s) && |b| == n && q < n
    ensures At(Apply(MeasZ(q, x), s), b) == if b[q] != x then ZERO else At(s, b)
  {
    hide Apply, Act;
    AtApply(n, MeasZ(q, x), s, b);
    assert Put(b, q, b[q]) == b;
    ActMeas(x, b[q], At(s, Put(b, q, false)), At(s, Put(b, q, true)));
  }

  lemma {:induction false} RunSnoc(ps: seq<Prim>, p: Prim, s: State)
    ensures Run(ps + [p], s) == Apply(p, Run(ps, s))
  {
    hide Apply;
    RunAppend(ps, [p], s);
    assert [p][1..] == [] && Run([], Apply(p, Run(ps, s))) == Apply(p, Run(ps, s));
  }
}
