/** The circuit that the example pass builds for the Toffoli gate.  Two of its phases are
    on other qubits than in the decomposition, so it is the gate up to a phase. */
module ToffoliCircuit {
  import opened Amplitudes
  import opened Circuits
  import opened Gates
  import opened ToffoliMeaning
  import opened BasisStates

  function CreateToffoli(c0: Qubit, c1: Qubit, t: Qubit): seq<Gate> {
    [G(H, [t])] + CircuitMiddle(c0, c1, t) + [G(H, [t])] + CircuitTail(c0, c1, t)
  }

  function CircuitMiddle(c0: Qubit, c1: Qubit, t: Qubit): seq<Gate> {
    Pair(c1, Tdag, t) + (Pair(c0, T, t) + (Pair(c1, Tdag, t) + ([G(CX, [c0, t]), G(T, [c1])] + [G(T, [t])])))
  }

  function CircuitTail(c0: Qubit, c1: Qubit, t: Qubit): seq<Gate> {
    [G(CX, [c0, c1]), G(T, [c1])] + [G(Tdag, [t]), G(CX, [c0, c1])]
  }

  /** The phase by which the circuit differs from the gate, as a power of w. */
  function Excess(x: bool, y: bool, z: bool): int {
    2 * BitValue(x != y) - BitValue(x) - BitValue(z)
  }

  lemma {:induction false} CircuitMiddleTrace(c0: Qubit, c1: Qubit, t: Qubit, b: Basis)
    requires Distinct3(c0, c1, t, |b|)
    ensures Monomials(CircuitMiddle(c0, c1, t), |b|)
    ensures TraceBack(CircuitMiddle(c0, c1, t), Origin(0, b)) == Origin(MiddlePhase(b[c0], b[c1], b[t]), b)
  {
    hide StepBack, TraceBack, Pair, Monomial;
    var o, x, y, z := Origin(0, b), b[c0], b[c1], b[t];
    var k := BitValue(y) + BitValue(z) - BitValue(z != x);
    var p4, p3, p2, p1 := [G(T, [t])], [G(CX, [c0, t]), G(T, [c1])], Pair(c1, Tdag, t), Pair(c0, T, t);
    assert Put(b, t, z) == b;
    TargetTrace(t, b);
    StepPhase(T, c1, t, b, z, BitValue(z));
    StepCX(c0, t, b, z, BitValue(y) + BitValue(z));
    TraceTwo(p3[0], p3[1], Origin(BitValue(z), b)) by {
      TwoMonomials(c0, c1, t, |b|);
    }
    TraceAppend(p3, p4, o);
    PairTrace(c1, Tdag, t, b, z != x, BitValue(y) + BitValue(z));
    TraceAppend(p2, p3 + p4, o);
    PairTrace(c0, T, t, b, (z != x) != y, k);
    TraceAppend(p1, p2 + (p3 + p4), o);
    PairTrace(c1, Tdag, t, b, z != y, k + BitValue((z != x) != y));
    TraceAppend(Pair(c1, Tdag, t), p1 + (p2 + (p3 + p4)), o);
  }

  lemma {:induction false} TwoMonomials(c0: Qubit, c1: Qubit, t: Qubit, n: nat)
    requires Distinct3(c0, c1, t, n)
    ensures Monomial(G(CX, [c0, t]), n) && Monomial(G(T, [c1]), n)
  {
  }

  lemma {:induction false} TargetTrace(t: Qubit, b: Basis)
    requires t < |b|
    ensures Monomials([G(T, [t])], |b|)
    ensures TraceBack([G(T, [t])], Origin(0, b)) == Origin(BitValue(b[t]), b)
  {
    hide StepBack;
    assert Put(b, t, b[t]) == b && [G(T, [t])][1..] == [];
    StepPhase(T, t, t, b, b[t], 0);
    assert TraceBack([], Origin(0, b)) == Origin(0, b);
  }

  lemma {:induction false} CircuitTailTrace(c0: Qubit, c1: Qubit, t: Qubit, b: Basis)
    requires Distinct3(c0, c1, t, |b|)
    ensures Monomials(CircuitTail(c0, c1, t), |b|)
    ensures TraceBack(CircuitTail(c0, c1, t), Origin(0, b)) == Origin(BitValue(b[c0] != b[c1]) - BitValue(b[t]), b)
  {
    hide StepBack, TraceBack;
    var o, x, y, z := Origin(0, b), b[c0], b[c1], b[t];
    var first, last := [G(CX, [c0, c1]), G(T, [c1])], [G(Tdag, [t]), G(CX, [c0, c1])];
    assert Put(b, c1, y) == b;
    StepCX(c0, c1, b, y, 0);
    StepPhase(Tdag, t, c1, b, y != x, 0);
    TraceTwo(last[0], last[1], o);
    StepPhase(T, c1, c1, b, y != x, -BitValue(z));
    StepCX(c0, c1, b, y != x, BitValue(y != x) - BitValue(z));
    TraceTwo(first[0], first[1], Origin(-BitValue(z), Put(b, c1, y != x)));
    TraceAppend(first, last, o);
  }

  lemma {:induction false} CircuitFirstHalf(other: Interp, c0: Qubit, c1: Qubit, t: Qubit, n: nat, s: State, b: Basis,
          v: bool)
    requires IsState(n, s) && |b| == n && Distinct3(c0, c1, t, n)
    ensures var s2 := RunGates(other, CircuitMiddle(c0, c1, t), ApplyGate(other, G(H, [t]), s));
            IsState(n, s2) && At(s2, Put(b, t, v)) ==
            Phase(MiddlePhase(b[c0], b[c1], v), Superpose(v, At(s, Put(b, t, false)), At(s, Put(b, t, true))))
  {
    hide Superpose, Phase, MiddlePhase, CircuitMiddle, TraceBack, Pull;
    var s1 := ApplyGate(other, G(H, [t]), s);
    var d := Put(b, t, v);
    AfterHadamard(other, t, n, s, d);
    CircuitMiddleTrace(c0, c1, t, d);
    RunMonomials(other, CircuitMiddle(c0, c1, t), n, s1, d);
    RunMonomialsKeepsRegister(other, CircuitMiddle(c0, c1, t), n, s1);
    assert Put(d, t, false) == Put(b, t, false) && Put(d, t, true) == Put(b, t, true);
  }

  lemma {:induction false} CircuitInSteps(other: Interp, c0: Qubit, c1: Qubit, t: Qubit, s: State)
    ensures var h := G(H, [t]);
            RunGates(other, CreateToffoli(c0, c1, t), s) ==
            RunGates(other, CircuitTail(c0, c1, t),
                     ApplyGate(other, h, RunGates(other, CircuitMiddle(c0, c1, t), ApplyGate(other, h, s))))
  {
    hide CircuitMiddle, CircuitTail, ApplyGate;
    var h := G(H, [t]);
    RunGatesAppend(other, [h] + CircuitMiddle(c0, c1, t) + [h], CircuitTail(c0, c1, t), s);
    RunGatesAppend(other, [h] + CircuitMiddle(c0, c1, t), [h], s);
    RunGatesAppend(other, [h], CircuitMiddle(c0, c1, t), s);
    RunOne(other, h, s);
    RunOne(other, h, RunGates(other, CircuitMiddle(c0, c1, t), ApplyGate(other, h, s)));
  }

  lemma {:induction false} CircuitAt(other: Interp, c0: Qubit, c1: Qubit, t: Qubit, n: nat, s: State, b: Basis)
    requires IsState(n, s) && |b| == n && Distinct3(c0, c1, t, n)
    ensures IsState(n, RunGates(other, CreateToffoli(c0, c1, t), s))
    ensures At(RunGates(other, CreateToffoli(c0, c1, t), s), b) ==
            Phase(Excess(b[c0], b[c1], b[t]),
                  Rejoined(b[c0], b[c1], b[t], At(s, Put(b, t, false)), At(s, Put(b, t, true))))
  {
    hide Superpose, Phase, MiddlePhase, CircuitMiddle, CircuitTail, TraceBack, Pull, ApplyGate;
    var h, x, y, z := G(H, [t]), b[c0], b[c1], b[t];
    var s1 := ApplyGate(other, h, s);
    var s2 := RunGates(other, CircuitMiddle(c0, c1, t), s1);
    var s3 := ApplyGate(other, h, s2);
    CircuitInSteps(other, c0, c1, t, s);
    CircuitFirstHalf(other, c0, c1, t, n, s, b, false);
    CircuitFirstHalf(other, c0, c1, t, n, s, b, true);
    AfterHadamard(other, t, n, s2, b);
    HadamardKeepsRegister(other, t, n, s2);
    CircuitTailTrace(c0, c1, t, b);
    RunMonomials(other, CircuitTail(c0, c1, t), n, s3, b);
    RunMonomialsKeepsRegister(other, CircuitTail(c0, c1, t), n, s3);
    PhaseAdds(Excess(x, y, z), TailPhase(x, y), At(s3, b));
  }

  /** On every state of every register, each amplitude after the circuit is the one after
      the Toffoli gate, turned by a phase that depends on the three bits. */
  lemma {:induction false} CircuitIsToffoliUpToPhase(other: Interp, g: Gate, n: nat, s: State, b: Basis)
    requires g.id == Toffoli && |g.qbits| == 3
    requires Distinct3(g.qbits[0], g.qbits[1], g.qbits[2], n) && IsState(n, s) && |b| == n
    ensures At(RunGates(other, CreateToffoli(g.qbits[0], g.qbits[1], g.qbits[2]), s), b) ==
            Phase(Excess(b[g.qbits[0]], b[g.qbits[1]], b[g.qbits[2]]), At(ApplyGate(other, g, s), b))
  {
    hide RunGates, CreateToffoli, Pull, Rejoined, Phase, Excess;
    var c0, c1, t := g.qbits[0], g.qbits[1], g.qbits[2];
    CircuitAt(other, c0, c1, t, n, s, b);
    RejoinedIsToffoli(b[c0], b[c1], b[t], At(s, Put(b, t, false)), At(s, Put(b, t, true)));
    ToffoliAt(other, g, n, s, b);
  }

  lemma {:induction false} PhaseUnfolds(a: Amp)
    ensures Phase(0, a) == a && Phase(1, a) == Turn(a) && Phase(2, a) == Turn(Turn(a))
    ensures Phase(-1, a) == TurnBack(a) && Phase(-2, a) == TurnBack(TurnBack(a))
  {
    hide Turn, TurnBack;
    assert Phase(1, a) == Turn(Phase(0, a)) && Phase(-1, a) == TurnBack(Phase(0, a));
  }

  lemma {:induction false} TurnMoves(a: Amp)
    ensures Turn(a) == a || TurnBack(a) == a || Turn(Turn(a)) == a || TurnBack(TurnBack(a)) == a ==> a == ZERO
    ensures Turn(ZERO) == ZERO && TurnBack(ZERO) == ZERO
  {
    match a
    case Amp(p, q, r, s) =>
      assert Turn(a) == Amp(-s, p, q, r) && TurnBack(a) == Amp(q, r, s, -p);
      assert Turn(Turn(a)) == Amp(-r, -s, p, q) && TurnBack(TurnBack(a)) == Amp(r, s, -p, -q);
  }

  /** A phase that is not none fixes no amplitude but 0. */
  lemma {:induction false} PhaseFixes(x: bool, y: bool, z: bool, a: Amp)
    ensures Phase(Excess(x, y, z), a) == a <==> a == ZERO || (!y && x == z)
  {
    hide Phase, Turn, TurnBack;
    PhaseUnfolds(a);
    TurnMoves(a);
  }

  // ----- The states on which circuit and gate agree -----

  /** The bits of a basis state on which the phase is none. */
  predicate Unturned(b: Basis, g: Gate)
    requires |g.qbits| == 3
  {
    !Bit(b, g.qbits[1]) && Bit(b, g.qbits[0]) == Bit(b, g.qbits[2])
  }

  /** Every basis state whose amplitude counts is one of those. */
  ghost predicate OnUnturned(n: nat, s: State, g: Gate, counts: Amp -> bool)
    requires |g.qbits| == 3
  {
    forall b: Basis | |b| == n && counts(At(s, b)) :: Unturned(b, g)
  }

  /** The Toffoli gate leaves those basis states where they are, and the others among
      themselves. */
  lemma {:induction false} GateKeepsUnturned(other: Interp, g: Gate, n: nat, s: State, counts: Amp -> bool)
    requires g.id == Toffoli && |g.qbits| == 3
    requires Distinct3(g.qbits[0], g.qbits[1], g.qbits[2], n) && IsState(n, s)
    ensures OnUnturned(n, ApplyGate(other, g, s), g, counts) <==> OnUnturned(n, s, g, counts)
  {
    hide At, Unturned, ApplyGate;
    var e := ApplyGate(other, g, s);
    forall b: Basis | |b| == n
      ensures At(e, b) == At(s, Moved(b, g)) && Moved(Moved(b, g), g) == b && Unturned(Moved(b, g), g) == Unturned(b, g)
    {
      ToffoliAt(other, g, n, s, b);
      MovedTwice(b, g);
    }
    if OnUnturned(n, e, g, counts) {
      forall b: Basis | |b| == n && counts(At(s, b)) ensures Unturned(b, g) {
        var c := Moved(b, g);
        assert At(e, c) == At(s, Moved(c, g)) && Moved(c, g) == b;
      }
    }
    if OnUnturned(n, s, g, counts) {
      forall b: Basis | |b| == n && counts(At(e, b)) ensures Unturned(b, g) {
        var c := Moved(b, g);
        assert counts(At(s, c));
      }
    }
  }

  /** Where the Toffoli gate takes a basis state. */
  function Moved(b: Basis, g: Gate): (r: Basis)
    requires |g.qbits| == 3
    ensures |r| == |b|
  {
    Put(b, g.qbits[2], Bit(b, g.qbits[2]) != (Bit(b, g.qbits[0]) && Bit(b, g.qbits[1])))
  }

  lemma {:induction false} MovedTwice(b: Basis, g: Gate)
    requires |g.qbits| == 3 && Distinct3(g.qbits[0], g.qbits[1], g.qbits[2], |b|)
    ensures Moved(Moved(b, g), g) == b && Unturned(Moved(b, g), g) == Unturned(b, g)
  {
  }

  /** On a state the circuit acts as the gate exactly if every basis state with an
      amplitude has a zero on the second control and equal bits on the other two. */
  lemma {:induction false} CircuitIsToffoliIff(other: Interp, g: Gate, n: nat, s: State)
    requires g.id == Toffoli && |g.qbits| == 3
    requires Distinct3(g.qbits[0], g.qbits[1], g.qbits[2], n) && IsState(n, s)
    ensures RunGates(other, CreateToffoli(g.qbits[0], g.qbits[1], g.qbits[2]), s) == ApplyGate(other, g, s) <==>
            forall b: Basis | |b| == n && At(s, b) != ZERO :: !b[g.qbits[1]] && b[g.qbits[0]] == b[g.qbits[2]]
  {
    hide RunGates, CreateToffoli, ApplyGate, At, Excess, Phase;
    var r, e := RunGates(other, CreateToffoli(g.qbits[0], g.qbits[1], g.qbits[2]), s), ApplyGate(other, g, s);
    GateKeepsUnturned(other, g, n, s, a => a != ZERO);
    forall b: Basis | |b| == n ensures At(r, b) == At(e, b) <==> At(e, b) == ZERO || Unturned(b, g) {
      CircuitIsToffoliUpToPhase(other, g, n, s, b);
      PhaseFixes(b[g.qbits[0]], b[g.qbits[1]], b[g.qbits[2]], At(e, b));
    }
    if OnUnturned(n, e, g, a => a != ZERO) {
      BothAreStates(other, g, n, s);
      SameState(n, r, e);
    }
  }

  lemma {:induction false} BothAreStates(other: Interp, g: Gate, n: nat, s: State)
    requires g.id == Toffoli && |g.qbits| == 3
    requires Distinct3(g.qbits[0], g.qbits[1], g.qbits[2], n) && IsState(n, s)
    ensures IsState(n, RunGates(other, CreateToffoli(g.qbits[0], g.qbits[1], g.qbits[2]), s))
    ensures IsState(n, ApplyGate(other, g, s))
  {
    hide RunGates, CreateToffoli, At, Excess, Phase;
    CircuitAt(other, g.qbits[0], g.qbits[1], g.qbits[2], n, s, seq(n, _ => false));
    ApplyKeeps(n, PrimOf(g), s);
  }

  // ----- The same for the numbers that amplitudes stand for -----

  lemma {:induction false} NumberFixed(x: bool, y: bool, z: bool, a: Amp, s: real)
    requires s * s == 0.5
    ensures Number(Phase(Excess(x, y, z), a), s) == Number(a, s) <==> Number(a, s) == NOTHING || (!y && x == z)
  {
    hide Phase, Turn, TurnBack, Number, Scaled;
    var v := Number(a, s);
    PhaseUnfolds(a);
    NumberOfTurn(a, s);
    NumberOfHalfTurn(a, s);
    TurnedIsOther(v.re, v.im, s);
  }

  lemma {:induction false} NumberOfHalfTurn(a: Amp, s: real)
    ensures var z := Number(a, s);
            && Number(Turn(Turn(a)), s) == Complex(-z.im, z.re)
            && Number(TurnBack(TurnBack(a)), s) == Complex(z.im, -z.re)
  {
    hide Number, Scaled;
    var d, e := a.c1 - a.c3, a.c1 + a.c3;
    NumberAt(a, s, a.c0, a.c2, d, e);
    NumberAt(Turn(Turn(a)), s, -a.c2, a.c0, -e, d);
    NumberAt(TurnBack(TurnBack(a)), s, a.c2, -a.c0, e, -d);
    ScaledLaws(s, d, e);
    ScaledLaws(s, e, d);
  }

  /** The amplitudes stand for the same numbers. */
  ghost predicate SameNumbers(n: nat, s: State, t: State, rootHalf: real) {
    forall b: Basis | |b| == n :: Number(At(s, b), rootHalf) == Number(At(t, b), rootHalf)
  }

  /** As complex vectors, circuit and gate agree exactly on the states whose amplitudes other
      than 0 are all on such basis states. */
  lemma {:induction false} CircuitIsToffoliOnNumbersIff(other: Interp, g: Gate, n: nat, s: State, rootHalf: real)
    requires g.id == Toffoli && |g.qbits| == 3 && rootHalf * rootHalf == 0.5
    requires Distinct3(g.qbits[0], g.qbits[1], g.qbits[2], n) && IsState(n, s)
    ensures SameNumbers(n, RunGates(other, CreateToffoli(g.qbits[0], g.qbits[1], g.qbits[2]), s),
                        ApplyGate(other, g, s), rootHalf) <==>
            forall b: Basis | |b| == n && Number(At(s, b), rootHalf) != NOTHING ::
              !b[g.qbits[1]] && b[g.qbits[0]] == b[g.qbits[2]]
  {
    hide RunGates, CreateToffoli, ApplyGate, At, Excess, Phase, Number;
    var r, e := RunGates(other, CreateToffoli(g.qbits[0], g.qbits[1], g.qbits[2]), s), ApplyGate(other, g, s);
    var counts := a => Number(a, rootHalf) != NOTHING;
    GateKeepsUnturned(other, g, n, s, counts);
    forall b: Basis | |b| == n
      ensures Number(At(r, b), rootHalf) == Number(At(e, b), rootHalf) <==> !counts(At(e, b)) || Unturned(b, g)
    {
      CircuitIsToffoliUpToPhase(other, g, n, s, b);
      NumberFixed(b[g.qbits[0]], b[g.qbits[1]], b[g.qbits[2]], At(e, b), rootHalf);
    }
    assert SameNumbers(n, r, e, rootHalf) <==> OnUnturned(n, e, g, counts);
    assert OnUnturned(n, s, g, counts) <==>
      forall b: Basis | |b| == n && counts(At(s, b)) :: !b[g.qbits[1]] && b[g.qbits[0]] == b[g.qbits[2]];
  }

  // ----- Basis states -----

  /** The state with the amplitude 1 on one basis state. */
  function Alone(b: Basis): State {
    map c <- AllBases(|b|) :: if c == b then Amp(1.0, 0.0, 0.0, 0.0) else ZERO
  }

  /** On a single basis state. */
  lemma {:induction false} CircuitOnBasisState(other: Interp, g: Gate, b: Basis)
    requires g.id == Toffoli && |g.qbits| == 3
    requires Distinct3(g.qbits[0], g.qbits[1], g.qbits[2], |b|)
    ensures RunGates(other, CreateToffoli(g.qbits[0], g.qbits[1], g.qbits[2]), Alone(b)) ==
            ApplyGate(other, g, Alone(b))
            <==> !b[g.qbits[1]] && b[g.qbits[0]] == b[g.qbits[2]]
  {
    hide RunGates, CreateToffoli, ApplyGate;
    CircuitIsToffoliIff(other, g, |b|, Alone(b));
    assert At(Alone(b), b) != ZERO;
  }

  /** Circuit and gate differ where the second control alone is set, as complex vectors too. */
  lemma {:induction false} CircuitDiffers(other: Interp)
    ensures var s := Alone([false, true, false]);
            var r, e := RunGates(other, CreateToffoli(0, 1, 2), s), ApplyGate(other, G(Toffoli, [0, 1, 2]), s);
            r != e && forall rootHalf: real | rootHalf * rootHalf == 0.5 :: !SameNumbers(3, r, e, rootHalf)
  {
    hide RunGates, CreateToffoli, ApplyGate, SameNumbers;
    var b := [false, true, false];
    CircuitOnBasisState(other, G(Toffoli, [0, 1, 2]), b);
    forall rootHalf: real | rootHalf * rootHalf == 0.5
      ensures !SameNumbers(3, RunGates(other, CreateToffoli(0, 1, 2), Alone(b)),
                           ApplyGate(other, G(Toffoli, [0, 1, 2]), Alone(b)), rootHalf)
    {
      CircuitIsToffoliOnNumbersIff(other, G(Toffoli, [0, 1, 2]), 3, Alone(b), rootHalf);
      assert Number(At(Alone(b), b), rootHalf) != NOTHING;
    }
  }
}
