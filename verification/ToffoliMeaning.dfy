/** The decomposition of the Toffoli gate into one- and two-qubit gates, and why it acts as
    the gate: between the Hadamards it only adds phases, which cancel but for one case. */
module ToffoliMeaning {
  import opened Amplitudes
  import opened Circuits
  import opened Gates

  /** The decomposition, in time order. */
  function Expansion(c0: Qubit, c1: Qubit, t: Qubit): seq<Gate> {
    [G(H, [t])] + Middle(c0, c1, t) + [G(H, [t])] + Tail(c0, c1)
  }

  function Pair(c: Qubit, id: GateId, t: Qubit): seq<Gate> {
    [G(CX, [c, t]), G(id, [t])]
  }

  function Middle(c0: Qubit, c1: Qubit, t: Qubit): seq<Gate> {
    Pair(c1, Tdag, t) + (Pair(c0, T, t) + (Pair(c1, Tdag, t) + (Pair(c0, T, t) + [G(T, [c1])])))
  }

  function Tail(c0: Qubit, c1: Qubit): seq<Gate> {
    [G(CX, [c0, c1]), G(T, [c0])] + [G(Tdag, [c1]), G(CX, [c0, c1])]
  }

  function BitValue(v: bool): int {
    if v then 1 else 0
  }

  /** Phase polynomials of the two blocks: their sum is 4 when all three bits are
      set and 0 otherwise. */
  function MiddlePhase(x: bool, y: bool, z: bool): int {
    BitValue(y) + BitValue(z) - BitValue(z != x) + BitValue((z != x) != y) - BitValue(z != y)
  }

  function TailPhase(x: bool, y: bool): int {
    BitValue(x) - BitValue(x != y)
  }

  lemma {:induction false} PhasesAddUp(x: bool, y: bool, z: bool)
    ensures MiddlePhase(x, y, z) + TailPhase(x, y) == if x && y && z then 4 else 0
  {
  }

  // ----- Single steps on basis states that differ from `b` in qubit `t` only -----

  lemma {:induction false} StepCX(c: Qubit, t: Qubit, b: Basis, v: bool, k: int)
    requires c != t && c < |b| && t < |b|
    ensures StepBack(G(CX, [c, t]), Origin(k, Put(b, t, v))) == Origin(k, Put(b, t, v != b[c]))
  {
    var g, d := G(CX, [c, t]), Put(b, t, v);
    assert PrimOf(g).ctrls == [c] && PrimOf(g).target == t;
    assert AllSet(d, [c]) == b[c] by {
      assert c in [c];
    }
    assert Flip(d, t) == Put(b, t, !v);
  }

  lemma {:induction false} StepPhase(id: GateId, q: Qubit, t: Qubit, b: Basis, v: bool, k: int)
    requires id == T || id == Tdag
    requires q < |b| && t < |b|
    ensures StepBack(G(id, [q]), Origin(k, Put(b, t, v))) ==
            Origin(k + (if id == T then 1 else -1) * BitValue(if q == t then v else b[q]), Put(b, t, v))
  {
    var g := G(id, [q]);
    assert PrimOf(g).ctrls == [] && PrimOf(g).target == q;
    assert AllSet(Put(b, t, v), []);
  }

  ghost predicate Distinct3(c0: Qubit, c1: Qubit, t: Qubit, n: nat) {
    c0 < n && c1 < n && t < n && c0 != c1 && c0 != t && c1 != t
  }

  ghost predicate Monomials(gs: seq<Gate>, n: nat) {
    forall g | g in gs :: Monomial(g, n)
  }

  lemma {:induction false} TraceAppend(gs: seq<Gate>, hs: seq<Gate>, o: Origin)
    requires Monomials(gs, |o.from|) && Monomials(hs, |o.from|)
    ensures Monomials(gs + hs, |o.from|)
    ensures TraceBack(gs + hs, o) == TraceBack(gs, TraceBack(hs, o))
  {
    if gs == [] {
      assert gs + hs == hs;
    } else {
      assert (gs + hs)[1..] == gs[1..] + hs;
      assert forall g | g in gs[1..] :: g in gs;
      TraceAppend(gs[1..], hs, o);
    }
  }

  lemma {:induction false} TraceTwo(g: Gate, h: Gate, o: Origin)
    requires Monomial(g, |o.from|) && Monomial(h, |o.from|)
    ensures Monomials([g, h], |o.from|)
    ensures TraceBack([g, h], o) == StepBack(g, StepBack(h, o))
  {
    assert [g, h][1..] == [h] && [h][1..] == [];
    assert TraceBack([], o) == o;
    assert TraceBack([h], o) == StepBack(h, o);
  }

  lemma {:induction false} PairTrace(c: Qubit, id: GateId, t: Qubit, b: Basis, v: bool, k: int)
    requires c != t && c < |b| && t < |b| && (id == T || id == Tdag)
    ensures Monomials(Pair(c, id, t), |b|)
    ensures TraceBack(Pair(c, id, t), Origin(k, Put(b, t, v))) ==
            Origin(k + (if id == T then BitValue(v) else -BitValue(v)), Put(b, t, v != b[c]))
  {
    hide StepBack, TraceBack;
    TraceTwo(G(CX, [c, t]), G(id, [t]), Origin(k, Put(b, t, v)));
    StepPhase(id, t, t, b, v, k);
    StepCX(c, t, b, v, k + if id == T then BitValue(v) else -BitValue(v));
  }

  /** Between the Hadamards every basis state comes back to itself, with a phase. */
  lemma {:induction false} MiddleTrace(c0: Qubit, c1: Qubit, t: Qubit, b: Basis)
    requires Distinct3(c0, c1, t, |b|)
    ensures Monomials(Middle(c0, c1, t), |b|)
    ensures TraceBack(Middle(c0, c1, t), Origin(0, b)) == Origin(MiddlePhase(b[c0], b[c1], b[t]), b)
  {
    hide StepBack, TraceBack, Pair, Monomial;
    var o, x, y, z := Origin(0, b), b[c0], b[c1], b[t];
    var k := BitValue(y) + BitValue(z) - BitValue(z != x);
    var p4, p3, p2, p1 := [G(T, [c1])], Pair(c0, T, t), Pair(c1, Tdag, t), Pair(c0, T, t);
    assert Put(b, t, z) == b;
    LastTrace(c1, t, b);
    PairTrace(c0, T, t, b, z, BitValue(y));
    TraceAppend(p3, p4, o);
    PairTrace(c1, Tdag, t, b, z != x, BitValue(y) + BitValue(z));
    TraceAppend(p2, p3 + p4, o);
    PairTrace(c0, T, t, b, (z != x) != y, k);
    TraceAppend(p1, p2 + (p3 + p4), o);
    PairTrace(c1, Tdag, t, b, z != y, k + BitValue((z != x) != y));
    TraceAppend(Pair(c1, Tdag, t), p1 + (p2 + (p3 + p4)), o);
  }

  lemma {:induction false} LastTrace(c1: Qubit, t: Qubit, b: Basis)
    requires c1 != t && c1 < |b| && t < |b|
    ensures Monomials([G(T, [c1])], |b|)
    ensures TraceBack([G(T, [c1])], Origin(0, b)) == Origin(BitValue(b[c1]), b)
  {
    hide StepBack;
    assert Put(b, t, b[t]) == b && [G(T, [c1])][1..] == [];
    StepPhase(T, c1, t, b, b[t], 0);
    assert TraceBack([], Origin(0, b)) == Origin(0, b);
  }

  lemma {:induction false} TailTrace(c0: Qubit, c1: Qubit, t: Qubit, b: Basis)
    requires Distinct3(c0, c1, t, |b|)
    ensures Monomials(Tail(c0, c1), |b|)
    ensures TraceBack(Tail(c0, c1), Origin(0, b)) == Origin(TailPhase(b[c0], b[c1]), b)
  {
    hide StepBack, TraceBack;
    var o, x, y := Origin(0, b), b[c0], b[c1];
    var first, last := [G(CX, [c0, c1]), G(T, [c0])], [G(Tdag, [c1]), G(CX, [c0, c1])];
    assert Put(b, c1, y) == b;
    StepCX(c0, c1, b, y, 0);
    StepPhase(Tdag, c1, c1, b, y != x, 0);
    TraceTwo(last[0], last[1], o);
    StepPhase(T, c0, c1, b, y != x, -BitValue(y != x));
    StepCX(c0, c1, b, y != x, BitValue(x) - BitValue(y != x));
    TraceTwo(first[0], first[1], Origin(-BitValue(y != x), Put(b, c1, y != x)));
    TraceAppend(first, last, o);
  }

  /** What a run of the expansion does to one amplitude, from the inside out. */
  lemma {:induction false} AfterHadamard(other: Interp, t: Qubit, n: nat, s: State, b: Basis)
    requires IsState(n, s) && |b| == n && t < n
    ensures IsState(n, ApplyGate(other, G(H, [t]), s))
    ensures At(ApplyGate(other, G(H, [t]), s), b) ==
            Superpose(b[t], At(s, Put(b, t, false)), At(s, Put(b, t, true)))
  {
    hide Superpose;
    PullH(PrimOf(G(H, [t])), s, b);
  }

  /** H, then the middle block, then the tail: one amplitude of it, with the two
      phases of the blocks collected. */
  lemma {:induction false} FirstHalf(other: Interp, c0: Qubit, c1: Qubit, t: Qubit, n: nat, s: State, b: Basis, v: bool)
    requires IsState(n, s) && |b| == n && Distinct3(c0, c1, t, n)
    ensures var s2 := RunGates(other, Middle(c0, c1, t), ApplyGate(other, G(H, [t]), s));
            IsState(n, s2) && At(s2, Put(b, t, v)) ==
            Phase(MiddlePhase(b[c0], b[c1], v), Superpose(v, At(s, Put(b, t, false)), At(s, Put(b, t, true))))
  {
    hide Superpose, Phase, MiddlePhase, Middle, TraceBack, Pull;
    var s1 := ApplyGate(other, G(H, [t]), s);
    var d := Put(b, t, v);
    AfterHadamard(other, t, n, s, d);
    MiddleTrace(c0, c1, t, d);
    RunMonomials(other, Middle(c0, c1, t), n, s1, d);
    RunMonomialsKeepsRegister(other, Middle(c0, c1, t), n, s1);
    assert Put(d, t, false) == Put(b, t, false) && Put(d, t, true) == Put(b, t, true);
  }

  lemma {:induction false} RunMonomialsKeepsRegister(other: Interp, gs: seq<Gate>, n: nat, s: State)
    requires IsState(n, s) && Monomials(gs, n)
    ensures IsState(n, RunGates(other, gs, s))
    decreases |gs|
  {
    if gs != [] {
      assert gs[0] in gs && forall g | g in gs[1..] :: g in gs;
      RunMonomialsKeepsRegister(other, gs[1..], n, ApplyGate(other, gs[0], s));
    }
  }

  /** The whole expansion on one amplitude. */
  lemma {:induction false} ExpansionAt(other: Interp, c0: Qubit, c1: Qubit, t: Qubit, n: nat, s: State, b: Basis)
    requires IsState(n, s) && |b| == n && Distinct3(c0, c1, t, n)
    ensures IsState(n, RunGates(other, Expansion(c0, c1, t), s))
    ensures At(RunGates(other, Expansion(c0, c1, t), s), b) ==
            Rejoined(b[c0], b[c1], b[t], At(s, Put(b, t, false)), At(s, Put(b, t, true)))
  {
    hide Superpose, Phase, MiddlePhase, TailPhase, Middle, Tail, TraceBack, Pull, ApplyGate;
    var h := G(H, [t]);
    var s1 := ApplyGate(other, h, s);
    var s2 := RunGates(other, Middle(c0, c1, t), s1);
    var s3 := ApplyGate(other, h, s2);
    ExpansionInSteps(other, c0, c1, t, s);
    FirstHalf(other, c0, c1, t, n, s, b, false);
    FirstHalf(other, c0, c1, t, n, s, b, true);
    AfterHadamard(other, t, n, s2, b);
    HadamardKeepsRegister(other, t, n, s2);
    TailTrace(c0, c1, t, b);
    RunMonomials(other, Tail(c0, c1), n, s3, b);
    RunMonomialsKeepsRegister(other, Tail(c0, c1), n, s3);
  }

  function Rejoined(x: bool, y: bool, z: bool, a0: Amp, a1: Amp): Amp {
    Phase(TailPhase(x, y),
          Superpose(z, Phase(MiddlePhase(x, y, false), Superpose(false, a0, a1)),
                       Phase(MiddlePhase(x, y, true), Superpose(true, a0, a1))))
  }

  lemma {:induction false} HadamardKeepsRegister(other: Interp, t: Qubit, n: nat, s: State)
    requires IsState(n, s)
    ensures IsState(n, ApplyGate(other, G(H, [t]), s))
  {
  }

  lemma {:induction false} ExpansionInSteps(other: Interp, c0: Qubit, c1: Qubit, t: Qubit, s: State)
    ensures var h := G(H, [t]);
            RunGates(other, Expansion(c0, c1, t), s) ==
            RunGates(other, Tail(c0, c1),
                     ApplyGate(other, h, RunGates(other, Middle(c0, c1, t), ApplyGate(other, h, s))))
  {
    hide Middle, Tail, ApplyGate;
    var h := G(H, [t]);
    RunGatesAppend(other, [h] + Middle(c0, c1, t) + [h], Tail(c0, c1), s);
    RunGatesAppend(other, [h] + Middle(c0, c1, t), [h], s);
    RunGatesAppend(other, [h], Middle(c0, c1, t), s);
    RunOne(other, h, s);
    RunOne(other, h, RunGates(other, Middle(c0, c1, t), ApplyGate(other, h, s)));
  }

  lemma {:induction false} RunOne(other: Interp, g: Gate, s: State)
    ensures RunGates(other, [g], s) == ApplyGate(other, g, s)
  {
    hide ApplyGate;
    assert [g][1..] == [];
    assert RunGates(other, [], ApplyGate(other, g, s)) == ApplyGate(other, g, s);
  }

  /** The two blocks of phases cancel except on |11>, where they leave Z between the
      two Hadamards, which is X. */
  lemma {:induction false} RejoinedIsToffoli(x: bool, y: bool, z: bool, a0: Amp, a1: Amp)
    ensures Rejoined(x, y, z, a0, a1) == if z != (x && y) then a1 else a0
  {
    hide Superpose, Phase, MiddlePhase, TailPhase;
    var m0, m1 := Superpose(false, a0, a1), Superpose(true, a0, a1);
    var k, k0, k1 := TailPhase(x, y), MiddlePhase(x, y, false), MiddlePhase(x, y, true);
    PhaseOfSuperpose(k, z, Phase(k0, m0), Phase(k1, m1));
    PhaseAdds(k, k0, m0);
    PhaseAdds(k, k1, m1);
    PhasesAddUp(x, y, false);
    PhasesAddUp(x, y, true);
    PhaseFour(m0);
    PhaseFour(m1);
    HadamardTwice(z, a0, a1);
  }

  /** The 15 gates act exactly as the Toffoli gate, on every state of every register. */
  lemma {:induction false} ExpansionIsToffoli(other: Interp, g: Gate, n: nat, s: State)
    requires g.id == Toffoli && |g.qbits| == 3
    requires Distinct3(g.qbits[0], g.qbits[1], g.qbits[2], n) && IsState(n, s)
    ensures RunGates(other, Expansion(g.qbits[0], g.qbits[1], g.qbits[2]), s) == ApplyGate(other, g, s)
  {
    hide RunGates, Expansion, Pull, Rejoined;
    var c0, c1, t := g.qbits[0], g.qbits[1], g.qbits[2];
    var r, e := RunGates(other, Expansion(c0, c1, t), s), ApplyGate(other, g, s);
    assert IsState(n, r) by {
      ExpansionAt(other, c0, c1, t, n, s, seq(n, _ => false));
    }
    forall b: Basis | |b| == n ensures At(r, b) == At(e, b) {
      ExpansionAt(other, c0, c1, t, n, s, b);
      RejoinedIsToffoli(b[c0], b[c1], b[t], At(s, Put(b, t, false)), At(s, Put(b, t, true)));
      ToffoliAt(other, g, n, s, b);
    }
    SameState(n, r, e);
  }

  lemma {:induction false} ToffoliAt(other: Interp, g: Gate, n: nat, s: State, b: Basis)
    requires g.id == Toffoli && |g.qbits| == 3 && IsState(n, s) && |b| == n && g.qbits[2] < n
    requires g.qbits[0] < n && g.qbits[1] < n
    ensures At(ApplyGate(other, g, s), b) ==
            At(s, Put(b, g.qbits[2], b[g.qbits[2]] != (b[g.qbits[0]] && b[g.qbits[1]])))
  {
    hide Act;
    var p := PrimOf(g);
    assert p.ctrls[0] in p.ctrls && p.ctrls[1] in p.ctrls;
    assert AllSet(b, p.ctrls) == (b[g.qbits[0]] && b[g.qbits[1]]);
    PullX(p, s, b);
    assert Put(b, g.qbits[2], b[g.qbits[2]]) == b;
  }
}
