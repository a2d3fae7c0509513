/** Both passes replace one kind of gate, wherever it occurs, by a fixed circuit on
    the same qubits. */
module GateRewriting {
  import opened Amplitudes
  import opened Circuits
  import opened Gates
  import opened ToffoliMeaning

  function HZH(q: Qubit): seq<Gate> {
    [G(H, [q]), G(Z, [q]), G(H, [q])]
  }

  /** What replaces the gate `g` in the pass that rewrites gates `id`. */
  function Expand(id: GateId, g: Gate): seq<Gate>
    requires |g.qbits| == Arity(g.id)
  {
    if g.id != id then [g]
    else if id == Toffoli then Expansion(g.qbits[0], g.qbits[1], g.qbits[2])
    else if id == X then HZH(g.qbits[0])
    else [g]
  }

  /** Every gate has as many operands as its metadata says. */
  predicate WellTyped(gs: seq<Gate>) {
    forall i | 0 <= i < |gs| :: |gs[i].qbits| == Arity(gs[i].id)
  }

  function RewriteAll(id: GateId, gs: seq<Gate>): seq<Gate>
    requires WellTyped(gs)
  {
    if gs == [] then [] else Expand(id, gs[0]) + RewriteAll(id, gs[1..])
  }

  function Count(id: GateId, gs: seq<Gate>): nat {
    if gs == [] then 0 else (if gs[0].id == id then 1 else 0) + Count(id, gs[1..])
  }

  /** A gate has its operand count; Toffoli operands are distinct qubits of an n-qubit
      register, and so is the operand of X. */
  ghost predicate OperandsFit(g: Gate, n: nat) {
    && |g.qbits| == Arity(g.id)
    && (g.id == Toffoli ==> Distinct3(g.qbits[0], g.qbits[1], g.qbits[2], n))
    && (g.id == X ==> g.qbits[0] < n)
  }

  /** Neither pass changes what a block does: for every register, every state, every
      meaning of the other gates and any number of rewritten gates. */
  lemma {:induction false} RewriteKeepsMeaning(id: GateId, other: Interp, gs: seq<Gate>, n: nat, s: State)
    requires WellTyped(gs) && forall i | 0 <= i < |gs| :: OperandsFit(gs[i], n)
    requires IsState(n, s) && KeepsRegister(n, other)
    ensures RunGates(other, RewriteAll(id, gs), s) == RunGates(other, gs, s)
    decreases |gs|
  {
    if gs != [] {
      hide ApplyGate, Expand;
      var s1 := ApplyGate(other, gs[0], s);
      ExpandKeepsMeaning(id, other, gs[0], n, s);
      ApplyKeepsRegister(other, gs[0], n, s);
      RunGatesAppend(other, Expand(id, gs[0]), RewriteAll(id, gs[1..]), s);
      RewriteKeepsMeaning(id, other, gs[1..], n, s1);
    }
  }

  lemma {:induction false} ApplyKeepsRegister(other: Interp, g: Gate, n: nat, s: State)
    requires IsState(n, s) && KeepsRegister(n, other)
    ensures IsState(n, ApplyGate(other, g, s))
  {
  }

  lemma {:induction false} ExpandKeepsMeaning(id: GateId, other: Interp, g: Gate, n: nat, s: State)
    requires OperandsFit(g, n) && IsState(n, s)
    ensures RunGates(other, Expand(id, g), s) == ApplyGate(other, g, s)
  {
    hide ApplyGate, RunGates, Expansion, HZH;
    if g.id != id || (id != Toffoli && id != X) {
      RunOne(other, g, s);
    } else if id == Toffoli {
      ExpansionIsToffoli(other, g, n, s);
    } else {
      HZHIsX(other, g, n, s);
    }
  }

  lemma {:induction false} HZHIsX(other: Interp, g: Gate, n: nat, s: State)
    requires g.id == X && |g.qbits| == 1 && g.qbits[0] < n && IsState(n, s)
    ensures RunGates(other, HZH(g.qbits[0]), s) == ApplyGate(other, g, s)
  {
    var q := g.qbits[0];
    var r, e := RunGates(other, HZH(q), s), ApplyGate(other, g, s);
    HZHInSteps(other, q, s);
    forall b: Basis | |b| == n ensures At(r, b) == At(e, b) {
      hide Act, ApplyGate, RunGates, HZH;
      HZHAt(other, q, n, s, b);
      XAt(other, g, n, s, b);
    }
    SameState(n, r, e);
  }

  lemma {:induction false} HZHInSteps(other: Interp, q: Qubit, s: State)
    ensures RunGates(other, HZH(q), s) ==
            ApplyGate(other, G(H, [q]), ApplyGate(other, G(Z, [q]), ApplyGate(other, G(H, [q]), s)))
  {
    hide ApplyGate;
    assert HZH(q)[1..] == [G(Z, [q]), G(H, [q])] && HZH(q)[1..][1..] == [G(H, [q])];
    RunOne(other, G(H, [q]), ApplyGate(other, G(Z, [q]), ApplyGate(other, G(H, [q]), s)));
  }

  lemma {:induction false} HZHAt(other: Interp, q: Qubit, n: nat, s: State, b: Basis)
    requires q < n && IsState(n, s) && |b| == n
    ensures At(ApplyGate(other, G(H, [q]), ApplyGate(other, G(Z, [q]), ApplyGate(other, G(H, [q]), s))), b) ==
            At(s, Flip(b, q))
  {
    hide Superpose;
    var s1 := ApplyGate(other, G(H, [q]), s);
    var s2 := ApplyGate(other, G(Z, [q]), s1);
    var b0, b1 := Put(b, q, false), Put(b, q, true);
    assert Put(b0, q, true) == b1 && Put(b1, q, false) == b0 && Put(b0, q, false) == b0 && Put(b1, q, true) == b1;
    hide Put, ApplyGate;
    AfterHadamard(other, q, n, s, b0);
    AfterHadamard(other, q, n, s, b1);
    AfterZ(other, q, n, s1, b0);
    AfterZ(other, q, n, s1, b1);
    AfterHadamard(other, q, n, s2, b);
    HadamardTwice(b[q], At(s, b0), At(s, b1));
  }

  lemma {:induction false} AfterZ(other: Interp, q: Qubit, n: nat, s: State, b: Basis)
    requires IsState(n, s) && |b| == n && q < n
    ensures IsState(n, ApplyGate(other, G(Z, [q]), s))
    ensures At(ApplyGate(other, G(Z, [q]), s), b) == if b[q] then Neg(At(s, b)) else At(s, b)
  {
    hide Act, Neg;
    PullDiagonal(PrimOf(G(Z, [q])), s, b);
    PhaseFour(At(s, b));
  }

  lemma {:induction false} XAt(other: Interp, g: Gate, n: nat, s: State, b: Basis)
    requires g.id == X && |g.qbits| == 1 && g.qbits[0] < n && IsState(n, s) && |b| == n
    ensures At(ApplyGate(other, g, s), b) == At(s, Flip(b, g.qbits[0]))
  {
    hide Act;
    PullX(PrimOf(g), s, b);
  }

  // ----- The shape of the rewritten block -----

  lemma {:induction false} RewriteAppend(id: GateId, gs: seq<Gate>, hs: seq<Gate>)
    requires WellTyped(gs) && WellTyped(hs)
    ensures RewriteAll(id, gs + hs) == RewriteAll(id, gs) + RewriteAll(id, hs)
    decreases |gs|
  {
    if gs == [] {
      assert gs + hs == hs;
    } else {
      hide Expand;
      assert (gs + hs)[1..] == gs[1..] + hs;
      RewriteAppend(id, gs[1..], hs);
    }
  }

  lemma {:induction false} RewriteNothing(id: GateId, gs: seq<Gate>)
    requires WellTyped(gs) && forall i | 0 <= i < |gs| :: gs[i].id != id
    ensures RewriteAll(id, gs) == gs
    decreases |gs|
  {
    if gs != [] {
      RewriteNothing(id, gs[1..]);
    }
  }

  /** The gates of a rewritten block: no rewritten gate is left, and each of them
      became 15 (or 3) gates. */
  lemma {:induction false} RewriteShape(id: GateId, gs: seq<Gate>)
    requires WellTyped(gs) && (id == Toffoli || id == X)
    ensures Count(id, RewriteAll(id, gs)) == 0
    ensures |RewriteAll(id, gs)| == |gs| + (if id == Toffoli then 14 else 2) * Count(id, gs)
    decreases |gs|
  {
    if gs != [] {
      RewriteShape(id, gs[1..]);
      ExpandShape(id, gs[0]);
      CountAppend(id, Expand(id, gs[0]), RewriteAll(id, gs[1..]));
    }
  }

  lemma {:induction false} ExpandShape(id: GateId, g: Gate)
    requires |g.qbits| == Arity(g.id) && (id == Toffoli || id == X)
    ensures Count(id, Expand(id, g)) == 0
    ensures |Expand(id, g)| == if g.id != id then 1 else if id == Toffoli then 15 else 3
  {
    var e := Expand(id, g);
    forall i | 0 <= i < |e| ensures e[i].id != id {
    }
    CountNone(id, e);
  }

  lemma {:induction false} CountNone(id: GateId, gs: seq<Gate>)
    requires forall i | 0 <= i < |gs| :: gs[i].id != id
    ensures Count(id, gs) == 0
  {
    if gs != [] {
      CountNone(id, gs[1..]);
    }
  }

  lemma {:induction false} CountAppend(id: GateId, gs: seq<Gate>, hs: seq<Gate>)
    ensures Count(id, gs + hs) == Count(id, gs) + Count(id, hs)
  {
    if gs == [] {
      assert gs + hs == hs;
    } else {
      assert (gs + hs)[1..] == gs[1..] + hs;
      CountAppend(id, gs[1..], hs);
    }
  }

  /** Every other gate is kept, in its place up to the growth before it. */
  lemma {:induction false} OthersStay(id: GateId, gs: seq<Gate>, i: nat)
    requires WellTyped(gs) && (id == Toffoli || id == X) && i < |gs| && gs[i].id != id
    ensures var j := i + (if id == Toffoli then 14 else 2) * Count(id, gs[..i]);
            j < |RewriteAll(id, gs)| && RewriteAll(id, gs)[j] == gs[i]
  {
    RewriteAppend(id, gs[..i], gs[i..]);
    assert gs[..i] + gs[i..] == gs && gs[i..][0] == gs[i];
    RewriteShape(id, gs[..i]);
  }
}
