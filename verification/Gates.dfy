/** Gates of a quantum basic block and their meaning. */
module Gates {
  import opened Amplitudes
  import opened Circuits

  /** Gate identifiers.  Every gate beside the ones that the passes of this project
      read or write is `Other`, with the operand counts of its metadata. */
  datatype GateId = H | X | Z | T | Tdag | CX | Toffoli | Other(code: int, arity: nat, paraArity: nat)

  function Arity(id: GateId): nat {
    match id
    case H | X | Z | T | Tdag => 1
    case CX => 2
    case Toffoli => 3
    case Other(_, n, _) => n
  }

  function ParaArity(id: GateId): nat {
    if id.Other? then id.paraArity else 0
  }

  datatype Gate = Gate(id: GateId, qbits: seq<Qubit>, paras: seq<real>)

  function G(id: GateId, qbits: seq<Qubit>): Gate {
    Gate(id, qbits, [])
  }

  /** What the gates outside the fixed set do to a state: any function. */
  type Interp = (Gate, State) -> State

  ghost predicate KeepsRegister(n: nat, other: Interp) {
    forall g, s | IsState(n, s) :: IsState(n, other(g, s))
  }

  predicate Known(g: Gate) {
    !g.id.Other? && |g.qbits| == Arity(g.id)
  }

  function PrimOf(g: Gate): Prim
    requires Known(g)
  {
    match g.id
    case H => Prim([], g.qbits[0], MAT_H)
    case X => Prim([], g.qbits[0], MAT_X)
    case Z => Prim([], g.qbits[0], MAT_Z)
    case T => Prim([], g.qbits[0], MAT_T)
    case Tdag => Prim([], g.qbits[0], MAT_TDAG)
    case CX => Prim([g.qbits[0]], g.qbits[1], MAT_X)
    case Toffoli => Prim([g.qbits[0], g.qbits[1]], g.qbits[2], MAT_X)
  }

  function ApplyGate(other: Interp, g: Gate, s: State): State {
    if Known(g) then Apply(PrimOf(g), s) else other(g, s)
  }

  function RunGates(other: Interp, gs: seq<Gate>, s: State): State {
    if gs == [] then s else RunGates(other, gs[1..], ApplyGate(other, gs[0], s))
  }

  lemma {:induction false} RunGatesAppend(other: Interp, gs: seq<Gate>, hs: seq<Gate>, s: State)
    ensures RunGates(other, gs + hs, s) == RunGates(other, hs, RunGates(other, gs, s))
    decreases |gs|
  {
    if gs == [] {
      assert gs + hs == hs;
    } else {
      assert (gs + hs)[0] == gs[0] && (gs + hs)[1..] == gs[1..] + hs;
      RunGatesAppend(other, gs[1..], hs, ApplyGate(other, gs[0], s));
    }
  }

  lemma {:induction false} RunGatesKeepsRegister(n: nat, other: Interp, gs: seq<Gate>, s: State)
    requires IsState(n, s) && KeepsRegister(n, other)
    ensures IsState(n, RunGates(other, gs, s))
    decreases |gs|
  {
    if gs != [] {
      RunGatesKeepsRegister(n, other, gs[1..], ApplyGate(other, gs[0], s));
    }
  }

  // ----- Gates that permute basis states up to a phase -----

  predicate Monomial(g: Gate, n: nat) {
    && Known(g)
    && !g.id.H?
    && forall i | 0 <= i < |g.qbits| :: g.qbits[i] < n
  }

  /** Where the amplitude of `b` comes from, and the power of w it picks up. */
  datatype Origin = Origin(phase: int, from: Basis)

  function StepBack(g: Gate, o: Origin): Origin
    requires Monomial(g, |o.from|)
  {
    var p, b := PrimOf(g), o.from;
    if !AllSet(b, p.ctrls) then o
    else if g.id in {X, CX, Toffoli} then Origin(o.phase, Flip(b, p.target))
    else Origin(o.phase + if b[p.target] then PhaseOf(p.m.m11) else 0, b)
  }

  function TraceBack(gs: seq<Gate>, o: Origin): (r: Origin)
    requires forall g | g in gs :: Monomial(g, |o.from|)
    ensures |r.from| == |o.from|
  {
    if gs == [] then o else StepBack(gs[0], TraceBack(gs[1..], o))
  }

  /** A circuit without Hadamards moves each amplitude to one place, with one phase. */
  lemma {:induction false} RunMonomials(other: Interp, gs: seq<Gate>, n: nat, s: State, b: Basis)
    requires IsState(n, s) && |b| == n
    requires forall g | g in gs :: Monomial(g, n)
    ensures var o := TraceBack(gs, Origin(0, b));
            At(RunGates(other, gs, s), b) == Phase(o.phase, At(s, o.from))
    decreases |gs|
  {
    if gs != [] {
      assert gs[0] in gs && forall g | g in gs[1..] :: g in gs;
      var p := PrimOf(gs[0]);
      var s1 := Apply(p, s);
      RunMonomials(other, gs[1..], n, s1, b);
      var o := TraceBack(gs[1..], Origin(0, b));
      assert At(s1, o.from) == Pull(p, s, o.from);
      StepBackMeaning(gs[0], n, s, o);
    }
  }

  lemma {:induction false} StepBackMeaning(g: Gate, n: nat, s: State, o: Origin)
    requires Monomial(g, n) && |o.from| == n
    ensures Phase(o.phase, Pull(PrimOf(g), s, o.from)) ==
            Phase(StepBack(g, o).phase, At(s, StepBack(g, o).from))
  {
    if g.id in {X, CX, Toffoli} {
      PullX(PrimOf(g), s, o.from);
    } else {
      PhaseMeaning(g, n, s, o);
    }
  }

  lemma {:induction false} PhaseMeaning(g: Gate, n: nat, s: State, o: Origin)
    requires Monomial(g, n) && |o.from| == n && g.id in {T, Tdag, Z}
    ensures Phase(o.phase, Pull(PrimOf(g), s, o.from)) ==
            Phase(StepBack(g, o).phase, At(s, StepBack(g, o).from))
  {
    hide Pull, Act, Scale;
    var p := PrimOf(g);
    var k := PhaseOf(p.m.m11);
    var a := At(s, o.from);
    assert StepBack(g, o) == if o.from[p.target] then Origin(o.phase + k, o.from) else o;
    assert Pull(p, s, o.from) == (if o.from[p.target] then Phase(k, a) else a) by {
      PullDiagonal(p, s, o.from);
    }
    PhaseAdds(o.phase, k, a);
  }
}
