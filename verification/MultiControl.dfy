/** Multi-controlled operations with ancillas: `control_w_anc` and its helper, which
    replace one control on many qubits by controls on at most `max` qubits. */
module MultiControl {
  import opened Amplitudes
  import opened Circuits

  /** control(ctrls, e): does `body` where all of `ctrls` are 1. */
  datatype Control = Control(ctrls: seq<Qubit>, body: seq<Prim>)

  function ApplyControl(op: Control, s: State): State {
    var r := Run(op.body, s);
    map b | b in s :: if AllSet(b, op.ctrls) then At(r, b) else At(s, b)
  }

  function RunControls(ops: seq<Control>, s: State): State {
    if ops == [] then s else RunControls(ops[1..], ApplyControl(ops[0], s))
  }

  // ----- The recursive expression -----

  function XGate(q: Qubit): seq<Prim> {
    [Prim([], q, MAT_X)]
  }

  function InvertPrim(p: Prim): Prim {
    p.(m := Mat2(Conjugate(p.m.m00), Conjugate(p.m.m10), Conjugate(p.m.m01), Conjugate(p.m.m11)))
  }

  function InvertBody(ps: seq<Prim>): seq<Prim> {
    if ps == [] then [] else InvertBody(ps[1..]) + [InvertPrim(ps[0])]
  }

  /** The operator `!` : the inverses in reverse order. */
  function Invert(ops: seq<Control>): seq<Control> {
    if ops == [] then [] else Invert(ops[1..]) + [Control(ops[0].ctrls, InvertBody(ops[0].body))]
  }

  /** control_w_anc<max>(ctrls, e).  Ancillas are the qubits from `next` on, one for each
      call of the helper. */
  function ControlWAnc(max: nat, ctrls: seq<Qubit>, e: seq<Prim>, next: Qubit): seq<Control>
    requires max >= 2
    decreases |ctrls|, 1
  {
    if |ctrls| > max then ControlWAncHelper(max, ctrls, e, next) else [Control(ctrls, e)]
  }

  function ControlWAncHelper(max: nat, ctrls: seq<Qubit>, e: seq<Prim>, next: Qubit): seq<Control>
    requires max >= 2 && |ctrls| > max
    decreases |ctrls|, 0
  {
    var anc := next;
    ControlWAnc(max, ctrls[..max], XGate(anc), next + 1)
    + ControlWAnc(max, [anc] + ctrls[max..], e, next + 1)
    + Invert(ControlWAnc(max, ctrls[..max], XGate(anc), next + 1))
  }

  /** How many ancillas a call with this many controls takes. */
  function Ancillas(max: nat, n: nat): nat
    requires max >= 2
  {
    if n > max then 1 + Ancillas(max, n - max + 1) else 0
  }

  // ----- Size of the result -----

  lemma {:induction false} InvertSize(ops: seq<Control>, max: nat)
    requires forall op | op in ops :: |op.ctrls| <= max
    ensures |Invert(ops)| == |ops| && forall op | op in Invert(ops) :: |op.ctrls| <= max
  {
    if ops != [] {
      assert ops[0] in ops && forall op | op in ops[1..] :: op in ops;
      InvertSize(ops[1..], max);
    }
  }

  /** No control on more than `max` qubits, and 2a + 1 of them for a ancillas. */
  lemma {:induction false} ControlWAncSize(max: nat, ctrls: seq<Qubit>, e: seq<Prim>, next: Qubit)
    requires max >= 2
    ensures |ControlWAnc(max, ctrls, e, next)| == 2 * Ancillas(max, |ctrls|) + 1
    ensures forall op | op in ControlWAnc(max, ctrls, e, next) :: |op.ctrls| <= max
    decreases |ctrls|
  {
    if |ctrls| > max {
      var setAnc := ControlWAnc(max, ctrls[..max], XGate(next), next + 1);
      assert setAnc == [Control(ctrls[..max], XGate(next))];
      InvertSize(setAnc, max);
      ControlWAncSize(max, [next] + ctrls[max..], e, next + 1);
    }
  }

  /** a = ceil((n - max)/(max - 1)) ancillas when there are more than `max` controls. */
  lemma {:induction false} AncillaCount(max: nat, n: nat)
    requires max >= 2 && n > max
    ensures (Ancillas(max, n) - 1) * (max - 1) < n - max <= Ancillas(max, n) * (max - 1)
    decreases n
  {
    var m := n - max + 1;
    if m > max {
      AncillaCount(max, m);
      assert (Ancillas(max, n) - 1) * (max - 1) == (Ancillas(max, m) - 1) * (max - 1) + (max - 1);
    } else {
      assert Ancillas(max, m) == 0;
    }
  }

  // ----- A circuit only looks at the qubits it touches -----

  ghost predicate Within(p: Prim, t: set<Qubit>) {
    p.target in t && forall q | q in p.ctrls :: q in t
  }

  ghost predicate Touches(body: seq<Prim>, t: set<Qubit>) {
    forall p | p in body :: Within(p, t)
  }

  ghost predicate FixesZeros(m: Mat2) {
    FixesZero(m.m00) && FixesZero(m.m01) && FixesZero(m.m10) && FixesZero(m.m11)
  }

  ghost predicate FixZero(body: seq<Prim>) {
    forall p | p in body :: FixesZeros(p.m)
  }

  /** `b` with its bits in `t` taken from `x`. */
  function Over(b: Basis, x: Basis, t: set<Qubit>): (r: Basis)
    ensures |r| == |b|
  {
    seq(|b|, i requires 0 <= i < |b| => if i in t then Bit(x, i) else b[i])
  }

  ghost predicate SameEntry(t: set<Qubit>, s: State, b: Basis, s': State, c: Basis, x: Basis) {
    At(s, Over(b, x, t)) == At(s', Over(c, x, t))
  }

  /** `s` around `b` looks like `s'` around `c`, as far as the qubits in `t` go. */
  ghost predicate AlikeAt(n: nat, t: set<Qubit>, s: State, b: Basis, s': State, c: Basis) {
    forall x: Basis | |x| == n :: SameEntry(t, s, b, s', c, x)
  }

  lemma {:induction false} PutOver(b: Basis, x: Basis, t: set<Qubit>, q: Qubit, v: bool)
    requires q in t && |x| == |b|
    ensures Put(Over(b, x, t), q, v) == Over(b, Put(x, q, v), t)
    ensures Bit(Over(b, x, t), q) == Bit(x, q)
  {
  }

  lemma {:induction false} AllSetOver(b: Basis, c: Basis, x: Basis, t: set<Qubit>, qs: seq<Qubit>)
    requires |b| == |c| == |x| && forall q | q in qs :: q in t
    ensures AllSet(Over(b, x, t), qs) == AllSet(Over(c, x, t), qs)
  {
    hide Over, Bit;
    forall q | q in qs ensures Bit(Over(b, x, t), q) == Bit(Over(c, x, t), q) {
      PutOver(b, x, t, q, true);
      PutOver(c, x, t, q, true);
    }
  }

  lemma {:induction false} Alike(n: nat, t: set<Qubit>, s: State, b: Basis, s': State, c: Basis, x: Basis)
    requires AlikeAt(n, t, s, b, s', c) && |x| == n
    ensures At(s, Over(b, x, t)) == At(s', Over(c, x, t))
  {
    assert SameEntry(t, s, b, s', c, x);
  }

  lemma {:induction false} PullAlike(n: nat, t: set<Qubit>, p: Prim, s: State, b: Basis, s': State, c: Basis, x: Basis)
    requires |b| == |c| == |x| == n && AlikeAt(n, t, s, b, s', c) && Within(p, t)
    ensures Pull(p, s, Over(b, x, t)) == Pull(p, s', Over(c, x, t))
  {
    hide Act, At, Over, AlikeAt, AllSet, Bit, Put;
    AllSetOver(b, c, x, t, p.ctrls);
    Alike(n, t, s, b, s', c, x);
    PutOver(b, x, t, p.target, false);
    PutOver(c, x, t, p.target, false);
    Alike(n, t, s, b, s', c, Put(x, p.target, false));
    PutOver(b, x, t, p.target, true);
    PutOver(c, x, t, p.target, true);
    Alike(n, t, s, b, s', c, Put(x, p.target, true));
  }

  lemma {:induction false} ApplySame(n: nat, t: set<Qubit>, p: Prim, s: State, b: Basis, s': State, c: Basis, x: Basis)
    requires IsState(n, s) && IsState(n, s') && |b| == |c| == |x| == n && AlikeAt(n, t, s, b, s', c)
    requires Within(p, t)
    ensures SameEntry(t, Apply(p, s), b, Apply(p, s'), c, x)
  {
    hide Pull, Over, Apply, At, IsState, AlikeAt;
    AtApply(n, p, s, Over(b, x, t));
    AtApply(n, p, s', Over(c, x, t));
    PullAlike(n, t, p, s, b, s', c, x);
  }

  lemma {:induction false} AlikeEverywhere(n: nat, t: set<Qubit>, s: State, b: Basis, s': State, c: Basis)
    requires forall x: Basis | |x| == n :: SameEntry(t, s, b, s', c, x)
    ensures AlikeAt(n, t, s, b, s', c)
  {
  }

  lemma {:induction false} ApplyAlike(n: nat, t: set<Qubit>, p: Prim, s: State, b: Basis, s': State, c: Basis)
    requires IsState(n, s) && IsState(n, s') && |b| == |c| == n && AlikeAt(n, t, s, b, s', c)
    requires Within(p, t)
    ensures AlikeAt(n, t, Apply(p, s), b, Apply(p, s'), c)
  {
    hide *;
    forall x: Basis | |x| == n ensures SameEntry(t, Apply(p, s), b, Apply(p, s'), c, x) {
      ApplySame(n, t, p, s, b, s', c, x);
    }
    AlikeEverywhere(n, t, Apply(p, s), b, Apply(p, s'), c);
  }

  /** Two states that look alike around two basis states still do after a circuit. */
  lemma {:induction false} RunAlike(n: nat, t: set<Qubit>, body: seq<Prim>, s: State, b: Basis, s': State, c: Basis)
    requires IsState(n, s) && IsState(n, s') && |b| == |c| == n && AlikeAt(n, t, s, b, s', c)
    requires Touches(body, t)
    ensures AlikeAt(n, t, Run(body, s), b, Run(body, s'), c)
    decreases |body|
  {
    hide Apply, AlikeAt;
    if body != [] {
      assert forall p | p in body[1..] :: p in body;

      ApplyAlike(n, t, body[0], s, b, s', c);
      ApplyKeeps(n, body[0], s);
      ApplyKeeps(n, body[0], s');
      RunAlike(n, t, body[1..], Apply(body[0], s), b, Apply(body[0], s'), c);
    }
  }

  ghost predicate ZeroEntry(t: set<Qubit>, s: State, b: Basis, x: Basis) {
    At(s, Over(b, x, t)) == ZERO
  }

  ghost predicate ZeroAround(n: nat, t: set<Qubit>, s: State, b: Basis) {
    forall x: Basis | |x| == n :: ZeroEntry(t, s, b, x)
  }

  lemma {:induction false} ZeroEverywhere(n: nat, t: set<Qubit>, s: State, b: Basis)
    requires forall x: Basis | |x| == n :: ZeroEntry(t, s, b, x)
    ensures ZeroAround(n, t, s, b)
  {
  }

  lemma {:induction false} PullZero(n: nat, t: set<Qubit>, p: Prim, s: State, b: Basis, x: Basis)
    requires |b| == |x| == n && ZeroAround(n, t, s, b) && Within(p, t) && FixesZeros(p.m)
    ensures Pull(p, s, Over(b, x, t)) == ZERO
  {
    hide At, Over, Scale;
    assert ZeroEntry(t, s, b, x);
    assert ZeroEntry(t, s, b, Put(x, p.target, false)) && ZeroEntry(t, s, b, Put(x, p.target, true));
    PutOver(b, x, t, p.target, false);
    PutOver(b, x, t, p.target, true);
  }

  lemma {:induction false} ApplyZero(n: nat, t: set<Qubit>, p: Prim, s: State, b: Basis, x: Basis)
    requires IsState(n, s) && |b| == |x| == n && ZeroAround(n, t, s, b) && Within(p, t) && FixesZeros(p.m)
    ensures ZeroEntry(t, Apply(p, s), b, x)
  {
    hide Pull, Over, Apply, At, IsState, ZeroAround;
    AtApply(n, p, s, Over(b, x, t));
    PullZero(n, t, p, s, b, x);
  }

  /** No amplitude appears where there was none. */
  lemma {:induction false} RunZero(n: nat, t: set<Qubit>, body: seq<Prim>, s: State, b: Basis)
    requires IsState(n, s) && |b| == n && ZeroAround(n, t, s, b) && Touches(body, t) && FixZero(body)
    ensures ZeroAround(n, t, Run(body, s), b)
    decreases |body|
  {
    if body != [] {
      hide Apply, ZeroAround, IsState, ZeroEntry, Within, FixesZeros;
      assert forall p | p in body[1..] :: p in body;
      var p := body[0];
      forall x: Basis | |x| == n ensures ZeroEntry(t, Apply(p, s), b, x) {
        ApplyZero(n, t, p, s, b, x);
      }
      ZeroEverywhere(n, t, Apply(p, s), b);
      ApplyKeeps(n, p, s);
      RunZero(n, t, body[1..], Apply(p, s), b);
    }
  }

  // ----- The meaning of control_w_anc -----

  /** No amplitude where one of the ancillas lo..hi is 1. */
  ghost predicate AncillasZero(n: nat, s: State, lo: Qubit, hi: Qubit) {
    forall b: Basis | |b| == n && Dirty(b, lo, hi) :: At(s, b) == ZERO
  }

  ghost predicate Dirty(b: Basis, lo: Qubit, hi: Qubit) {
    exists q :: lo <= q < hi && Bit(b, q)
  }

  /** The controls, the qubits of `e` and the ancillas lo..hi are three disjoint groups
      of an n-qubit register. */
  ghost predicate Apart(n: nat, ctrls: seq<Qubit>, t: set<Qubit>, lo: Qubit, hi: Qubit) {
    && lo <= hi <= n
    && (forall q | q in ctrls :: q < n && q !in t && !(lo <= q < hi))
    && (forall q | q in t :: !(lo <= q < hi))
  }

  /** Flips `anc` where all of `a` are 1. */
  function Toggle(b: Basis, a: seq<Qubit>, anc: Qubit): Basis {
    if AllSet(b, a) then Flip(b, anc) else b
  }

  lemma {:induction false} AllSetAway(b: Basis, qs: seq<Qubit>, q: Qubit, v: bool)
    requires q !in qs
    ensures AllSet(Put(b, q, v), qs) == AllSet(b, qs)
  {
    forall p | p in qs ensures Bit(Put(b, q, v), p) == Bit(b, p) {
    }
  }

  lemma {:induction false} ToggleTwice(b: Basis, a: seq<Qubit>, anc: Qubit)
    requires anc !in a && anc < |b|
    ensures |Toggle(b, a, anc)| == |b|
    ensures AllSet(Toggle(b, a, anc), a) == AllSet(b, a)
    ensures Toggle(Toggle(b, a, anc), a, anc) == b
    ensures Bit(Toggle(b, a, anc), anc) == (Bit(b, anc) != AllSet(b, a))
  {
    AllSetAway(b, a, anc, !Bit(b, anc));
  }

  lemma {:induction false} ControlKeeps(n: nat, op: Control, s: State)
    requires IsState(n, s)
    ensures IsState(n, ApplyControl(op, s))
  {
  }

  lemma {:induction false} AtControl(n: nat, op: Control, s: State, b: Basis)
    requires IsState(n, s) && |b| == n
    ensures At(ApplyControl(op, s), b) == if AllSet(b, op.ctrls) then At(Run(op.body, s), b) else At(s, b)
  {
    hide Run;
  }

  /** A controlled X on a fresh ancilla moves the amplitudes. */
  lemma {:induction false} AtToggle(n: nat, a: seq<Qubit>, anc: Qubit, s: State, b: Basis)
    requires IsState(n, s) && |b| == n && anc < n && anc !in a
    ensures At(ApplyControl(Control(a, XGate(anc)), s), b) == At(s, Toggle(b, a, anc))
  {
    hide Apply, Act, Pull;
    var p := Prim([], anc, MAT_X);
    AtControl(n, Control(a, XGate(anc)), s, b);
    assert XGate(anc)[1..] == [] && Run([], Apply(p, s)) == Apply(p, s);
    AtApply(n, p, s, b);
    PullX(p, s, b);
  }

  lemma {:induction false} InvertToggle(a: seq<Qubit>, anc: Qubit)
    ensures Invert([Control(a, XGate(anc))]) == [Control(a, XGate(anc))]
  {
    var op, g: Prim := Control(a, XGate(anc)), Prim([], anc, MAT_X);
    assert op.body == [g] && [g][0] == g;
    assert XGate(anc)[1..] == [] && InvertBody(XGate(anc)) == InvertBody([]) + [InvertPrim(g)];
    assert InvertPrim(g) == g;
    assert InvertBody(XGate(anc)) == XGate(anc);
    assert [op][1..] == [] && Invert([op]) == Invert([]) + [Control(a, InvertBody(op.body))];
  }

  lemma {:induction false} RunControlsAppend(ops: seq<Control>, more: seq<Control>, s: State)
    ensures RunControls(ops + more, s) == RunControls(more, RunControls(ops, s))
    decreases |ops|
  {
    if ops == [] {
      assert ops + more == more;
    } else {
      hide ApplyControl;
      assert (ops + more)[1..] == ops[1..] + more;
      RunControlsAppend(ops[1..], more, ApplyControl(ops[0], s));
    }
  }

  lemma {:induction false} RunOneControl(op: Control, s: State)
    ensures RunControls([op], s) == ApplyControl(op, s)
  {
    hide ApplyControl;
    assert [op][1..] == [] && RunControls([], ApplyControl(op, s)) == ApplyControl(op, s);
  }

  /** Computing the first `max` controls into a fresh ancilla leaves the ancillas after
      it clean and apart from everything else. */
  lemma {:induction false} InnerReady(max: nat, ctrls: seq<Qubit>, t: set<Qubit>, anc: Qubit, hi: Qubit, n: nat,
          s: State)
    requires 2 <= max < |ctrls| && anc < hi && IsState(n, s)
    requires Apart(n, ctrls, t, anc, hi) && AncillasZero(n, s, anc, hi)
    ensures Apart(n, [anc] + ctrls[max..], t, anc + 1, hi)
    ensures AncillasZero(n, ApplyControl(Control(ctrls[..max], XGate(anc)), s), anc + 1, hi)
  {
    var a := ctrls[..max];
    var s1 := ApplyControl(Control(a, XGate(anc)), s);
    assert anc !in ctrls && anc !in t;
    forall q | q in [anc] + ctrls[max..] ensures q < n && q !in t && !(anc + 1 <= q < hi) {
      assert q == anc || q in ctrls;
    }
    forall b: Basis | |b| == n && Dirty(b, anc + 1, hi) ensures At(s1, b) == ZERO {
      hide ApplyControl;
      AtToggle(n, a, anc, s, b);
      ToggleTwice(b, a, anc);
      DirtyStays(b, a, anc, hi);
    }
  }

  lemma {:induction false} DirtyStays(b: Basis, a: seq<Qubit>, anc: Qubit, hi: Qubit)
    requires Dirty(b, anc + 1, hi)
    ensures Dirty(Toggle(b, a, anc), anc, hi)
  {
    var q :| anc + 1 <= q < hi && Bit(b, q);
    assert Bit(Toggle(b, a, anc), q);
  }

  /** Around `b`, the state after the ancilla is computed looks like the state before,
      around the basis state with the ancilla toggled back. */
  lemma {:induction false} ToggledAlike(n: nat, t: set<Qubit>, a: seq<Qubit>, anc: Qubit, s: State, b: Basis)
    requires IsState(n, s) && |b| == n && anc < n && anc !in a && anc !in t && forall q | q in a :: q !in t
    ensures AlikeAt(n, t, ApplyControl(Control(a, XGate(anc)), s), Toggle(b, a, anc), s, b)
  {
    var s1, d := ApplyControl(Control(a, XGate(anc)), s), Toggle(b, a, anc);
    forall x: Basis | |x| == n ensures SameEntry(t, s1, d, s, b, x) {
      hide ApplyControl, Toggle, Over;
      ToggleTwice(b, a, anc);
      AtToggle(n, a, anc, s, Over(d, x, t));
      ToggleOver(t, a, anc, d, x);
    }
  }

  lemma {:induction false} ToggleOver(t: set<Qubit>, a: seq<Qubit>, anc: Qubit, b: Basis, x: Basis)
    requires anc < |b| == |x| && anc !in a && anc !in t && forall q | q in a :: q !in t
    ensures Toggle(Over(b, x, t), a, anc) == Over(Toggle(b, a, anc), x, t)
  {
    forall q | q in a ensures Bit(Over(b, x, t), q) == Bit(b, q) {
    }
    assert AllSet(Over(b, x, t), a) == AllSet(b, a);
    assert Flip(Over(b, x, t), anc) == Over(Flip(b, anc), x, t);
  }

  /** One amplitude after the ancilla is computed, used and uncomputed. */
  lemma {:induction false} ComputeUseUncompute(max: nat, ctrls: seq<Qubit>, e: seq<Prim>, t: set<Qubit>, anc: Qubit,
          hi: Qubit,
                            n: nat, s: State, b: Basis)
    requires 2 <= max < |ctrls| && anc < hi && IsState(n, s) && |b| == n
    requires Touches(e, t) && FixZero(e) && Apart(n, ctrls, t, anc, hi) && AncillasZero(n, s, anc, hi)
    ensures var set1 := Control(ctrls[..max], XGate(anc));
            var s2 := ApplyControl(Control([anc] + ctrls[max..], e), ApplyControl(set1, s));
            At(ApplyControl(set1, s2), b) == At(ApplyControl(Control(ctrls, e), s), b)
  {
    hide Run, ApplyControl, AlikeAt, Touches, FixZero, XGate;
    var a, inner := ctrls[..max], [anc] + ctrls[max..];
    var set1 := Control(a, XGate(anc));
    var s1 := ApplyControl(set1, s);
    var s2 := ApplyControl(Control(inner, e), s1);
    var d := Toggle(b, a, anc);
    assert anc !in ctrls && anc !in t && forall q | q in a :: q in ctrls;
    ControlKeeps(n, set1, s);
    ControlKeeps(n, Control(inner, e), s1);
    ToggleTwice(b, a, anc);
    AtToggle(n, a, anc, s2, b);
    AtControl(n, Control(inner, e), s1, d);
    AtControl(n, Control(ctrls, e), s, b);
    AtToggle(n, a, anc, s, d);
    UsedAlike(n, t, e, a, anc, s, b);
    InnerControls(max, ctrls, anc, b);
    if Bit(b, anc) {
      assert Dirty(b, anc, hi);
      DirtyGivesNothing(n, t, e, anc, hi, s, b);
    }
  }

  /** `e` does to the toggled state what it does to the original one. */
  lemma {:induction false} UsedAlike(n: nat, t: set<Qubit>, e: seq<Prim>, a: seq<Qubit>, anc: Qubit, s: State, b: Basis)
    requires IsState(n, s) && |b| == n && anc < n && anc !in a && anc !in t && forall q | q in a :: q !in t
    requires Touches(e, t)
    ensures At(Run(e, ApplyControl(Control(a, XGate(anc)), s)), Toggle(b, a, anc)) == At(Run(e, s), b)
  {
    hide Run, ApplyControl, AlikeAt, Touches, Toggle, XGate;
    var s1, d := ApplyControl(Control(a, XGate(anc)), s), Toggle(b, a, anc);
    ControlKeeps(n, Control(a, XGate(anc)), s);
    ToggleTwice(b, a, anc);
    ToggledAlike(n, t, a, anc, s, b);
    RunAlike(n, t, e, s1, d, s, b);
    Alike(n, t, Run(e, s1), d, Run(e, s), b, b);
    assert Over(b, b, t) == b;
    ToggleOver(t, a, anc, b, b);
  }

  lemma {:induction false} DirtyGivesNothing(n: nat, t: set<Qubit>, e: seq<Prim>, anc: Qubit, hi: Qubit, s: State,
          b: Basis)
    requires IsState(n, s) && |b| == n && Touches(e, t) && FixZero(e) && AncillasZero(n, s, anc, hi)
    requires Dirty(b, anc, hi) && forall q | q in t :: !(anc <= q < hi)
    ensures At(s, b) == ZERO && At(Run(e, s), b) == ZERO
  {
    hide Run, Touches, FixZero;
    forall x: Basis | |x| == n ensures ZeroEntry(t, s, b, x) {
      var q :| anc <= q < hi && Bit(b, q);
      assert Bit(Over(b, x, t), q);
      assert Dirty(Over(b, x, t), anc, hi);
    }
    RunZero(n, t, e, s, b);
    assert ZeroEntry(t, Run(e, s), b, b);
    assert Over(b, b, t) == b;
  }

  /** On a clean ancilla, the inner controls fire exactly when all the controls do. */
  lemma {:induction false} InnerControls(max: nat, ctrls: seq<Qubit>, anc: Qubit, b: Basis)
    requires 2 <= max < |ctrls| && anc !in ctrls && anc < |b|
    ensures !Bit(b, anc) ==>
              AllSet(Toggle(b, ctrls[..max], anc), [anc] + ctrls[max..]) == AllSet(b, ctrls)
  {
    var a, rest := ctrls[..max], ctrls[max..];
    ToggleTwice(b, a, anc);
    AllSetAway(b, rest, anc, !Bit(b, anc));
    AllSetAppend(b, a, rest);
    AllSetAppend(Toggle(b, a, anc), [anc], rest);
    assert a + rest == ctrls;
    assert anc in [anc];
  }

  lemma {:induction false} AllSetAppend(b: Basis, qs: seq<Qubit>, rs: seq<Qubit>)
    ensures AllSet(b, qs + rs) == (AllSet(b, qs) && AllSet(b, rs))
  {
    assert forall q :: q in qs + rs <==> q in qs || q in rs;
  }

  /** control_w_anc is control: with clean ancillas, for any number of controls and any
      circuit `e` on other qubits, and it leaves the ancillas clean. */
  lemma {:induction false} ControlWAncMeaning(max: nat, ctrls: seq<Qubit>, e: seq<Prim>, t: set<Qubit>, next: Qubit,
                                              n: nat, s: State)
    requires max >= 2 && IsState(n, s) && Touches(e, t) && FixZero(e)
    requires Apart(n, ctrls, t, next, next + Ancillas(max, |ctrls|))
    requires AncillasZero(n, s, next, next + Ancillas(max, |ctrls|))
    ensures RunControls(ControlWAnc(max, ctrls, e, next), s) == ApplyControl(Control(ctrls, e), s)
    ensures AncillasZero(n, ApplyControl(Control(ctrls, e), s), next, next + Ancillas(max, |ctrls|))
    decreases |ctrls|
  {
    hide Run, ApplyControl, Apart, AncillasZero, Touches, FixZero, IsState;
    var hi := next + Ancillas(max, |ctrls|);
    StaysClean(ctrls, e, t, next, hi, n, s);
    if |ctrls| <= max {
      RunOneControl(Control(ctrls, e), s);
    } else {
      var inner, set1 := [next] + ctrls[max..], Control(ctrls[..max], XGate(next));
      var s1 := ApplyControl(set1, s);
      InnerReady(max, ctrls, t, next, hi, n, s);
      ControlKeeps(n, set1, s);
      ControlWAncMeaning(max, inner, e, t, next + 1, n, s1);
      HelperRuns(max, ctrls, e, next, s);
      Uncomputed(max, ctrls, e, t, next, hi, n, s);
    }
  }

  lemma {:induction false} StaysClean(ctrls: seq<Qubit>, e: seq<Prim>, t: set<Qubit>, lo: Qubit, hi: Qubit, n: nat,
          s: State)
    requires IsState(n, s) && Touches(e, t) && FixZero(e) && Apart(n, ctrls, t, lo, hi) && AncillasZero(n, s, lo, hi)
    ensures AncillasZero(n, ApplyControl(Control(ctrls, e), s), lo, hi)
  {
    forall b: Basis | |b| == n && Dirty(b, lo, hi) ensures At(ApplyControl(Control(ctrls, e), s), b) == ZERO {
      hide ApplyControl, Run;
      AtControl(n, Control(ctrls, e), s, b);
      DirtyGivesNothing(n, t, e, lo, hi, s, b);
    }
  }

  lemma {:induction false} HelperRuns(max: nat, ctrls: seq<Qubit>, e: seq<Prim>, anc: Qubit, s: State)
    requires 2 <= max < |ctrls|
    ensures var set1 := Control(ctrls[..max], XGate(anc));
            RunControls(ControlWAnc(max, ctrls, e, anc), s) ==
            ApplyControl(set1, RunControls(ControlWAnc(max, [anc] + ctrls[max..], e, anc + 1), ApplyControl(set1, s)))
  {
    hide ApplyControl, RunControls, XGate, Invert;
    var set1 := Control(ctrls[..max], XGate(anc));
    var mid := ControlWAnc(max, [anc] + ctrls[max..], e, anc + 1);
    assert ControlWAnc(max, ctrls[..max], XGate(anc), anc + 1) == [set1];
    InvertToggle(ctrls[..max], anc);
    assert ControlWAnc(max, ctrls, e, anc) == [set1] + mid + [set1];
    RunControlsAppend([set1] + mid, [set1], s);
    RunControlsAppend([set1], mid, s);
    RunOneControl(set1, s);
    RunOneControl(set1, RunControls(mid, ApplyControl(set1, s)));
  }

  lemma {:induction false} Uncomputed(max: nat, ctrls: seq<Qubit>, e: seq<Prim>, t: set<Qubit>, anc: Qubit, hi: Qubit,
          n: nat, s: State)
    requires 2 <= max < |ctrls| && anc < hi && IsState(n, s)
    requires Touches(e, t) && FixZero(e) && Apart(n, ctrls, t, anc, hi) && AncillasZero(n, s, anc, hi)
    ensures var set1 := Control(ctrls[..max], XGate(anc));
            ApplyControl(set1, ApplyControl(Control([anc] + ctrls[max..], e), ApplyControl(set1, s))) ==
            ApplyControl(Control(ctrls, e), s)
  {
    hide *;
    var set1 := Control(ctrls[..max], XGate(anc));
    var s1 := ApplyControl(set1, s);
    var s2 := ApplyControl(Control([anc] + ctrls[max..], e), s1);
    ControlKeeps(n, set1, s);
    ControlKeeps(n, Control([anc] + ctrls[max..], e), s1);
    ControlKeeps(n, set1, s2);
    ControlKeeps(n, Control(ctrls, e), s);
    forall b: Basis | |b| == n
      ensures At(ApplyControl(set1, s2), b) == At(ApplyControl(Control(ctrls, e), s), b)
    {
      ComputeUseUncompute(max, ctrls, e, t, anc, hi, n, s, b);
    }
    SameState(n, ApplyControl(set1, s2), ApplyControl(Control(ctrls, e), s));
  }
}
