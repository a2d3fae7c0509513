/** Teleportation mapped over lists of qubits: bell00 on every pair, then alice on
    every source, then bob on every target. */
module Teleport {
  import opened Amplitudes
  import opened Circuits

  /** One position of the lists: the source, the two halves of a pair, the two
      measurement outcomes, and what the pair was found in when it was prepared. */
  datatype Wire = Wire(q: Qubit, a: Qubit, b: Qubit, x: bool, y: bool, ma: bool, mb: bool)

  function Bell00(w: Wire): seq<Prim> {
    [PrepZ(w.a, w.ma), PrepZ(w.b, w.mb), Hadamard(w.a), CNot(w.a, w.b)]
  }

  function Alice(w: Wire): seq<Prim> {
    [CNot(w.q, w.a), Hadamard(w.q), MeasZ(w.q, w.x), MeasZ(w.a, w.y)]
  }

  /** cIf(y, _X(b), identity()) + cIf(x, _Z(b), identity()) */
  function Bob(w: Wire): seq<Prim> {
    (if w.y then [Prim([], w.b, MAT_X)] else []) + (if w.x then [Prim([], w.b, MAT_Z)] else [])
  }

  /** map(f, lists...) : f on the heads, then map on the tails. */
  function Map(f: Wire -> seq<Prim>, ws: seq<Wire>): seq<Prim> {
    if ws == [] then [] else f(ws[0]) + Map(f, ws[1..])
  }

  function Teleportation(ws: seq<Wire>): seq<Prim> {
    Map(Bell00, ws) + Map(Alice, ws) + Map(Bob, ws)
  }

  // ----- The qubits of a list are all different -----

  ghost predicate Proper(w: Wire, n: nat) {
    w.q < n && w.a < n && w.b < n && w.q != w.a && w.q != w.b && w.a != w.b
  }

  ghost predicate Uses(w: Wire, p: Qubit) {
    p == w.q || p == w.a || p == w.b
  }

  ghost predicate Unused(ws: seq<Wire>, p: Qubit) {
    forall i | 0 <= i < |ws| :: !Uses(ws[i], p)
  }

  ghost predicate Distinct(ws: seq<Wire>, n: nat) {
    ws != [] ==>
      && Proper(ws[0], n)
      && Unused(ws[1..], ws[0].q) && Unused(ws[1..], ws[0].a) && Unused(ws[1..], ws[0].b)
      && Distinct(ws[1..], n)
  }

  // ----- Basis states the amplitudes come from -----

  function HalveN(k: nat, a: Amp): Amp {
    if k == 0 then a else Halve(HalveN(k - 1, a))
  }

  function Signed(minus: bool, a: Amp): Amp {
    if minus then Neg(a) else a
  }

  /** What the pairs were found in. */
  function Reset(c: Basis, ws: seq<Wire>): (r: Basis)
    ensures |r| == |c|
  {
    if ws == [] then c else Put(Put(Reset(c, ws[1..]), ws[0].b, ws[0].mb), ws[0].a, ws[0].ma)
  }

  ghost predicate Correlated(c: Basis, ws: seq<Wire>) {
    forall i | 0 <= i < |ws| :: Bit(c, ws[i].a) == Bit(c, ws[i].b)
  }

  /** Before alice: the source holds y + b, and its pair is correlated. */
  function BeforeAlice(c: Basis, ws: seq<Wire>): (r: Basis)
    ensures |r| == |c|
  {
    if ws == [] then c
    else
      var d := BeforeAlice(c, ws[1..]);
      Put(Put(d, ws[0].q, ws[0].y != Bit(d, ws[0].b)), ws[0].a, Bit(d, ws[0].b))
  }

  function AliceSign(c: Basis, ws: seq<Wire>): bool {
    if ws == [] then false
    else (ws[0].x && ws[0].y != Bit(c, ws[0].b)) != AliceSign(c, ws[1..])
  }

  function BeforeBob(c: Basis, ws: seq<Wire>): (r: Basis)
    ensures |r| == |c|
  {
    if ws == [] then c
    else
      var d := BeforeBob(c, ws[1..]);
      Put(d, ws[0].b, Bit(d, ws[0].b) != ws[0].y)
  }

  function BobSign(c: Basis, ws: seq<Wire>): bool {
    if ws == [] then false else (ws[0].x && Bit(c, ws[0].b)) != BobSign(c, ws[1..])
  }

  /** The measured qubits show the outcomes. */
  ghost predicate Measured(c: Basis, ws: seq<Wire>) {
    forall i | 0 <= i < |ws| :: Bit(c, ws[i].q) == ws[i].x && Bit(c, ws[i].a) == ws[i].y
  }

  /** The start: the bit of the target was on the source. */
  function Source(c: Basis, ws: seq<Wire>): (r: Basis)
    ensures |r| == |c|
  {
    if ws == [] then c
    else Put(Put(Put(Source(c, ws[1..]), ws[0].q, Bit(c, ws[0].b)), ws[0].a, ws[0].ma), ws[0].b, ws[0].mb)
  }

  // ----- Frames -----

  lemma {:induction false} Frames(c: Basis, ws: seq<Wire>, p: Qubit)
    requires Unused(ws, p)
    ensures Bit(Reset(c, ws), p) == Bit(c, p) && Bit(BeforeAlice(c, ws), p) == Bit(c, p)
    ensures Bit(BeforeBob(c, ws), p) == Bit(c, p) && Bit(Source(c, ws), p) == Bit(c, p)
    decreases |ws|
  {
    if ws != [] {
      assert !Uses(ws[0], p);
      assert forall i | 0 <= i < |ws[1..]| :: ws[1..][i] == ws[i + 1];
      Frames(c, ws[1..], p);
    }
  }

  // ----- One turn of the recursions -----

  lemma {:induction false} DistinctUnfolds(ws: seq<Wire>, n: nat)
    requires ws != [] && Distinct(ws, n)
    ensures var w, tail := ws[0], ws[1..];
            Proper(w, n) && Distinct(tail, n) && Unused(tail, w.q) && Unused(tail, w.a) && Unused(tail, w.b)
  {
    hide Unused;
  }

  lemma {:induction false} AliceUnfolds(c: Basis, ws: seq<Wire>)
    requires ws != []
    ensures var d := BeforeAlice(c, ws[1..]);
            BeforeAlice(c, ws) == Put(Put(d, ws[0].q, ws[0].y != Bit(d, ws[0].b)), ws[0].a, Bit(d, ws[0].b))
  {
    hide Put;
  }

  lemma {:induction false} ResetUnfolds(c: Basis, ws: seq<Wire>)
    requires ws != []
    ensures Reset(c, ws) == Put(Put(Reset(c, ws[1..]), ws[0].b, ws[0].mb), ws[0].a, ws[0].ma)
  {
    hide Put;
  }

  lemma {:induction false} BobUnfolds(c: Basis, ws: seq<Wire>)
    requires ws != []
    ensures var d := BeforeBob(c, ws[1..]);
            BeforeBob(c, ws) == Put(d, ws[0].b, Bit(d, ws[0].b) != ws[0].y)
            && BobSign(c, ws) == ((ws[0].x && Bit(c, ws[0].b)) != BobSign(c, ws[1..]))
  {
    hide Put;
  }

  lemma {:induction false} SourceUnfolds(c: Basis, ws: seq<Wire>)
    requires ws != []
    ensures var w, tail := ws[0], ws[1..];
            Source(c, ws) == Put(Put(Put(Source(c, tail), w.q, Bit(c, w.b)), w.a, w.ma), w.b, w.mb)
  {
    hide Put;
  }

  // ----- One position -----

  lemma {:induction false} PrepsAt(n: nat, w: Wire, s: State, c: Basis)
    requires IsState(n, s) && |c| == n && Proper(w, n)
    ensures var s2 := Apply(PrepZ(w.b, w.mb), Apply(PrepZ(w.a, w.ma), s));
            IsState(n, s2) &&
            At(s2, c) == if c[w.a] || c[w.b] then ZERO else At(s, Put(Put(c, w.b, w.mb), w.a, w.ma))
  {
    hide Apply, IsState;
    ApplyKeeps(n, PrepZ(w.a, w.ma), s);
    ApplyKeeps(n, PrepZ(w.b, w.mb), Apply(PrepZ(w.a, w.ma), s));
    AtPrep(n, w.b, w.mb, Apply(PrepZ(w.a, w.ma), s), c);
    AtPrep(n, w.a, w.ma, s, Put(c, w.b, w.mb));
  }

  lemma {:induction false} BellBits(w: Wire, c: Basis)
    requires Proper(w, |c|)
    ensures var d := if c[w.a] then Flip(c, w.b) else c;
            var d0 := Put(d, w.a, false);
            d[w.a] == c[w.a] && !d0[w.a] && d0[w.b] == (c[w.a] != c[w.b]) && Put(d, w.a, true)[w.a] &&
            Put(Put(d0, w.b, w.mb), w.a, w.ma) == Put(Put(c, w.b, w.mb), w.a, w.ma)
  {
  }

  lemma {:induction false} BellAt(n: nat, w: Wire, s: State, c: Basis)
    requires IsState(n, s) && |c| == n && Proper(w, n)
    ensures IsState(n, Run(Bell00(w), s))
    ensures At(Run(Bell00(w), s), c) ==
            if c[w.a] != c[w.b] then ZERO else Halve(At(s, Put(Put(c, w.b, w.mb), w.a, w.ma)))
  {
    hide Apply, Superpose, Halve, IsState, Run, At, Put, Flip;
    var s2 := Apply(PrepZ(w.b, w.mb), Apply(PrepZ(w.a, w.ma), s));
    var s3 := Apply(Hadamard(w.a), s2);
    var d := if c[w.a] then Flip(c, w.b) else c;
    var d0, d1 := Put(d, w.a, false), Put(d, w.a, true);
    BellBits(w, c);
    PrepsAt(n, w, s, d0);
    PrepsAt(n, w, s, d1);
    ApplyKeeps(n, Hadamard(w.a), s2);
    ApplyKeeps(n, CNot(w.a, w.b), s3);
    RunFour(Bell00(w), s);
    AtCNot(n, w.a, w.b, s3, c);
    AtHadamard(n, w.a, s2, d);
    SuperposeZero(d[w.a], At(s2, d0));
    ZeroIsFixed();
  }

  lemma {:induction false} RunFour(ps: seq<Prim>, s: State)
    requires |ps| == 4
    ensures Run(ps, s) == Apply(ps[3], Apply(ps[2], Apply(ps[1], Apply(ps[0], s))))
  {
    hide Apply;
    assert ps[1..][1..] == ps[2..] && ps[2..][1..] == ps[3..] && ps[3..][1..] == [];
    var s2 := Apply(ps[1], Apply(ps[0], s));
    assert Run(ps[2..], s2) == Run(ps[3..], Apply(ps[2], s2));
    assert Run(ps[3..], Apply(ps[2], s2)) == Run([], Apply(ps[3], Apply(ps[2], s2)));
  }

  lemma {:induction false} AliceAt(n: nat, w: Wire, s: State, c: Basis)
    requires IsState(n, s) && |c| == n && Proper(w, n)
    ensures IsState(n, Run(Alice(w), s))
    ensures At(Run(Alice(w), s), c) ==
            if c[w.q] != w.x || c[w.a] != w.y then ZERO
            else Superpose(w.x, At(s, Put(c, w.q, false)), At(s, Put(Put(c, w.q, true), w.a, !w.y)))
  {
    hide Apply, Superpose, IsState, Run;
    var s1 := Apply(CNot(w.q, w.a), s);
    var s2 := Apply(Hadamard(w.q), s1);
    var s3 := Apply(MeasZ(w.q, w.x), s2);
    ApplyKeeps(n, CNot(w.q, w.a), s);
    ApplyKeeps(n, Hadamard(w.q), s1);
    ApplyKeeps(n, MeasZ(w.q, w.x), s2);
    ApplyKeeps(n, MeasZ(w.a, w.y), s3);
    RunFour(Alice(w), s);
    AtMeas(n, w.a, w.y, s3, c);
    AtMeas(n, w.q, w.x, s2, c);
    AtHadamard(n, w.q, s1, c);
    AtCNot(n, w.q, w.a, s, Put(c, w.q, false));
    AtCNot(n, w.q, w.a, s, Put(c, w.q, true));
    assert c[w.a] == w.y ==> Flip(Put(c, w.q, true), w.a) == Put(Put(c, w.q, true), w.a, !w.y);
  }

  lemma {:induction false} BobAt(n: nat, w: Wire, s: State, c: Basis)
    requires IsState(n, s) && |c| == n && Proper(w, n)
    ensures IsState(n, Run(Bob(w), s))
    ensures At(Run(Bob(w), s), c) == Signed(w.x && c[w.b], At(s, Put(c, w.b, c[w.b] != w.y)))
  {
    hide Apply, IsState, Neg;
    var px, pz := Prim([], w.b, MAT_X), Prim([], w.b, MAT_Z);
    assert Put(c, w.b, c[w.b]) == c;
    AtX(n, w.b, s, c);
    AtZ(n, w.b, s, c);
    AtZ(n, w.b, Apply(px, s), c) by {
      ApplyKeeps(n, px, s);
    }
    ApplyKeeps(n, px, s);
    ApplyKeeps(n, pz, s);
    ApplyKeeps(n, pz, Apply(px, s));
    assert Run([pz], s) == Run([pz][1..], Apply(pz, s));
    assert [px, pz][1..] == [pz] && [pz][1..] == [] && [px][1..] == [];
    assert Run([px, pz], s) == Run([pz], Apply(px, s));
    assert Run([pz], Apply(px, s)) == Run([], Apply(pz, Apply(px, s)));
  }

  // ----- Factors and signs -----

  lemma {:induction false} HalveNLaws(k: nat, minus: bool, a: Amp)
    ensures HalveN(k, ZERO) == ZERO && HalveN(k, Halve(a)) == HalveN(k + 1, a)
    ensures HalveN(k, Signed(minus, a)) == Signed(minus, HalveN(k, a))
  {
    hide Halve, Neg;
    if k > 0 {
      HalveNLaws(k - 1, minus, a);
      NegLaws(HalveN(k - 1, a));
    }
    ZeroIsFixed();
  }

  lemma {:induction false} HalveTwice(j: nat, k: nat, a: Amp)
    ensures HalveN(j, HalveN(k, a)) == HalveN(j + k, a)
    decreases j
  {
    if j > 0 {
      HalveTwice(j - 1, k, a);
    }
  }

  lemma {:induction false} SignedTwice(s: bool, t: bool, a: Amp)
    ensures Signed(s, Signed(t, a)) == Signed(s != t, a) && Signed(s, ZERO) == ZERO
  {
    hide Neg;
    NegLaws(a);
    ZeroIsFixed();
  }

  // ----- The three maps -----

  lemma {:induction false} MapStep(f: Wire -> seq<Prim>, ws: seq<Wire>, s: State)
    requires ws != []
    ensures Run(Map(f, ws), s) == Run(Map(f, ws[1..]), Run(f(ws[0]), s))
  {
    RunAppend(f(ws[0]), Map(f, ws[1..]), s);
  }

  lemma {:induction false} CorrelatedStep(c: Basis, ws: seq<Wire>)
    requires ws != []
    ensures Correlated(c, ws) == (Bit(c, ws[0].a) == Bit(c, ws[0].b) && Correlated(c, ws[1..]))
    ensures Measured(c, ws) == (Bit(c, ws[0].q) == ws[0].x && Bit(c, ws[0].a) == ws[0].y && Measured(c, ws[1..]))
  {
    assert forall i | 0 <= i < |ws[1..]| :: ws[1..][i] == ws[i + 1];
    assert forall i | 1 <= i < |ws| :: ws[i] == ws[1..][i - 1];
  }

  lemma {:induction false} BellsAt(n: nat, ws: seq<Wire>, s: State, c: Basis)
    requires IsState(n, s) && |c| == n && Distinct(ws, n)
    ensures IsState(n, Run(Map(Bell00, ws), s))
    ensures At(Run(Map(Bell00, ws), s), c) ==
            if Correlated(c, ws) then HalveN(|ws|, At(s, Reset(c, ws))) else ZERO
    decreases |ws|
  {
    if ws != [] {
      hide Run, Bell00, Map, HalveN, IsState, Correlated, Halve, Reset, Distinct, At;
      var w, tail := ws[0], ws[1..];
      var d := Reset(c, tail);
      DistinctUnfolds(ws, n);
      ResetUnfolds(c, ws);
      MapStep(Bell00, ws, s);
      BellAt(n, w, s, d);
      BellsAt(n, tail, Run(Bell00(w), s), c);
      Frames(c, tail, w.a);
      Frames(c, tail, w.b);
      CorrelatedStep(c, ws);
      HalveNLaws(|tail|, false, At(s, Reset(c, ws)));
    }
  }

  lemma {:induction false} BobsAt(n: nat, ws: seq<Wire>, s: State, c: Basis)
    requires IsState(n, s) && |c| == n && Distinct(ws, n)
    ensures IsState(n, Run(Map(Bob, ws), s))
    ensures At(Run(Map(Bob, ws), s), c) == Signed(BobSign(c, ws), At(s, BeforeBob(c, ws)))
    decreases |ws|
  {
    if ws != [] {
      hide Run, Bob, Map, IsState, Signed, Distinct, BeforeBob, At;
      var w, tail := ws[0], ws[1..];
      var d := BeforeBob(c, tail);
      DistinctUnfolds(ws, n);
      BobUnfolds(c, ws);
      MapStep(Bob, ws, s);
      BobAt(n, w, s, d);
      BobsAt(n, tail, Run(Bob(w), s), c);
      Frames(c, tail, w.b);
      SignedTwice(BobSign(c, tail), w.x && d[w.b], At(s, BeforeBob(c, ws)));
    }
  }

  /** No amplitude where some pair is not correlated. */
  ghost predicate CorrelatedState(n: nat, ws: seq<Wire>, s: State) {
    forall d: Basis | |d| == n && !Correlated(d, ws) :: At(s, d) == ZERO
  }

  lemma {:induction false} StaysCorrelated(n: nat, ws: seq<Wire>, s: State)
    requires ws != [] && IsState(n, s) && Distinct(ws, n) && CorrelatedState(n, ws, s)
    ensures CorrelatedState(n, ws[1..], Run(Alice(ws[0]), s))
  {
    hide Run, Alice, Correlated, At, IsState;
    forall d: Basis | |d| == n && !Correlated(d, ws[1..]) ensures At(Run(Alice(ws[0]), s), d) == ZERO {
      UncorrelatedStays(n, ws, s, d);
    }
  }

  lemma {:induction false} UncorrelatedStays(n: nat, ws: seq<Wire>, s: State, d: Basis)
    requires ws != [] && IsState(n, s) && Distinct(ws, n) && CorrelatedState(n, ws, s)
    requires |d| == n && !Correlated(d, ws[1..])
    ensures At(Run(Alice(ws[0]), s), d) == ZERO
  {
    hide *;
    HeadProper(n, ws);
    AliceAt(n, ws[0], s, d);
    BothBranchesEmpty(n, ws, s, d);
    SuperposeZero(ws[0].x, ZERO);
    ZeroIsFixed();
  }

  lemma {:induction false} HeadProper(n: nat, ws: seq<Wire>)
    requires ws != [] && Distinct(ws, n)
    ensures Proper(ws[0], n)
  {
  }

  lemma {:induction false} BothBranchesEmpty(n: nat, ws: seq<Wire>, s: State, d: Basis)
    requires ws != [] && Distinct(ws, n) && CorrelatedState(n, ws, s)
    requires |d| == n && !Correlated(d, ws[1..])
    ensures At(s, Put(d, ws[0].q, false)) == ZERO
    ensures At(s, Put(Put(d, ws[0].q, true), ws[0].a, !ws[0].y)) == ZERO
  {
    hide Correlated, At, Put, Unused;
    var w, tail := ws[0], ws[1..];
    CorrelatedAway(d, false, true, w, tail);
    CorrelatedAway(d, true, !w.y, w, tail);
    CorrelatedStep(Put(d, w.q, false), ws);
    CorrelatedStep(Put(Put(d, w.q, true), w.a, !w.y), ws);
  }

  lemma {:induction false} CorrelatedAway(c: Basis, u: bool, v: bool, w: Wire, ws: seq<Wire>)
    requires Proper(w, |c|) && Unused(ws, w.q) && Unused(ws, w.a)
    ensures Correlated(Put(c, w.q, u), ws) == Correlated(c, ws)
    ensures Correlated(Put(Put(c, w.q, u), w.a, v), ws) == Correlated(c, ws)
  {
    var d, e := Put(c, w.q, u), Put(Put(c, w.q, u), w.a, v);
    forall i | 0 <= i < |ws|
      ensures Bit(d, ws[i].a) == Bit(c, ws[i].a) && Bit(d, ws[i].b) == Bit(c, ws[i].b)
      ensures Bit(e, ws[i].a) == Bit(c, ws[i].a) && Bit(e, ws[i].b) == Bit(c, ws[i].b)
    {
      assert !Uses(ws[i], w.q) && !Uses(ws[i], w.a);
    }
  }

  /** At one position, a correlated pair leaves one of alice's two branches. */
  lemma {:induction false} OneBranch(n: nat, w: Wire, ws: seq<Wire>, s: State, e: Basis)
    requires IsState(n, s) && |e| == n && Proper(w, n) && ws != [] && ws[0] == w && CorrelatedState(n, ws, s)
    requires e[w.a] == w.y
    ensures Superpose(w.x, At(s, Put(e, w.q, false)), At(s, Put(Put(e, w.q, true), w.a, !w.y))) ==
            Halve(Signed(w.x && w.y != e[w.b], At(s, Put(Put(e, w.q, w.y != e[w.b]), w.a, e[w.b]))))
  {
    hide Superpose, Halve, At, Correlated, Neg;
    var e0, e1 := Put(e, w.q, false), Put(Put(e, w.q, true), w.a, !w.y);
    CorrelatedStep(e0, ws);
    CorrelatedStep(e1, ws);
    if w.y == e[w.b] {
      assert Put(e0, w.a, e[w.b]) == e0;
      SuperposeZero(w.x, At(s, e0));
    } else {
      SuperposeZero(w.x, At(s, e1));
      NegLaws(At(s, e1));
    }
  }

  lemma {:induction false} AlicesAt(n: nat, ws: seq<Wire>, s: State, c: Basis)
    requires IsState(n, s) && |c| == n && Distinct(ws, n) && CorrelatedState(n, ws, s)
    ensures IsState(n, Run(Map(Alice, ws), s))
    ensures At(Run(Map(Alice, ws), s), c) ==
            if Measured(c, ws) then HalveN(|ws|, Signed(AliceSign(c, ws), At(s, BeforeAlice(c, ws)))) else ZERO
    decreases |ws|
  {
    hide Run, Alice, Map, HalveN, IsState, Measured, CorrelatedState, Halve, Superpose, Signed, At;
    hide Distinct, BeforeAlice, AliceSign;
    if ws == [] {
      NoAlice(ws, s, c);
    } else {
      DistinctUnfolds(ws, n);
      var w, tail := ws[0], ws[1..];
      var e := BeforeAlice(c, tail);
      MapStep(Alice, ws, s);
      AliceAt(n, w, s, e);
      StaysCorrelated(n, ws, s);
      AlicesAt(n, tail, Run(Alice(w), s), c);
      Frames(c, tail, w.q);
      Frames(c, tail, w.a);
      Frames(c, tail, w.b);
      CorrelatedStep(c, ws);
      CollectAlice(n, ws, s, c);
    }
  }

  lemma {:induction false} NoAlice(ws: seq<Wire>, s: State, c: Basis)
    requires ws == []
    ensures Run(Map(Alice, ws), s) == s && Measured(c, ws)
    ensures HalveN(|ws|, Signed(AliceSign(c, ws), At(s, BeforeAlice(c, ws)))) == At(s, c)
  {
  }

  lemma {:induction false} CollectAlice(n: nat, ws: seq<Wire>, s: State, c: Basis)
    requires ws != [] && IsState(n, s) && |c| == n && Distinct(ws, n) && CorrelatedState(n, ws, s)
    ensures var e, k := BeforeAlice(c, ws[1..]), |ws| - 1;
            var a := Superpose(ws[0].x, At(s, Put(e, ws[0].q, false)),
                               At(s, Put(Put(e, ws[0].q, true), ws[0].a, !ws[0].y)));
            && HalveN(k, Signed(AliceSign(c, ws[1..]), ZERO)) == ZERO
            && (c[ws[0].a] == ws[0].y ==>
                 HalveN(k, Signed(AliceSign(c, ws[1..]), a)) ==
                 HalveN(|ws|, Signed(AliceSign(c, ws), At(s, BeforeAlice(c, ws)))))
  {
    hide HalveN, IsState, CorrelatedState, Halve, Superpose, Signed, At;
    var w, tail, k := ws[0], ws[1..], |ws| - 1;
    var e, sign := BeforeAlice(c, tail), AliceSign(c, tail);
    var mine := w.x && w.y != c[w.b];
    var v := At(s, BeforeAlice(c, ws));
    Frames(c, tail, w.a);
    Frames(c, tail, w.b);
    SignedTwice(sign, mine, v);
    HalveNLaws(k, sign, ZERO);
    if c[w.a] == w.y {
      OneBranch(n, w, ws, s, e);
      HalveNLaws(k, sign, Halve(Signed(mine, v)));
      HalveNLaws(k, sign, Signed(mine, v));
      HalveNLaws(|ws|, sign, Signed(mine, v));
    }
  }

  // ----- Putting the three maps together -----

  lemma {:induction false} BobBits(c: Basis, ws: seq<Wire>, i: nat)
    requires i < |ws| && Distinct(ws, |c|)
    ensures Bit(BeforeBob(c, ws), ws[i].b) == (Bit(c, ws[i].b) != ws[i].y)
    ensures Bit(BeforeBob(c, ws), ws[i].q) == Bit(c, ws[i].q) && Bit(BeforeBob(c, ws), ws[i].a) == Bit(c, ws[i].a)
    decreases |ws|
  {
    hide Distinct, BeforeBob;
    var tail := ws[1..];
    DistinctUnfolds(ws, |c|);
    BobUnfolds(c, ws);
    if i == 0 {
      Frames(c, tail, ws[0].b);
      Frames(c, tail, ws[0].q);
      Frames(c, tail, ws[0].a);
    } else {
      BobBits(c, tail, i - 1);
      assert !Uses(tail[i - 1], ws[0].b);
    }
  }

  lemma {:induction false} AliceBits(c: Basis, ws: seq<Wire>, i: nat)
    requires i < |ws| && Distinct(ws, |c|)
    ensures Bit(BeforeAlice(c, ws), ws[i].b) == Bit(c, ws[i].b) == Bit(BeforeAlice(c, ws), ws[i].a)
    ensures Bit(BeforeAlice(c, ws), ws[i].q) == (ws[i].y != Bit(c, ws[i].b))
    decreases |ws|
  {
    hide Distinct, BeforeAlice;
    var w, tail := ws[0], ws[1..];
    DistinctUnfolds(ws, |c|);
    AliceUnfolds(c, ws);
    if i == 0 {
      Frames(c, tail, w.b);
    } else {
      AliceBits(c, tail, i - 1);
      assert !Uses(tail[i - 1], w.q) && !Uses(tail[i - 1], w.a);
    }
  }

  lemma {:induction false} ResetBits(c: Basis, ws: seq<Wire>, i: nat)
    requires i < |ws| && Distinct(ws, |c|)
    ensures Bit(Reset(c, ws), ws[i].a) == ws[i].ma && Bit(Reset(c, ws), ws[i].b) == ws[i].mb
    ensures Bit(Reset(c, ws), ws[i].q) == Bit(c, ws[i].q)
    decreases |ws|
  {
    hide Distinct, Reset;
    var w, tail := ws[0], ws[1..];
    DistinctUnfolds(ws, |c|);
    ResetUnfolds(c, ws);
    if i == 0 {
      Frames(c, tail, w.q);
    } else {
      ResetBits(c, tail, i - 1);
      assert !Uses(tail[i - 1], w.a) && !Uses(tail[i - 1], w.b);
    }
  }

  lemma {:induction false} SourceBits(c: Basis, ws: seq<Wire>, i: nat)
    requires i < |ws| && Distinct(ws, |c|)
    ensures Bit(Source(c, ws), ws[i].a) == ws[i].ma && Bit(Source(c, ws), ws[i].b) == ws[i].mb
    ensures Bit(Source(c, ws), ws[i].q) == Bit(c, ws[i].b)
    decreases |ws|
  {
    hide Source, Distinct;
    DistinctUnfolds(ws, |c|);
    SourceUnfolds(c, ws);
    if i > 0 {
      var w, tail := ws[0], ws[1..];
      SourceBits(c, tail, i - 1);
      assert !Uses(tail[i - 1], w.a) && !Uses(tail[i - 1], w.b) && !Uses(tail[i - 1], w.q);
    }
  }

  /** Read backwards through bob, alice and bell00, a basis state ends where the bit of
      each target is on its source. */
  lemma {:induction false} BackToSource(c: Basis, ws: seq<Wire>)
    requires Distinct(ws, |c|)
    ensures Reset(BeforeAlice(BeforeBob(c, ws), ws), ws) == Source(c, ws)
  {
    hide Reset, BeforeAlice, BeforeBob, Source;
    var c1 := BeforeBob(c, ws);
    var c2 := BeforeAlice(c1, ws);
    forall p | 0 <= p < |c| ensures Reset(c2, ws)[p] == Source(c, ws)[p] {
      if Unused(ws, p) {
        Frames(c, ws, p);
        Frames(c1, ws, p);
        Frames(c2, ws, p);
      } else {
        var i :| 0 <= i < |ws| && Uses(ws[i], p);
        BobBits(c, ws, i);
        AliceBits(c1, ws, i);
        ResetBits(c2, ws, i);
        SourceBits(c, ws, i);
      }
      assert Bit(Reset(c2, ws), p) == Bit(Source(c, ws), p);
    }
  }

  lemma {:induction false} SignsAgree(c: Basis, d: Basis, ws: seq<Wire>)
    requires forall i | 0 <= i < |ws| :: Bit(d, ws[i].b) == (Bit(c, ws[i].b) != ws[i].y)
    ensures AliceSign(d, ws) == BobSign(c, ws)
    decreases |ws|
  {
    if ws != [] {
      assert forall i | 0 <= i < |ws[1..]| :: ws[1..][i] == ws[i + 1];
      SignsAgree(c, d, ws[1..]);
    }
  }

  lemma {:induction false} BellsCorrelate(n: nat, ws: seq<Wire>, s: State)
    requires IsState(n, s) && Distinct(ws, n)
    ensures CorrelatedState(n, ws, Run(Map(Bell00, ws), s))
  {
    hide Run, Map, Bell00, Correlated, At, IsState;
    forall d: Basis | |d| == n && !Correlated(d, ws) ensures At(Run(Map(Bell00, ws), s), d) == ZERO {
      BellsAt(n, ws, s, d);
    }
  }

  lemma {:induction false} InThreeMaps(ws: seq<Wire>, s: State)
    ensures Run(Teleportation(ws), s) == Run(Map(Bob, ws), Run(Map(Alice, ws), Run(Map(Bell00, ws), s)))
  {
    hide Run, Map;
    RunAppend(Map(Bell00, ws) + Map(Alice, ws), Map(Bob, ws), s);
    RunAppend(Map(Bell00, ws), Map(Alice, ws), s);
  }

  /** Teleportation: for every number of positions, every state of all the qubits and
      every vector of outcomes, the amplitude that had the bits on the sources now has
      them on the targets, the other qubits are untouched, and the factor 2^-N does not
      depend on the state. */
  lemma {:induction false} Teleported(n: nat, ws: seq<Wire>, s: State, c: Basis)
    requires IsState(n, s) && |c| == n && Distinct(ws, n)
    ensures At(Run(Teleportation(ws), s), c) ==
            if Measured(c, ws) then HalveN(2 * |ws|, At(s, Source(c, ws))) else ZERO
  {
    hide Run, Map, Bell00, Alice, Bob, HalveN, IsState, At, Reset, BeforeAlice, BeforeBob, Source, Signed,
         AliceSign, BobSign, CorrelatedState, Teleportation;
    var sB := Run(Map(Bell00, ws), s);
    var sA := Run(Map(Alice, ws), sB);
    var c1 := BeforeBob(c, ws);
    var c2 := BeforeAlice(c1, ws);
    InThreeMaps(ws, s);
    BellsCorrelate(n, ws, s);
    BellsAt(n, ws, s, c2);
    AlicesAt(n, ws, sB, c1);
    BobsAt(n, ws, sA, c);
    BackToSource(c, ws);
    forall i | 0 <= i < |ws|
      ensures Bit(c1, ws[i].b) == (Bit(c, ws[i].b) != ws[i].y)
      ensures Bit(c1, ws[i].q) == Bit(c, ws[i].q) && Bit(c1, ws[i].a) == Bit(c, ws[i].a)
      ensures Bit(c2, ws[i].a) == Bit(c2, ws[i].b)
    {
      BobBits(c, ws, i);
      AliceBits(c1, ws, i);
    }
    SignsAgree(c, c1, ws);
    assert Correlated(c2, ws);
    assert Measured(c1, ws) == Measured(c, ws);
    SignsCancel(|ws|, BobSign(c, ws), At(s, Source(c, ws)));
  }

  lemma {:induction false} SignsCancel(k: nat, sign: bool, a: Amp)
    ensures Signed(sign, HalveN(k, Signed(sign, HalveN(k, a)))) == HalveN(2 * k, a)
    ensures Signed(sign, ZERO) == ZERO
  {
    hide HalveN, Neg;
    HalveNLaws(k, sign, HalveN(k, a));
    SignedTwice(sign, sign, HalveN(k, HalveN(k, a)));
    HalveTwice(k, k, a);
  }
}
