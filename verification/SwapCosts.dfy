/** What a placement costs, and what a swap of two physical qubits changes about it. */
module SwapCosts {
  import opened Sums

  /** Program qubits and where they are. */
  type Placement = map<nat, nat>
  /** Program qubits that meet in a gate. */
  type AppGraph = map<nat, set<nat>>
  /** How far apart two physical qubits are, the smaller one first; neighbours are left out. */
  type Costs = map<(nat, nat), nat>

  ghost predicate Ordered(h: Costs) {
    forall k | k in h :: k.0 < k.1
  }

  function Sorted(i: nat, j: nat): (nat, nat) {
    if j < i then (j, i) else (i, j)
  }

  function Cost(h: Costs, i: nat, j: nat): nat {
    if Sorted(i, j) in h then h[Sorted(i, j)] else 0
  }

  function At(p: Placement, x: nat): nat {
    if x in p then p[x] else 0
  }

  function Neighbours(graph: AppGraph, x: nat): set<nat> {
    if x in graph then graph[x] else {}
  }

  ghost predicate Undirected(graph: AppGraph) {
    forall a, b | b in Neighbours(graph, a) :: a in Neighbours(graph, b)
  }

  /** Both directions of every edge. */
  ghost function Edges(graph: AppGraph): set<(nat, nat)> {
    set a, b | a in graph && b in graph[a] :: (a, b)
  }

  // ----- The value of a placement -----

  /** One edge counts in the direction in which the physical qubits go up. */
  ghost function Term(h: Costs, p: Placement): ((nat, nat)) -> int {
    (e: (nat, nat)) => if At(p, e.0) < At(p, e.1) then Cost(h, At(p, e.0), At(p, e.1)) else 0
  }

  ghost function Value(h: Costs, p: Placement, graph: AppGraph): int {
    Sum(Term(h, p), Edges(graph))
  }

  // ----- Swapping -----

  function Other(q: nat, q1: nat, q2: nat): nat {
    if q == q1 then q2 else if q == q2 then q1 else q
  }

  function Swapped(p: Placement, q1: nat, q2: nat): (r: Placement)
    ensures r.Keys == p.Keys
  {
    map x | x in p :: Other(p[x], q1, q2)
  }

  /** `back` undoes the placement. */
  ghost predicate Inverts(back: map<nat, nat>, p: Placement) {
    && (forall q | q in back :: back[q] in p && p[back[q]] == q)
    && (forall x | x in p :: p[x] in back && back[p[x]] == x)
  }

  lemma {:induction false} SwapTwice(p: Placement, q1: nat, q2: nat)
    ensures Swapped(Swapped(p, q1, q2), q1, q2) == p
  {
  }

  /** What one neighbour of a moved program qubit contributes. */
  ghost function Change(h: Costs, p: Placement, from: nat, to: nat): nat -> int {
    (b: nat) => Cost(h, to, At(p, b)) - Cost(h, from, At(p, b))
  }

  /** The contributions of the program qubit at `q1`, if there is one. */
  ghost function Moving(h: Costs, p: Placement, back: map<nat, nat>, graph: AppGraph, q1: nat, q2: nat): int {
    if q1 in back then Sum(Change(h, p, q1, q2), Neighbours(graph, back[q1])) else 0
  }

  ghost function Differential(h: Costs, p: Placement, back: map<nat, nat>, graph: AppGraph, q1: nat, q2: nat): int {
    Moving(h, p, back, graph, q1, q2) + Moving(h, p, back, graph, q2, q1)
  }

  // ----- The differential is exact -----

  function Flip(e: (nat, nat)): (nat, nat) {
    (e.1, e.0)
  }

  lemma {:induction false} FlippedEdges(graph: AppGraph)
    requires Undirected(graph)
    ensures Image(Flip, Edges(graph)) == Edges(graph)
  {
    var es := Edges(graph);
    forall e | e in es ensures Flip(e) in es {
      assert e.1 in Neighbours(graph, e.0);
      assert e.0 in Neighbours(graph, e.1);
    }
    forall e | e in es ensures e in Image(Flip, es) {
      assert Flip(Flip(e)) == e;
    }
  }

  /** Both directions. */
  ghost function Full(h: Costs, p: Placement): ((nat, nat)) -> int {
    (e: (nat, nat)) => Cost(h, At(p, e.0), At(p, e.1))
  }

  lemma {:induction false} Doubled(h: Costs, p: Placement, graph: AppGraph)
    requires Ordered(h) && Undirected(graph)
    ensures 2 * Value(h, p, graph) == Sum(Full(h, p), Edges(graph))
  {
    var es := Edges(graph);
    var flipped := (e: (nat, nat)) => Term(h, p)(Flip(e));
    FlippedEdges(graph);
    SumImage(Term(h, p), Flip, flipped, es);
    forall e | e in es ensures Full(h, p)(e) == Term(h, p)(e) + flipped(e) {
      CostsOfSwap(h, At(p, e.0), At(p, e.1), 0, 0);
    }
    SumAdds(Term(h, p), flipped, Full(h, p), es);
  }

  /** How much one direction of an edge costs more after the swap. */
  ghost function Gain(h: Costs, p: Placement, q1: nat, q2: nat): ((nat, nat)) -> int {
    (e: (nat, nat)) => Full(h, Swapped(p, q1, q2))(e) - Full(h, p)(e)
  }

  ghost predicate Moves(p: Placement, q1: nat, q2: nat, x: nat) {
    x in p && (p[x] == q1 || p[x] == q2)
  }

  ghost function EdgesFrom(graph: AppGraph, x: nat): set<(nat, nat)> {
    set e | e in Edges(graph) && e.0 == x
  }

  ghost function Leaving(p: Placement, graph: AppGraph, q1: nat, q2: nat): set<(nat, nat)> {
    set e | e in Edges(graph) && Moves(p, q1, q2, e.0)
  }

  ghost function Outgoing(p: Placement, graph: AppGraph, q1: nat, q2: nat): set<(nat, nat)> {
    set e | e in Edges(graph) && Moves(p, q1, q2, e.0) && !Moves(p, q1, q2, e.1)
  }

  ghost predicate Swappable(h: Costs, p: Placement, back: map<nat, nat>, graph: AppGraph, q1: nat, q2: nat) {
    && Ordered(h) && Undirected(graph) && Inverts(back, p) && q1 != q2 && Cost(h, q1, q2) == 0
    && graph.Keys <= p.Keys
  }

  lemma {:induction false} GainOf(h: Costs, p: Placement, back: map<nat, nat>, graph: AppGraph, q1: nat, q2: nat,
                                  e: (nat, nat))
    requires Swappable(h, p, back, graph, q1, q2) && e in Edges(graph)
    ensures Gain(h, p, q1, q2)(Flip(e)) == Gain(h, p, q1, q2)(e)
    ensures Moves(p, q1, q2, e.0) == Moves(p, q1, q2, e.1) ==> Gain(h, p, q1, q2)(e) == 0
    ensures e.0 in p && p[e.0] == q1 ==> Gain(h, p, q1, q2)(e) == Change(h, p, q1, q2)(e.1)
    ensures e.0 in p && p[e.0] == q2 ==> Gain(h, p, q1, q2)(e) == Change(h, p, q2, q1)(e.1)
  {
    assert e.1 in Neighbours(graph, e.0);
    assert e.0 in Neighbours(graph, e.1);
    assert e.0 in p && e.1 in p;
    hide Cost;
    var i, j := p[e.0], p[e.1];
    GainAt(h, p, q1, q2, e.0, e.1);
    GainAt(h, p, q1, q2, e.1, e.0);
    CostsOfSwap(h, i, j, q1, q2);
    CostsOfSwap(h, j, i, q1, q2);
    CostsOfSwap(h, Other(i, q1, q2), Other(j, q1, q2), q1, q2);
  }

  lemma {:induction false} GainAt(h: Costs, p: Placement, q1: nat, q2: nat, x: nat, y: nat)
    requires x in p && y in p
    ensures Gain(h, p, q1, q2)((x, y)) == Cost(h, Other(p[x], q1, q2), Other(p[y], q1, q2)) - Cost(h, p[x], p[y])
  {
    hide Cost;
    var s := Swapped(p, q1, q2);
    assert At(s, x) == Other(p[x], q1, q2) && At(s, y) == Other(p[y], q1, q2);
    assert Full(h, s)((x, y)) == Cost(h, At(s, x), At(s, y));
    assert Full(h, p)((x, y)) == Cost(h, At(p, x), At(p, y));
  }

  lemma {:induction false} CostsOfSwap(h: Costs, i: nat, j: nat, q1: nat, q2: nat)
    requires Ordered(h) && (Cost(h, q1, q2) == 0 || q1 == q2)
    ensures Cost(h, i, j) == Cost(h, j, i) && Cost(h, i, i) == 0 && Cost(h, q2, q1) == 0
  {
    assert Sorted(i, i) !in h;
    assert Sorted(q2, q1) == Sorted(q1, q2);
  }

  /** Every edge leaves the moved qubits, or its other direction does, or it does not count. */
  lemma {:induction false} EdgesByMoves(p: Placement, graph: AppGraph, q1: nat, q2: nat)
    requires Undirected(graph)
    ensures var es, out := Edges(graph), Outgoing(p, graph, q1, q2);
            && out <= es && Image(Flip, out) <= es && out !! Image(Flip, out)
            && out <= Leaving(p, graph, q1, q2) <= es
            && (forall e | e in es - out - Image(Flip, out) :: Moves(p, q1, q2, e.0) == Moves(p, q1, q2, e.1))
            && (forall e | e in Leaving(p, graph, q1, q2) - out :: Moves(p, q1, q2, e.0) == Moves(p, q1, q2, e.1))
  {
    hide Moves;
    var es, out := Edges(graph), Outgoing(p, graph, q1, q2);
    FlippedEdges(graph);
    forall e | e in out ensures Flip(e) in es {
      assert Flip(e) in Image(Flip, es);
    }
    forall e | e in es - out - Image(Flip, out) ensures Moves(p, q1, q2, e.0) == Moves(p, q1, q2, e.1) {
      assert Flip(e) in Image(Flip, es);
      assert e == Flip(Flip(e));
    }
  }

  /** Edges that leave a moved qubit, and those that lead to one, make all the difference. */
  lemma {:induction false} GainFromLeaving(h: Costs, p: Placement, back: map<nat, nat>, graph: AppGraph, q1: nat,
                                           q2: nat)
    requires Swappable(h, p, back, graph, q1, q2)
    ensures Sum(Gain(h, p, q1, q2), Edges(graph)) == 2 * Sum(Gain(h, p, q1, q2), Leaving(p, graph, q1, q2))
  {
    hide Gain, Moves, Edges, Outgoing, Leaving;
    var g, es, out := Gain(h, p, q1, q2), Edges(graph), Outgoing(p, graph, q1, q2);
    var leaving, into := Leaving(p, graph, q1, q2), Image(Flip, out);
    EdgesByMoves(p, graph, q1, q2);
    forall e | e in es
      ensures g(Flip(e)) == g(e)
      ensures Moves(p, q1, q2, e.0) == Moves(p, q1, q2, e.1) ==> g(e) == 0
    {
      GainOf(h, p, back, graph, q1, q2, e);
    }
    hide Image, Flip;
    FlippedSum(g, out);
    var rest := es - out - into;
    SumZero(g, rest);
    assert es == (out + into) + rest;
    SumSplit(g, out + into, rest);
    SumSplit(g, out, into);
    SumZero(g, leaving - out);
    assert leaving == out + (leaving - out);
    SumSplit(g, out, leaving - out);
  }

  lemma {:induction false} FlippedSum(g: ((nat, nat)) -> int, s: set<(nat, nat)>)
    requires forall e | e in s :: g(Flip(e)) == g(e)
    ensures Sum(g, Image(Flip, s)) == Sum(g, s)
  {
    SumImage(g, Flip, g, s);
  }

  lemma {:induction false} SumFrom(f: ((nat, nat)) -> int, c: nat -> int, graph: AppGraph, x: nat)
    requires forall b | b in Neighbours(graph, x) :: c(b) == f((x, b))
    ensures Sum(f, EdgesFrom(graph, x)) == Sum(c, Neighbours(graph, x))
  {
    var pair: nat -> (nat, nat) := b => (x, b);
    assert EdgesFrom(graph, x) == Image(pair, Neighbours(graph, x));
    SumImage(f, pair, c, Neighbours(graph, x));
  }

  /** The edges from the program qubit at `q1`. */
  ghost function FromPlace(graph: AppGraph, back: map<nat, nat>, q1: nat): set<(nat, nat)> {
    if q1 in back then EdgesFrom(graph, back[q1]) else {}
  }

  lemma {:induction false} GainFromPlace(h: Costs, p: Placement, back: map<nat, nat>, graph: AppGraph, q1: nat,
                                         q2: nat)
    requires Swappable(h, p, back, graph, q1, q2)
    ensures Sum(Gain(h, p, q1, q2), FromPlace(graph, back, q1)) == Moving(h, p, back, graph, q1, q2)
    ensures Sum(Gain(h, p, q1, q2), FromPlace(graph, back, q2)) == Moving(h, p, back, graph, q2, q1)
  {
    hide Gain, Change;
    var g := Gain(h, p, q1, q2);
    if q1 in back {
      forall b | b in Neighbours(graph, back[q1]) ensures Change(h, p, q1, q2)(b) == g((back[q1], b)) {
        GainOf(h, p, back, graph, q1, q2, (back[q1], b));
      }
      SumFrom(g, Change(h, p, q1, q2), graph, back[q1]);
    }
    if q2 in back {
      forall b | b in Neighbours(graph, back[q2]) ensures Change(h, p, q2, q1)(b) == g((back[q2], b)) {
        GainOf(h, p, back, graph, q1, q2, (back[q2], b));
      }
      SumFrom(g, Change(h, p, q2, q1), graph, back[q2]);
    }
  }

  lemma {:induction false} LeavingIs(p: Placement, back: map<nat, nat>, graph: AppGraph, q1: nat, q2: nat)
    requires Inverts(back, p) && q1 != q2
    ensures Leaving(p, graph, q1, q2) == FromPlace(graph, back, q1) + FromPlace(graph, back, q2)
    ensures FromPlace(graph, back, q1) !! FromPlace(graph, back, q2)
  {
  }

  /** The differential is what the swap adds to the value. */
  lemma {:induction false} DifferentialIsExact(h: Costs, p: Placement, back: map<nat, nat>, graph: AppGraph, q1: nat,
                                               q2: nat)
    requires Swappable(h, p, back, graph, q1, q2)
    ensures Value(h, Swapped(p, q1, q2), graph) == Value(h, p, graph) + Differential(h, p, back, graph, q1, q2)
  {
    hide Value, Full, Leaving, Moving, Swapped, Inverts, FromPlace;
    var g, es := Gain(h, p, q1, q2), Edges(graph);
    Doubled(h, p, graph);
    Doubled(h, Swapped(p, q1, q2), graph);
    SumAdds(Full(h, p), g, Full(h, Swapped(p, q1, q2)), es);
    hide Gain;
    GainFromLeaving(h, p, back, graph, q1, q2);
    LeavingIs(p, back, graph, q1, q2);
    SumSplit(g, FromPlace(graph, back, q1), FromPlace(graph, back, q2));
    GainFromPlace(h, p, back, graph, q1, q2);
  }

  // ----- Differentials that are kept from one swap to the next -----

  /** Swapping back takes away what the swap has added. */
  lemma {:induction false} SwapBack(h: Costs, p: Placement, back: map<nat, nat>, after: map<nat, nat>, graph: AppGraph,
                                    q1: nat, q2: nat)
    requires Swappable(h, p, back, graph, q1, q2) && Inverts(after, Swapped(p, q1, q2))
    ensures Differential(h, Swapped(p, q1, q2), after, graph, q1, q2) == -Differential(h, p, back, graph, q1, q2)
  {
    hide Value, Differential, Swapped, Inverts;
    DifferentialIsExact(h, p, back, graph, q1, q2);
    DifferentialIsExact(h, Swapped(p, q1, q2), after, graph, q1, q2);
    SwapTwice(p, q1, q2);
  }

  /** The program qubit at a place, and those that it meets. */
  function NearPlace(back: map<nat, nat>, graph: AppGraph, q: nat): set<nat> {
    if q in back then {back[q]} + Neighbours(graph, back[q]) else {}
  }

  /** After a swap: the two places, and where the moved program qubits and those that they
      meet are. */
  function Affected(p: Placement, back: map<nat, nat>, graph: AppGraph, q1: nat, q2: nat): set<nat> {
    (set x | x in NearPlace(back, graph, q1) + NearPlace(back, graph, q2) :: At(p, x)) + {q1, q2}
  }

  lemma {:induction false} FarNeighbour(p: Placement, back: map<nat, nat>, after: map<nat, nat>, graph: AppGraph,
                                        q1: nat, q2: nat, q: nat, b: nat)
    requires Undirected(graph) && graph.Keys <= p.Keys && Inverts(back, p) && Inverts(after, Swapped(p, q1, q2))
    requires q !in Affected(Swapped(p, q1, q2), after, graph, q1, q2)
    requires q in back && b in Neighbours(graph, back[q])
    ensures q in after && after[q] == back[q] && At(Swapped(p, q1, q2), b) == At(p, b)
  {
    var r, x := Swapped(p, q1, q2), back[q];
    assert p[x] == q && q != q1 && q != q2;
    assert r[x] == q;
    assert x in Neighbours(graph, b);
    assert b in p;
  }

  lemma {:induction false} FarPlace(p: Placement, back: map<nat, nat>, after: map<nat, nat>, q1: nat, q2: nat, q: nat)
    requires Inverts(back, p) && Inverts(after, Swapped(p, q1, q2)) && q != q1 && q != q2
    ensures (q in after <==> q in back) && (q in back ==> after[q] == back[q])
  {
    var r := Swapped(p, q1, q2);
    if q in back {
      assert r[back[q]] == q;
    }
    if q in after {
      assert p[after[q]] == q;
    }
  }

  /** Away from the affected places a swap changes no differential. */
  lemma {:induction false} FarDifferential(h: Costs, p: Placement, back: map<nat, nat>, after: map<nat, nat>,
                                           graph: AppGraph, q1: nat, q2: nat, q3: nat, q4: nat)
    requires Undirected(graph) && graph.Keys <= p.Keys && Inverts(back, p) && Inverts(after, Swapped(p, q1, q2))
    requires q3 !in Affected(Swapped(p, q1, q2), after, graph, q1, q2)
    requires q4 !in Affected(Swapped(p, q1, q2), after, graph, q1, q2)
    ensures Differential(h, Swapped(p, q1, q2), after, graph, q3, q4) == Differential(h, p, back, graph, q3, q4)
  {
    FarMoving(h, p, back, after, graph, q1, q2, q3, q4);
    FarMoving(h, p, back, after, graph, q1, q2, q4, q3);
  }

  lemma {:induction false} FarMoving(h: Costs, p: Placement, back: map<nat, nat>, after: map<nat, nat>,
                                     graph: AppGraph, q1: nat, q2: nat, q3: nat, q4: nat)
    requires Undirected(graph) && graph.Keys <= p.Keys && Inverts(back, p) && Inverts(after, Swapped(p, q1, q2))
    requires q3 !in Affected(Swapped(p, q1, q2), after, graph, q1, q2)
    ensures Moving(h, Swapped(p, q1, q2), after, graph, q3, q4) == Moving(h, p, back, graph, q3, q4)
  {
    FarPlace(p, back, after, q1, q2, q3);
    if q3 in back {
      hide Swapped, Inverts, Affected, Cost, At;
      var r := Swapped(p, q1, q2);
      forall b | b in Neighbours(graph, back[q3]) ensures Change(h, r, q3, q4)(b) == Change(h, p, q3, q4)(b) {
        FarNeighbour(p, back, after, graph, q1, q2, q3, b);
      }
      SumSame(Change(h, r, q3, q4), Change(h, p, q3, q4), Neighbours(graph, back[q3]));
    }
  }
}
