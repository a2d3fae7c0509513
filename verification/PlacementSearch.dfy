/** The local search for a placement.  It swaps physical qubits that are next to each other
    and keeps, from one swap to the next, what every further swap would change. */
module PlacementSearch {
  import opened Options
  import opened Sums
  import opened QubitMaps
  import opened SwapCosts

  /** How far physical qubits are from each other, and which are next to one. */
  datatype Machine = Machine(distance: (nat, nat) -> nat, connected: nat -> seq<nat>)

  /** Distances less 1, as unsigned integers. */
  function SwapHeuristic(m: Machine, pair: (nat, nat)): nat {
    var d := m.distance(pair.0, pair.1);
    if d == 0 then 0xFFFF_FFFF else d - 1
  }

  /** Of the qubits to use, those at distance 1 are the ones that are connected. */
  ghost predicate WellWired(m: Machine, phys: seq<nat>) {
    forall a, b | a in phys && b in phys && a != b :: b in m.connected(a) <==> SwapHeuristic(m, Sorted(a, b)) == 0
  }

  // ----- The tables -----

  /** The costs of the pairs in a set. */
  ghost function CostsOn(m: Machine, seen: set<(nat, nat)>): Costs {
    map k | k in seen && SwapHeuristic(m, k) > 0 :: SwapHeuristic(m, k)
  }

  /** The pairs of qubits to use, up to the j-th partner of the i-th. */
  ghost function FreePairs(phys: seq<nat>, i: nat, j: nat): set<(nat, nat)> {
    set x, y | 0 <= x < y < |phys| && (x < i || (x == i && y < j)) :: (phys[x], phys[y])
  }

  /** The pairs of one of the first `i` and a fixed qubit. */
  ghost function FixedPairs(phys: seq<nat>, i: nat, fixed: Placement): set<(nat, nat)> {
    set x, p | 0 <= x < i && x < |phys| && p in fixed :: Sorted(phys[x], fixed[p])
  }

  /** All pairs whose cost may change when a qubit is moved. */
  ghost function AllPairs(phys: seq<nat>, fixed: Placement): set<(nat, nat)> {
    FreePairs(phys, |phys|, 0) + FixedPairs(phys, |phys|, fixed)
  }

  /** The pairs that may be swapped, each at its index. */
  ghost predicate Indexed(m: Machine, seen: set<(nat, nat)>, pairs: seq<(nat, nat)>, index: map<(nat, nat), nat>) {
    && (forall k :: k in index <==> k in seen && SwapHeuristic(m, k) == 0)
    && (forall k | k in index :: index[k] < |pairs| && pairs[index[k]] == k)
    && (forall i | 0 <= i < |pairs| :: pairs[i] in index && index[pairs[i]] == i)
  }

  lemma {:induction false} NextPair(m: Machine, seen: set<(nat, nat)>, k: (nat, nat), pairs: seq<(nat, nat)>,
                                    index: map<(nat, nat), nat>)
    requires Indexed(m, seen, pairs, index) && k !in seen
    ensures SwapHeuristic(m, k) == 0 ==> Indexed(m, seen + {k}, pairs + [k], index[k := |pairs|])
    ensures SwapHeuristic(m, k) > 0 ==> Indexed(m, seen + {k}, pairs, index)
  {
  }

  lemma {:induction false} NextCost(m: Machine, seen: set<(nat, nat)>, k: (nat, nat))
    ensures CostsOn(m, seen + {k}) ==
            if SwapHeuristic(m, k) > 0 then CostsOn(m, seen)[k := SwapHeuristic(m, k)] else CostsOn(m, seen)
  {
  }

  lemma {:induction false} NextFreePair(phys: seq<nat>, i: nat, j: nat)
    requires Ascending(phys) && i < j < |phys|
    ensures FreePairs(phys, i, j + 1) == FreePairs(phys, i, j) + {(phys[i], phys[j])}
    ensures (phys[i], phys[j]) !in FreePairs(phys, i, j)
  {
  }

  lemma {:induction false} RowOfPairs(phys: seq<nat>, i: nat)
    requires i < |phys|
    ensures FreePairs(phys, i, i + 1) == FreePairs(phys, i, 0)
    ensures FreePairs(phys, i, |phys|) == FreePairs(phys, i + 1, 0)
    ensures FreePairs(phys, 0, 0) == {}
  {
  }

  lemma {:induction false} RowOfFixed(phys: seq<nat>, i: nat, fixed: Placement, left: set<nat>, p: nat)
    requires i < |phys| && left <= fixed.Keys && p in left
    ensures FixedPairs(phys, i, fixed) + FixedRow(phys, i, fixed, left - {p}) ==
            FixedPairs(phys, i, fixed) + FixedRow(phys, i, fixed, left) + {Sorted(phys[i], fixed[p])}
  {
  }

  /** The pairs of the i-th and the fixed qubits that are not left. */
  ghost function FixedRow(phys: seq<nat>, i: nat, fixed: Placement, left: set<nat>): set<(nat, nat)>
    requires i < |phys|
  {
    set p | p in fixed && p !in left :: Sorted(phys[i], fixed[p])
  }

  // ----- Placements -----

  ghost predicate DistinctIds(s: seq<nat>) {
    forall i, j | 0 <= i < j < |s| :: s[i] != s[j]
  }

  /** Every program qubit is on a physical qubit of its own, one of those to use unless it is
      fixed. */
  ghost predicate Assigns(p: Placement, programs: seq<nat>, phys: seq<nat>, fixed: Placement) {
    && p.Keys == fixed.Keys + Elements(programs)
    && (forall x | x in fixed :: p[x] == fixed[x])
    && (forall x | x in programs :: x in p && p[x] in phys)
    && OneToOne(p)
  }

  /** The program qubits on the physical ones in the same order. */
  function InOrder(programs: seq<nat>, places: seq<nat>, fixed: Placement): Placement
    requires |programs| <= |places|
    decreases |programs|
  {
    if programs == [] then fixed
    else
      var n := |programs| - 1;
      InOrder(programs[..n], places, fixed)[programs[n] := places[n]]
  }

  /** What the search is asked for. */
  ghost predicate Asked(programs: seq<nat>, phys: seq<nat>, fixed: Placement, graph: AppGraph, m: Machine) {
    && DistinctIds(programs) && Ascending(phys) && OneToOne(fixed) && |programs| <= |phys|
    && (forall x | x in programs :: x !in fixed) && (forall x | x in fixed :: fixed[x] !in phys)
    && Undirected(graph) && graph.Keys <= fixed.Keys + Elements(programs) && WellWired(m, phys)
  }

  /** The physical qubits that are next to no other. */
  ghost function LonelyQubits(m: Machine, phys: seq<nat>): set<nat> {
    set q | q in phys && Lonely(m, phys, q)
  }

  ghost predicate Lonely(m: Machine, phys: seq<nat>, q: nat) {
    forall b | b in phys && b != q :: SwapHeuristic(m, Sorted(q, b)) > 0
  }

  datatype Iteration =
    Solved(placement: Placement) | Idle | Moved(next: Placement, cost: int, checks: seq<nat>, kept: map<nat, int>)
  datatype SearchStep = Continue(best: Placement, bestCost: int) | Finished(placement: Placement) | Stuck

  ghost predicate StepGood(h: Costs, step: SearchStep, best0: Placement, programs: seq<nat>, phys: seq<nat>,
                           fixed: Placement, graph: AppGraph)
  {
    match step
    case Continue(best, bestCost) =>
      Assigns(best, programs, phys, fixed) && bestCost == Value(h, best, graph) <= Value(h, best0, graph)
    case Finished(placement) => Assigns(placement, programs, phys, fixed) && Value(h, placement, graph) == 0
    case Stuck => true
  }

  lemma {:induction false} AscendingIsDistinct(s: seq<nat>)
    requires Ascending(s)
    ensures DistinctIds(s)
  {
  }

  lemma {:induction false} AskedMeans(programs: seq<nat>, phys: seq<nat>, fixed: Placement, graph: AppGraph, m: Machine)
    requires Asked(programs, phys, fixed, graph, m)
    ensures DistinctIds(programs) && DistinctIds(phys) && Ascending(phys) && OneToOne(fixed) && |programs| <= |phys|
    ensures forall x | x in programs :: x !in fixed
    ensures forall x | x in fixed :: fixed[x] !in phys
    ensures Undirected(graph) && graph.Keys <= fixed.Keys + Elements(programs) && WellWired(m, phys)
  {
  }

  lemma {:induction false} AssignsMeans(p: Placement, programs: seq<nat>, phys: seq<nat>, fixed: Placement,
                                        graph: AppGraph)
    requires Assigns(p, programs, phys, fixed) && graph.Keys <= fixed.Keys + Elements(programs)
    ensures OneToOne(p) && graph.Keys <= p.Keys
  {
  }

  lemma {:induction false} PlacedInOrder(programs: seq<nat>, places: seq<nat>, phys: seq<nat>, fixed: Placement)
    requires DistinctIds(programs) && DistinctIds(places) && OneToOne(fixed) && |programs| <= |places|
    requires (forall x | x in programs :: x !in fixed) && (forall x | x in fixed :: fixed[x] !in phys)
    requires forall q | q in places :: q in phys
    ensures Assigns(InOrder(programs, places, fixed), programs, phys, fixed)
    ensures var p := InOrder(programs, places, fixed);
            forall x | x in programs :: x in p && p[x] in places[..|programs|]
    decreases |programs|
  {
    hide Assigns;
    if programs != [] {
      var n := |programs| - 1;
      var front, last, q := programs[..n], programs[n], places[n];
      FrontOf(programs, places, n);
      PlacedInOrder(front, places, phys, fixed);
      var p := InOrder(front, places, fixed);
      OnePlaced(p, front, last, q, places[..n], phys, fixed);
    } else {
      NonePlaced(phys, fixed);
    }
  }

  lemma {:induction false} NonePlaced(phys: seq<nat>, fixed: Placement)
    requires OneToOne(fixed)
    ensures Assigns(fixed, [], phys, fixed)
  {
  }

  lemma {:induction false} FrontOf(programs: seq<nat>, places: seq<nat>, n: nat)
    requires n < |programs| <= |places| && n + 1 == |programs| && DistinctIds(programs) && DistinctIds(places)
    ensures programs == programs[..n] + [programs[n]] && places[..n + 1] == places[..n] + [places[n]]
    ensures DistinctIds(programs[..n]) && programs[n] !in programs[..n] && places[n] !in places[..n]
    ensures programs[n] in programs && places[n] in places && forall x | x in programs[..n] :: x in programs
  {
  }

  lemma {:induction false} OnePlaced(p: Placement, front: seq<nat>, last: nat, q: nat, taken: seq<nat>, phys: seq<nat>,
                                     fixed: Placement)
    requires Assigns(p, front, phys, fixed) && last !in fixed && last !in front && q in phys && q !in taken
    requires (forall x | x in front :: x in p && p[x] in taken) && forall x | x in fixed :: fixed[x] !in phys
    ensures Assigns(p[last := q], front + [last], phys, fixed)
    ensures forall x | x in front + [last] :: x in p[last := q] && p[last := q][x] in taken + [q]
  {
    assert forall x | x in p :: p[x] != q;
    assert Elements(front + [last]) == Elements(front) + {last};
  }

  /** A swap of two qubits to use keeps all that. */
  lemma {:induction false} SwapAssigns(p: Placement, programs: seq<nat>, phys: seq<nat>, fixed: Placement, q1: nat,
                                       q2: nat)
    requires Assigns(p, programs, phys, fixed) && q1 in phys && q2 in phys
    requires forall x | x in fixed :: fixed[x] !in phys
    ensures Assigns(Swapped(p, q1, q2), programs, phys, fixed)
  {
  }

  lemma {:induction false} PairIsFree(m: Machine, phys: seq<nat>, fixed: Placement, q1: nat, q2: nat)
    requires Ascending(phys) && forall x | x in fixed :: fixed[x] !in phys
    requires q1 < q2 && SwapHeuristic(m, (q1, q2)) == 0
    ensures Ordered(CostsOn(m, AllPairs(phys, fixed))) && Cost(CostsOn(m, AllPairs(phys, fixed)), q1, q2) == 0
  {
    hide SwapHeuristic;
  }

  /** The table has the pairs of a qubit to use with any other or with a fixed one, and no
      pair of fixed ones. */
  lemma {:induction false} TableCosts(m: Machine, phys: seq<nat>, fixed: Placement, a: nat, b: nat)
    requires Ascending(phys) && (forall x | x in fixed :: fixed[x] !in phys) && a < b
    ensures var h := CostsOn(m, AllPairs(phys, fixed));
            && (a in phys && (b in phys || b in fixed.Values) ==> Cost(h, a, b) == SwapHeuristic(m, (a, b)))
            && (b in phys && (a in phys || a in fixed.Values) ==> Cost(h, a, b) == SwapHeuristic(m, (a, b)))
            && (a !in phys && b !in phys ==> Cost(h, a, b) == 0)
  {
    hide SwapHeuristic;
    assert Sorted(a, b) == (a, b) == Sorted(b, a);
    if a in phys && b in phys {
      SortedIsFree(phys, a, b);
    } else if a in phys && b in fixed.Values {
      MixedPair(phys, fixed, a, b);
    } else if b in phys && a in fixed.Values {
      MixedPair(phys, fixed, b, a);
    }
  }

  lemma {:induction false} MixedPair(phys: seq<nat>, fixed: Placement, a: nat, b: nat)
    requires a in phys && b in fixed.Values
    ensures Sorted(a, b) in FixedPairs(phys, |phys|, fixed)
  {
    var i :| 0 <= i < |phys| && phys[i] == a;
    var x :| x in fixed && fixed[x] == b;
    assert Sorted(phys[i], fixed[x]) in FixedPairs(phys, |phys|, fixed);
  }

  /** What an edge of the program costs: the distance of its places less 1, in the direction
      in which they go up, and nothing if both are fixed. */
  lemma {:induction false} EdgeCosts(programs: seq<nat>, phys: seq<nat>, fixed: Placement, graph: AppGraph, m: Machine,
                                     p: Placement, x: nat, y: nat)
    requires Asked(programs, phys, fixed, graph, m) && Assigns(p, programs, phys, fixed) && (x, y) in Edges(graph)
    ensures x in p && y in p
    ensures Term(CostsOn(m, AllPairs(phys, fixed)), p)((x, y)) ==
            if p[x] < p[y] && (x !in fixed || y !in fixed) then
              if m.distance(p[x], p[y]) == 0 then 0xFFFF_FFFF else m.distance(p[x], p[y]) - 1
            else 0
  {
    hide CostsOn, AllPairs, Cost, Ascending, WellWired;
    AskedMeans(programs, phys, fixed, graph, m);
    assert x in Neighbours(graph, y) by {
      assert y in Neighbours(graph, x);
    }
    if p[x] < p[y] {
      TableCosts(m, phys, fixed, p[x], p[y]);
    }
  }

  /** The pairs at an index may be swapped. */
  lemma {:induction false} MaySwap(m: Machine, programs: seq<nat>, phys: seq<nat>, fixed: Placement, graph: AppGraph,
                                   pairs: seq<(nat, nat)>, index: map<(nat, nat), nat>, p: Placement,
                                   back: map<nat, nat>, k: nat)
    requires Indexed(m, FreePairs(phys, |phys|, 0), pairs, index) && Asked(programs, phys, fixed, graph, m)
    requires k < |pairs| && Inverts(back, p) && Assigns(p, programs, phys, fixed)
    ensures var (q1, q2) := pairs[k];
            && q1 < q2 && Swappable(CostsOn(m, AllPairs(phys, fixed)), p, back, graph, q1, q2)
            && Assigns(Swapped(p, q1, q2), programs, phys, fixed)
            && (q1, q2) in index && index[(q1, q2)] == k
  {
    hide Assigns, Swapped, Inverts, CostsOn, AllPairs, FreePairs, WellWired, Undirected, Ascending, Cost, Ordered;
    var (q1, q2) := pairs[k];
    assert pairs[k] in index && index[pairs[k]] == k;
    hide Indexed;
    PairIsWired(m, phys, pairs, index, k);
    PairIsFree(m, phys, fixed, q1, q2);
    AssignsMeans(p, programs, phys, fixed, graph);
    SwapAssigns(p, programs, phys, fixed, q1, q2);
  }

  method PlaceInOrder(programQubits: seq<nat>, places: seq<nat>, fixed: Placement) returns (placement: Placement)
    requires |programQubits| <= |places|
    ensures placement == InOrder(programQubits, places, fixed)
  {
    placement := fixed;
    var i := 0;
    while i < |programQubits|
      invariant 0 <= i <= |programQubits| && placement == InOrder(programQubits[..i], places, fixed)
    {
      assert programQubits[..i + 1][..i] == programQubits[..i];
      placement := placement[programQubits[i] := places[i]];
      i := i + 1;
    }
    assert programQubits[..i] == programQubits;
  }

  /** A random permutation: every entry from the back is exchanged with one before it. */
  method Shuffle(s: seq<nat>) returns (t: seq<nat>)
    requires DistinctIds(s)
    ensures |t| == |s| && DistinctIds(t) && forall x :: x in t <==> x in s
  {
    t := s;
    var i := |t|;
    while i > 1
      invariant 0 <= i <= |t| == |s| && DistinctIds(t) && forall x :: x in t <==> x in s
    {
      i := i - 1;
      var j: nat :| j <= i;
      Exchange(t, i, j);
      t := t[i := t[j]][j := t[i]];
    }
  }

  /** As many of the physical qubits as are needed, in any order. */
  method RandomPlacement(programQubits: seq<nat>, physicalQubits: seq<nat>, fixed: Placement)
    returns (placement: Placement)
    requires DistinctIds(programQubits) && DistinctIds(physicalQubits) && OneToOne(fixed)
    requires |programQubits| <= |physicalQubits|
    requires (forall x | x in programQubits :: x !in fixed) && (forall x | x in fixed :: fixed[x] !in physicalQubits)
    ensures Assigns(placement, programQubits, physicalQubits, fixed)
  {
    hide Assigns;
    var startingSubset := Shuffle(physicalQubits);
    assert forall x | x in startingSubset[..|programQubits|] :: x in physicalQubits;
    startingSubset := Shuffle(startingSubset[..|programQubits|]);
    placement := PlaceInOrder(programQubits, startingSubset, fixed);
    PlacedInOrder(programQubits, startingSubset, physicalQubits, fixed);
  }

  lemma {:induction false} Exchange(t: seq<nat>, i: nat, j: nat)
    requires i < |t| && j < |t| && DistinctIds(t)
    ensures var r := t[i := t[j]][j := t[i]]; DistinctIds(r) && forall x :: x in r <==> x in t
  {
    var r := t[i := t[j]][j := t[i]];
    forall x | x in t ensures x in r {
      var k :| 0 <= k < |t| && t[k] == x;
      assert r[if k == i then j else if k == j then i else k] == x;
    }
  }

  lemma {:induction false} ValueIsNat(h: Costs, p: Placement, graph: AppGraph)
    ensures Value(h, p, graph) >= 0
  {
    SumIsNat(Term(h, p), Edges(graph));
  }

  // ----- The differentials that are kept -----

  ghost predicate Touches(pair: (nat, nat), places: set<nat>) {
    pair.0 in places || pair.1 in places
  }

  /** The differentials are right, but for those that are to be checked. */
  ghost predicate Right(h: Costs, pairs: seq<(nat, nat)>, p: Placement, back: map<nat, nat>, graph: AppGraph,
                        diff: map<nat, int>, checks: seq<nat>) {
    forall k | k in diff ::
      k < |pairs| && (k !in checks ==> diff[k] == Differential(h, p, back, graph, pairs[k].0, pairs[k].1))
  }

  /** There is one, or it is to be checked, for each pair that is in use. */
  ghost predicate Covering(pairs: seq<(nat, nat)>, back: map<nat, nat>, diff: map<nat, int>, checks: seq<nat>) {
    && (forall k | k in checks :: k < |pairs|)
    && (forall k: nat | k < |pairs| :: (k in diff || k in checks) <==> Touches(pairs[k], back.Keys))
  }

  lemma {:induction false} CheckedNext(h: Costs, pairs: seq<(nat, nat)>, p: Placement, back: map<nat, nat>,
                                       graph: AppGraph, diff: map<nat, int>, checks: seq<nat>, i: nat, d: int)
    requires i < |checks| && checks[i] < |pairs| && Right(h, pairs, p, back, graph, diff, checks[i..])
    requires d == Differential(h, p, back, graph, pairs[checks[i]].0, pairs[checks[i]].1)
    ensures Right(h, pairs, p, back, graph, diff[checks[i] := d], checks[i + 1..])
  {
    hide Differential;
    assert checks[i..] == [checks[i]] + checks[i + 1..];
  }

  /** All pairs in use are to be checked at first. */
  lemma {:induction false} ChecksCover(pairs: seq<(nat, nat)>, p: Placement, back: map<nat, nat>, checks: seq<nat>,
                                       h: Costs, graph: AppGraph)
    requires Inverts(back, p) && forall k: nat :: k in checks <==> k < |pairs| && Touches(pairs[k], p.Values)
    ensures Right(h, pairs, p, back, graph, map[], checks) && Covering(pairs, back, map[], checks)
  {
    assert back.Keys == p.Values;
  }

  lemma {:induction false} CoveringMeans(pairs: seq<(nat, nat)>, back: map<nat, nat>, diff: map<nat, int>,
                                         checks: seq<nat>)
    requires Covering(pairs, back, diff, checks)
    ensures forall k | k in checks :: k < |pairs|
  {
  }

  lemma {:induction false} CheckedIsInUse(pairs: seq<(nat, nat)>, back: map<nat, nat>, diff: map<nat, int>,
                                          checks: seq<nat>, k: nat)
    requires Covering(pairs, back, diff, checks) && (k in checks || (k in diff && k < |pairs|))
    ensures k < |pairs| && Touches(pairs[k], back.Keys)
  {
    hide Touches;
  }

  lemma {:induction false} Rechecked(pairs: seq<(nat, nat)>, back: map<nat, nat>, before: map<nat, int>,
                                     checks: seq<nat>, after: map<nat, int>)
    requires Covering(pairs, back, before, checks)
    requires forall k: nat :: k in after <==> k in before || k in checks
    ensures Covering(pairs, back, after, [])
  {
  }

  lemma {:induction false} RightMeans(h: Costs, pairs: seq<(nat, nat)>, p: Placement, back: map<nat, nat>,
                                      graph: AppGraph, diff: map<nat, int>)
    requires Right(h, pairs, p, back, graph, diff, [])
    ensures forall k | k in diff :: k < |pairs|
  {
    hide Differential;
  }

  lemma {:induction false} DifferentialAt(h: Costs, pairs: seq<(nat, nat)>, p: Placement, back: map<nat, nat>,
                                          graph: AppGraph, diff: map<nat, int>, k: nat)
    requires Right(h, pairs, p, back, graph, diff, []) && k in diff
    ensures k < |pairs| && diff[k] == Differential(h, p, back, graph, pairs[k].0, pairs[k].1)
  {
    hide Differential;
  }

  /** No pair that may be swapped is in use. */
  ghost predicate NothingInUse(pairs: seq<(nat, nat)>, p: Placement) {
    forall k | 0 <= k < |pairs| :: !Touches(pairs[k], p.Values)
  }

  /** There is something to swap as long as some pair is in use. */
  lemma {:induction false} InUseMeans(pairs: seq<(nat, nat)>, p: Placement, back: map<nat, nat>, diff: map<nat, int>,
                                      checks: seq<nat>, before: map<nat, int>)
    requires Inverts(back, p) && Covering(pairs, back, before, checks) && forall k | k in diff :: k < |pairs|
    ensures Covering(pairs, back, diff, []) ==> (NothingInUse(pairs, p) <==> diff == map[])
    ensures checks != [] ==> !NothingInUse(pairs, p)
  {
    hide Touches;
    assert back.Keys == p.Values;
    if checks != [] {
      assert checks[0] in checks;
    }
    if Covering(pairs, back, diff, []) {
      if diff != map[] {
        var k :| k in diff;
        assert Touches(pairs[k], p.Values);
      }
    }
  }

  /** Nothing can be swapped exactly if every program qubit is on a lonely physical one. */
  lemma {:induction false} InUseIff(m: Machine, pairs: seq<(nat, nat)>, index: map<(nat, nat), nat>,
                                    programs: seq<nat>, phys: seq<nat>, fixed: Placement, p: Placement)
    requires Indexed(m, FreePairs(phys, |phys|, 0), pairs, index) && Ascending(phys)
    requires Assigns(p, programs, phys, fixed) && forall x | x in fixed :: fixed[x] !in phys
    ensures NothingInUse(pairs, p) <==> forall x | x in programs :: p[x] in LonelyQubits(m, phys)
  {
    hide SwapHeuristic, Touches, Indexed;
    if NothingInUse(pairs, p) {
      forall x | x in programs ensures Lonely(m, phys, p[x]) {
        IdleIsLonely(m, pairs, index, phys, p, x);
      }
    }
    if forall x | x in programs :: p[x] in LonelyQubits(m, phys) {
      hide Lonely;
      forall k | 0 <= k < |pairs| ensures !Touches(pairs[k], p.Values) {
        PairIsApart(m, phys, pairs, index, k);
        LonelyIsIdle(p, programs, phys, fixed, pairs[k]);
      }
    }
  }

  lemma {:induction false} IdleIsLonely(m: Machine, pairs: seq<(nat, nat)>, index: map<(nat, nat), nat>,
                                        phys: seq<nat>, p: Placement, x: nat)
    requires Indexed(m, FreePairs(phys, |phys|, 0), pairs, index) && Ascending(phys) && NothingInUse(pairs, p)
    requires x in p && p[x] in phys
    ensures Lonely(m, phys, p[x])
  {
    hide SwapHeuristic;
    forall b | b in phys && b != p[x] ensures SwapHeuristic(m, Sorted(p[x], b)) > 0 {
      SortedIsFree(phys, p[x], b);
      assert Touches(Sorted(p[x], b), p.Values);
    }
  }

  lemma {:induction false} LonelyIsIdle(p: Placement, programs: seq<nat>, phys: seq<nat>, fixed: Placement,
                                        pair: (nat, nat))
    requires Assigns(p, programs, phys, fixed) && forall x | x in fixed :: fixed[x] !in phys
    requires pair.0 in phys && pair.1 in phys && forall x | x in programs :: p[x] != pair.0 && p[x] != pair.1
    ensures !Touches(pair, p.Values)
  {
  }

  /** The places of a pair are not lonely. */
  lemma {:induction false} PairIsApart(m: Machine, phys: seq<nat>, pairs: seq<(nat, nat)>,
                                       index: map<(nat, nat), nat>, k: nat)
    requires Indexed(m, FreePairs(phys, |phys|, 0), pairs, index) && Ascending(phys) && k < |pairs|
    ensures var (a, b) := pairs[k];
            a in phys && b in phys && !Lonely(m, phys, a) && !Lonely(m, phys, b)
  {
    hide SwapHeuristic;
    var (a, b) := pairs[k];
    assert pairs[k] in index;
    assert (a, b) in FreePairs(phys, |phys|, 0);
    assert Sorted(a, b) == (a, b) == Sorted(b, a);
  }

  /** A start from which nothing can be swapped exists exactly if there are lonely qubits
      for all program qubits. */
  lemma {:induction false} StuckStartIff(m: Machine, pairs: seq<(nat, nat)>, index: map<(nat, nat), nat>,
                                         programs: seq<nat>, phys: seq<nat>, fixed: Placement)
    requires Indexed(m, FreePairs(phys, |phys|, 0), pairs, index) && DistinctIds(programs) && Ascending(phys)
    requires OneToOne(fixed) && forall x | x in programs :: x !in fixed
    requires forall x | x in fixed :: fixed[x] !in phys
    ensures (exists p :: Assigns(p, programs, phys, fixed) && NothingInUse(pairs, p)) <==>
            |programs| <= |LonelyQubits(m, phys)|
  {
    hide Assigns, NothingInUse, Indexed, LonelyQubits;
    if p :| Assigns(p, programs, phys, fixed) && NothingInUse(pairs, p) {
      InUseIff(m, pairs, index, programs, phys, fixed, p);
      PlacesFit(p, programs, phys, fixed, LonelyQubits(m, phys));
    }
    if |programs| <= |LonelyQubits(m, phys)| {
      var places := Listed(LonelyQubits(m, phys));
      LonelyIsPhys(m, phys);
      PlacedInOrder(programs, places, phys, fixed);
      var p := InOrder(programs, places, fixed);
      assert forall x | x in programs :: p[x] in places[..|programs|] && p[x] in places;
      InUseIff(m, pairs, index, programs, phys, fixed, p);
    }
  }

  lemma {:induction false} SomeNotLonely(m: Machine, phys: seq<nat>, pairs: seq<(nat, nat)>,
                                         index: map<(nat, nat), nat>)
    requires Indexed(m, FreePairs(phys, |phys|, 0), pairs, index) && Ascending(phys)
    ensures |LonelyQubits(m, phys)| <= |phys|
    ensures pairs != [] <==> |LonelyQubits(m, phys)| < |phys|
  {
    hide SwapHeuristic;
    AscendingSize(phys);
    SubsetSize(LonelyQubits(m, phys), Elements(phys));
    if pairs != [] {
      PairIsApart(m, phys, pairs, index, 0);
      SubsetSize(LonelyQubits(m, phys), Elements(phys) - {pairs[0].0});
    }
    if pairs == [] {
      forall q, b | q in phys && b in phys && b != q ensures SwapHeuristic(m, Sorted(q, b)) > 0 {
        SortedIsFree(phys, q, b);
      }
      assert LonelyQubits(m, phys) == Elements(phys);
    }
  }

  lemma {:induction false} LonelyIsPhys(m: Machine, phys: seq<nat>)
    ensures forall q | q in LonelyQubits(m, phys) :: q in phys
  {
  }

  lemma {:induction false} Listed(s: set<nat>) returns (t: seq<nat>)
    ensures |t| == |s| && DistinctIds(t) && forall x :: x in t <==> x in s
    decreases s
  {
    if s == {} {
      t := [];
    } else {
      var x :| x in s;
      t := Listed(s - {x});
      assert x !in t;
      t := t + [x];
    }
  }

  lemma {:induction false} DistinctSize(s: seq<nat>)
    requires DistinctIds(s)
    ensures |Elements(s)| == |s|
    decreases |s|
  {
    if s != [] {
      var front, last := s[..|s| - 1], s[|s| - 1];
      DistinctSize(front);
      assert s == front + [last];
      assert last !in front;
      assert Elements(s) == Elements(front) + {last};
    }
  }

  /** Program qubits on different places of a set are at most as many. */
  lemma {:induction false} PlacesFit(p: Placement, programs: seq<nat>, phys: seq<nat>, fixed: Placement,
                                     places: set<nat>)
    requires Assigns(p, programs, phys, fixed) && DistinctIds(programs) && forall x | x in programs :: p[x] in places
    ensures |programs| <= |places|
  {
    hide Assigns;
    var taken := Taken(p, programs, phys, fixed);
    DistinctSize(programs);
    OneToOneSize(taken);
    SubsetSize(taken.Values, places);
  }

  /** Where the program qubits are. */
  lemma {:induction false} Taken(p: Placement, programs: seq<nat>, phys: seq<nat>, fixed: Placement)
    returns (taken: map<nat, nat>)
    requires Assigns(p, programs, phys, fixed)
    ensures taken.Keys == Elements(programs) && OneToOne(taken)
    ensures forall q | q in taken.Values :: exists x :: x in programs && x in p && q == p[x]
  {
    taken := map x | x in Elements(programs) :: p[x];
  }

  /** Every placement is one that a shuffle of the physical qubits gives. */
  lemma {:induction false} EveryStartIsDrawn(p: Placement, programs: seq<nat>, phys: seq<nat>, fixed: Placement)
    returns (places: seq<nat>)
    requires Assigns(p, programs, phys, fixed) && DistinctIds(programs)
    requires forall x | x in programs :: x !in fixed
    ensures |places| == |programs| && DistinctIds(places) && forall q | q in places :: q in phys
    ensures p == InOrder(programs, places, fixed)
  {
    hide InOrder;
    places := seq(|programs|, i requires 0 <= i < |programs| && programs[i] in p => p[programs[i]]);
    forall i, j | 0 <= i < j < |places| ensures places[i] != places[j] {
      assert programs[i] in programs && programs[j] in programs;
    }
    assert forall i | 0 <= i < |places| :: programs[i] in programs && places[i] in phys;
    InOrderAt(programs, places, fixed);
    var r := InOrder(programs, places, fixed);
    forall x | x in p ensures r[x] == p[x] {
      if x !in fixed {
        var i :| 0 <= i < |programs| && programs[i] == x;
      }
    }
    assert r.Keys == p.Keys;
  }

  lemma {:induction false} InOrderAt(programs: seq<nat>, places: seq<nat>, fixed: Placement)
    requires DistinctIds(programs) && |programs| <= |places| && forall x | x in programs :: x !in fixed
    ensures InOrder(programs, places, fixed).Keys == fixed.Keys + Elements(programs)
    ensures forall i | 0 <= i < |programs| ::
              programs[i] in programs && InOrder(programs, places, fixed)[programs[i]] == places[i]
    ensures forall x | x in fixed :: InOrder(programs, places, fixed)[x] == fixed[x]
    decreases |programs|
  {
    if programs != [] {
      var n := |programs| - 1;
      var front := programs[..n];
      assert programs == front + [programs[n]];
      InOrderAt(front, places, fixed);
      assert Elements(programs) == Elements(front) + {programs[n]};
    }
  }

  /** 0 and 1 are next to each other, and 2 is far from both. */
  function TwoAndOne(): Machine {
    Machine((a: nat, b: nat) => if a == 0 && b == 1 then 1 else 5,
            (q: nat) => if q == 0 then [1] else if q == 1 then [0] else [])
  }

  const THREE: seq<nat> := [0, 1, 2]

  lemma {:induction false} TwoAndOneCosts(a: nat, b: nat)
    requires a in THREE && b in THREE && a != b
    ensures SwapHeuristic(TwoAndOne(), Sorted(a, b)) == if a == 2 || b == 2 then 4 else 0
    ensures b in TwoAndOne().connected(a) <==> a != 2 && b != 2
  {
  }

  lemma {:induction false} TwoAndOneIsWired()
    ensures WellWired(TwoAndOne(), THREE) && LonelyQubits(TwoAndOne(), THREE) == {2} && Ascending(THREE)
  {
    hide TwoAndOne, SwapHeuristic;
    forall a, b | a in THREE && b in THREE && a != b
      ensures b in TwoAndOne().connected(a) <==> SwapHeuristic(TwoAndOne(), Sorted(a, b)) == 0
      ensures SwapHeuristic(TwoAndOne(), Sorted(a, b)) == if a == 2 || b == 2 then 4 else 0
    {
      TwoAndOneCosts(a, b);
    }
    assert 0 in THREE && 1 in THREE && 2 in THREE;
  }

  lemma {:induction false} OneOnTwo()
    ensures Assigns(map[7 := 2], [7], THREE, map[])
  {
    assert 2 in THREE && Elements([7]) == {7};
  }

  /** If the one program qubit starts on 2, there is nothing to swap. */
  lemma {:induction false} LonelyStart(pairs: seq<(nat, nat)>, index: map<(nat, nat), nat>)
    requires Indexed(TwoAndOne(), FreePairs(THREE, 3, 0), pairs, index)
    ensures WellWired(TwoAndOne(), THREE) && Assigns(map[7 := 2], [7], THREE, map[])
    ensures pairs != [] && NothingInUse(pairs, map[7 := 2]) && LonelyQubits(TwoAndOne(), THREE) == {2}
  {
    hide TwoAndOne, Indexed, Assigns, WellWired, LonelyQubits, NothingInUse, FreePairs;
    TwoAndOneIsWired();
    OneOnTwo();
    assert |THREE| == 3;
    SomeNotLonely(TwoAndOne(), THREE, pairs, index);
    var p: Placement := map[7 := 2];
    InUseIff(TwoAndOne(), pairs, index, [7], THREE, map[], p);
  }

  lemma {:induction false} SortedIsFree(phys: seq<nat>, a: nat, b: nat)
    requires Ascending(phys) && a in phys && b in phys && a != b
    ensures Sorted(a, b) in FreePairs(phys, |phys|, 0)
  {
    var i :| 0 <= i < |phys| && phys[i] == a;
    var j :| 0 <= j < |phys| && phys[j] == b;
    if j < i {
      assert (phys[j], phys[i]) in FreePairs(phys, |phys|, 0);
    } else {
      assert (phys[i], phys[j]) in FreePairs(phys, |phys|, 0);
    }
  }

  /** One swap: with the differential of the swapped pair negated, and those of the pairs near
      it to be checked, all others are right still. */
  lemma {:induction false} SwapStep(h: Costs, pairs: seq<(nat, nat)>, p: Placement, back: map<nat, nat>,
                                    after: map<nat, nat>, graph: AppGraph, diff: map<nat, int>, k: nat,
                                    checks: seq<nat>, kept: map<nat, int>, m: Machine, phys: seq<nat>,
                                    fixed: Placement, index: map<(nat, nat), nat>)
    requires k < |pairs| && k in diff && Right(h, pairs, p, back, graph, diff, []) && Covering(pairs, back, diff, [])
    requires Swappable(h, p, back, graph, pairs[k].0, pairs[k].1)
    requires Inverts(after, Swapped(p, pairs[k].0, pairs[k].1))
    requires Indexed(m, FreePairs(phys, |phys|, 0), pairs, index)
    requires var near := Affected(Swapped(p, pairs[k].0, pairs[k].1), after, graph, pairs[k].0, pairs[k].1);
             && (forall i: nat :: i in checks <==>
                   i < |pairs| && pairs[i] != pairs[k] && Touches(pairs[i], near) && Touches(pairs[i], after.Keys))
             && (forall i: nat :: i in kept <==>
                   i in diff && !(i < |pairs| && Touches(pairs[i], near) && !Touches(pairs[i], after.Keys)))
             && (forall i | i in kept :: kept[i] == diff[i])
    ensures k in kept
    ensures Right(h, pairs, Swapped(p, pairs[k].0, pairs[k].1), after, graph, kept[k := -kept[k]], checks)
    ensures Covering(pairs, after, kept[k := -kept[k]], checks)
  {
    hide Differential, Swapped, Affected, Inverts, Indexed, FreePairs;
    var (q1, q2) := pairs[k];
    var r := Swapped(p, q1, q2);
    var near := Affected(r, after, graph, q1, q2);
    SwappedInUse(p, back, after, graph, q1, q2);
    assert Touches(pairs[k], back.Keys);
    SwapBack(h, p, back, after, graph, q1, q2);
    var next := kept[k := -kept[k]];
    forall i | i in next
      ensures i < |pairs| && (i !in checks ==> next[i] == Differential(h, r, after, graph, pairs[i].0, pairs[i].1))
    {
      if i != k && i !in checks {
        OnlyOnce(m, phys, pairs, index, i, k);
        FarDifferential(h, p, back, after, graph, q1, q2, pairs[i].0, pairs[i].1);
      }
    }
    forall i: nat | i < |pairs| ensures (i in next || i in checks) <==> Touches(pairs[i], after.Keys) {
      OnlyOnce(m, phys, pairs, index, i, k);
      if !Touches(pairs[i], near) {
        FarPlace(p, back, after, q1, q2, pairs[i].0);
        FarPlace(p, back, after, q1, q2, pairs[i].1);
      }
    }
  }

  lemma {:induction false} OnlyOnce(m: Machine, phys: seq<nat>, pairs: seq<(nat, nat)>, index: map<(nat, nat), nat>,
                                    i: nat, k: nat)
    requires Indexed(m, FreePairs(phys, |phys|, 0), pairs, index) && i < |pairs| && k < |pairs|
    ensures pairs[i] == pairs[k] <==> i == k
  {
    hide FreePairs;
  }

  /** The swapped places are near, and one of them stays in use if one was. */
  lemma {:induction false} SwappedInUse(p: Placement, back: map<nat, nat>, after: map<nat, nat>, graph: AppGraph,
                                        q1: nat, q2: nat)
    requires Inverts(back, p) && Inverts(after, Swapped(p, q1, q2))
    ensures Touches((q1, q2), back.Keys) ==> Touches((q1, q2), after.Keys)
    ensures q1 in Affected(Swapped(p, q1, q2), after, graph, q1, q2)
    ensures q2 in Affected(Swapped(p, q1, q2), after, graph, q1, q2)
  {
    var r := Swapped(p, q1, q2);
    if q1 in back {
      assert r[back[q1]] == q2;
    }
    if q2 in back {
      assert r[back[q2]] == q1;
    }
  }

  // ----- Where the search goes -----

  /** Neighbours among the qubits to use, at least one of them taken. */
  ghost predicate InUse(m: Machine, phys: seq<nat>, p: Placement, a: nat, b: nat) {
    a in phys && b in phys && a != b && b in m.connected(a) && (a in p.Values || b in p.Values)
  }

  /** A swap of such neighbours leads from `p` to `r`. */
  ghost predicate OneSwapAway(m: Machine, phys: seq<nat>, p: Placement, r: Placement) {
    exists a, b :: InUse(m, phys, p, a, b) && r == Swapped(p, a, b)
  }

  ghost predicate SomeSwapSolves(h: Costs, m: Machine, phys: seq<nat>, p: Placement, graph: AppGraph) {
    exists r :: OneSwapAway(m, phys, p, r) && Value(h, r, graph) == 0
  }

  /** From the first placement swap by swap. */
  ghost predicate Walk(m: Machine, phys: seq<nat>, walk: seq<Placement>) {
    walk != [] && forall i | 0 <= i < |walk| - 1 :: OneSwapAway(m, phys, walk[i], walk[i + 1])
  }

  /** Nothing on the way, the start apart, costs less. */
  ghost predicate NoneCheaper(h: Costs, graph: AppGraph, cost: int, walk: seq<Placement>) {
    forall i | 0 < i < |walk| :: cost <= Value(h, walk[i], graph)
  }

  /** A reset that went on to the end: its first iteration found no swap that solves. */
  ghost predicate FullWalk(h: Costs, m: Machine, phys: seq<nat>, graph: AppGraph, n: nat, walk: seq<Placement>) {
    Walk(m, phys, walk) && |walk| == n + 1 && (n > 0 ==> !SomeSwapSolves(h, m, phys, walk[0], graph))
  }

  /** What a reset of `n` iterations comes to, on the way that it went.  If a single swap
      solves the start, the first iteration finds one. */
  ghost predicate WalkGood(h: Costs, m: Machine, phys: seq<nat>, graph: AppGraph, n: nat, step: SearchStep,
                           best0: Placement, walk: seq<Placement>)
  {
    && Walk(m, phys, walk)
    && (n > 0 && SomeSwapSolves(h, m, phys, walk[0], graph) ==> step.Finished? && |walk| == 1)
    && match step
       case Continue(best, bestCost) =>
         && FullWalk(h, m, phys, graph, n, walk) && NoneCheaper(h, graph, bestCost, walk)
         && (best == best0 || best in walk[1..])
       case Finished(placement) => |walk| <= n && OneSwapAway(m, phys, walk[|walk| - 1], placement)
       case Stuck => |walk| == 1
  }

  lemma {:induction false} PairInUse(m: Machine, phys: seq<nat>, pairs: seq<(nat, nat)>,
                                     index: map<(nat, nat), nat>, p: Placement, back: map<nat, nat>, k: nat)
    requires Indexed(m, FreePairs(phys, |phys|, 0), pairs, index) && WellWired(m, phys) && Ascending(phys)
    requires k < |pairs| && Inverts(back, p) && Touches(pairs[k], back.Keys)
    ensures OneSwapAway(m, phys, p, Swapped(p, pairs[k].0, pairs[k].1))
  {
    hide SwapHeuristic, Swapped;
    var (a, b) := pairs[k];
    assert pairs[k] in index;
    assert (a, b) in FreePairs(phys, |phys|, 0);
    assert Sorted(a, b) == (a, b);
    assert back.Keys == p.Values;
    assert InUse(m, phys, p, a, b);
  }

  lemma {:induction false} InUseHasIndex(m: Machine, phys: seq<nat>, pairs: seq<(nat, nat)>,
                                         index: map<(nat, nat), nat>, p: Placement, back: map<nat, nat>, a: nat,
                                         b: nat) returns (k: nat)
    requires Indexed(m, FreePairs(phys, |phys|, 0), pairs, index) && WellWired(m, phys) && Ascending(phys)
    requires Inverts(back, p) && InUse(m, phys, p, a, b)
    ensures k < |pairs| && pairs[k] == Sorted(a, b) && Touches(pairs[k], back.Keys)
    ensures Swapped(p, a, b) == Swapped(p, pairs[k].0, pairs[k].1)
  {
    hide SwapHeuristic, FreePairs;
    SortedIsFree(phys, a, b);
    k := index[Sorted(a, b)];
    assert back.Keys == p.Values;
  }

  /** With all pairs in use checked, none of them solves. */
  lemma {:induction false} NothingSolves(m: Machine, programs: seq<nat>, phys: seq<nat>, fixed: Placement,
                                         graph: AppGraph, pairs: seq<(nat, nat)>, index: map<(nat, nat), nat>,
                                         p: Placement, back: map<nat, nat>, diff: map<nat, int>, cost: int)
    requires Indexed(m, FreePairs(phys, |phys|, 0), pairs, index) && Asked(programs, phys, fixed, graph, m)
    requires Inverts(back, p) && Assigns(p, programs, phys, fixed)
    requires var h := CostsOn(m, AllPairs(phys, fixed));
             Right(h, pairs, p, back, graph, diff, []) && cost == Value(h, p, graph)
    requires Covering(pairs, back, diff, []) && forall k | k in diff :: cost + diff[k] != 0
    ensures !SomeSwapSolves(CostsOn(m, AllPairs(phys, fixed)), m, phys, p, graph)
  {
    var h := CostsOn(m, AllPairs(phys, fixed));
    hide Assigns, Inverts, CostsOn, AllPairs, FreePairs, WellWired, Undirected, Ascending, Value, Differential, Right,
         Indexed, Asked, Touches, InUse, Swapped;
    forall r | OneSwapAway(m, phys, p, r) ensures Value(h, r, graph) != 0 {
      var a, b :| InUse(m, phys, p, a, b) && r == Swapped(p, a, b);
      AskedMeans(programs, phys, fixed, graph, m);
      var k := InUseHasIndex(m, phys, pairs, index, p, back, a, b);
      MaySwap(m, programs, phys, fixed, graph, pairs, index, p, back, k);
      DifferentialAt(h, pairs, p, back, graph, diff, k);
      DifferentialIsExact(h, p, back, graph, pairs[k].0, pairs[k].1);
    }
  }

  /** The way so far, and the best placement on it. */
  ghost predicate SoFar(h: Costs, m: Machine, phys: seq<nat>, graph: AppGraph, best0: Placement, best: Placement,
                        bestCost: int, walk: seq<Placement>)
  {
    Walk(m, phys, walk) && NoneCheaper(h, graph, bestCost, walk) && (best == best0 || best in walk[1..])
  }

  lemma {:induction false} WalkEnds(h: Costs, m: Machine, phys: seq<nat>, graph: AppGraph, n: nat, step: SearchStep,
                                    best0: Placement, best: Placement, bestCost: int, walk: seq<Placement>)
    requires SoFar(h, m, phys, graph, best0, best, bestCost, walk)
    requires |walk| > 0 && (|walk| > 1 ==> !SomeSwapSolves(h, m, phys, walk[0], graph))
    requires match step
             case Continue(p, cost) => p == best && cost == bestCost && |walk| == n + 1
             case Finished(placement) => |walk| <= n && OneSwapAway(m, phys, walk[|walk| - 1], placement)
             case Stuck => |walk| == 1 && !SomeSwapSolves(h, m, phys, walk[0], graph)
    ensures WalkGood(h, m, phys, graph, n, step, best0, walk)
  {
    hide Walk, NoneCheaper, SomeSwapSolves, OneSwapAway;
  }

  lemma {:induction false} NewWalk(h: Costs, m: Machine, phys: seq<nat>, graph: AppGraph, p: Placement,
                                   best0: Placement, cost: int)
    ensures SoFar(h, m, phys, graph, best0, best0, cost, [p])
  {
  }

  lemma {:induction false} WalkOn(h: Costs, m: Machine, phys: seq<nat>, graph: AppGraph, best0: Placement,
                                  best: Placement, bestCost: int, walk: seq<Placement>, r: Placement, cost: int)
    requires SoFar(h, m, phys, graph, best0, best, bestCost, walk)
    requires walk != [] && OneSwapAway(m, phys, walk[|walk| - 1], r) && cost == Value(h, r, graph)
    ensures if bestCost > cost then SoFar(h, m, phys, graph, best0, r, cost, walk + [r])
            else SoFar(h, m, phys, graph, best0, best, bestCost, walk + [r])
  {
    hide OneSwapAway, Value;
    assert (walk + [r])[1..] == walk[1..] + [r];
  }

  /** A reset that went on to the end from a start of its own, by nothing that costs less. */
  ghost predicate Passed(h: Costs, m: Machine, programs: seq<nat>, phys: seq<nat>, fixed: Placement, graph: AppGraph,
                         n: nat, cost: int, walk: seq<Placement>)
  {
    && FullWalk(h, m, phys, graph, n, walk) && Assigns(walk[0], programs, phys, fixed)
    && NoneCheaper(h, graph, cost, walk)
  }

  /** After some resets that went on to the end: the best placement that was met. */
  ghost predicate SoFarBest(h: Costs, m: Machine, programs: seq<nat>, phys: seq<nat>, fixed: Placement,
                            graph: AppGraph, n: nat, first: Placement, best: Placement, walks: seq<seq<Placement>>)
  {
    && (forall w | w in walks :: Passed(h, m, programs, phys, fixed, graph, n, Value(h, best, graph), w))
    && Value(h, best, graph) <= Value(h, first, graph)
    && (best == first || exists w :: w in walks && w != [] && best in w[1..])
  }

  /** A swap away from the way that a reset went, and the cost is 0. */
  ghost predicate SolvedBy(h: Costs, m: Machine, programs: seq<nat>, phys: seq<nat>, fixed: Placement,
                           graph: AppGraph, n: nat, r: Placement, walk: seq<Placement>)
  {
    && Walk(m, phys, walk) && Assigns(walk[0], programs, phys, fixed) && |walk| <= n
    && OneSwapAway(m, phys, walk[|walk| - 1], r) && Value(h, r, graph) == 0
  }

  /** All resets went on to the end and `r` is the best that was met, or one of them came to
      a cost of 0. */
  ghost predicate Searched(h: Costs, m: Machine, programs: seq<nat>, phys: seq<nat>, fixed: Placement,
                           graph: AppGraph, resets: nat, n: nat, first: Placement, r: Placement,
                           walks: seq<seq<Placement>>)
  {
    && Value(h, r, graph) <= Value(h, first, graph)
    && if |walks| == resets then SoFarBest(h, m, programs, phys, fixed, graph, n, first, r, walks)
       else |walks| < resets && exists walk :: SolvedBy(h, m, programs, phys, fixed, graph, n, r, walk)
  }

  /** What the search comes to: the placement in order if there is nothing to place or to
      swap, and otherwise what the resets come to. */
  ghost predicate SearchGood(m: Machine, programs: seq<nat>, phys: seq<nat>, fixed: Placement, graph: AppGraph,
                             resets: nat, n: nat, r: Placement, walks: seq<seq<Placement>>)
  {
    && |programs| <= |phys|
    && var h, first := CostsOn(m, AllPairs(phys, fixed)), InOrder(programs, phys, fixed);
       if programs == [] || |LonelyQubits(m, phys)| == |phys| then r == first
       else Searched(h, m, programs, phys, fixed, graph, resets, n, first, r, walks)
  }

  lemma {:induction false} NoWalks(h: Costs, m: Machine, programs: seq<nat>, phys: seq<nat>, fixed: Placement,
                                   graph: AppGraph, n: nat, first: Placement)
    ensures SoFarBest(h, m, programs, phys, fixed, graph, n, first, first, [])
  {
  }

  lemma {:induction false} OneMoreWalk(h: Costs, m: Machine, programs: seq<nat>, phys: seq<nat>, fixed: Placement,
                                       graph: AppGraph, n: nat, first: Placement, best: Placement,
                                       walks: seq<seq<Placement>>, step: SearchStep, walk: seq<Placement>)
    requires SoFarBest(h, m, programs, phys, fixed, graph, n, first, best, walks)
    requires step.Continue? && WalkGood(h, m, phys, graph, n, step, best, walk) &&
             Assigns(walk[0], programs, phys, fixed)
    requires StepGood(h, step, best, programs, phys, fixed, graph)
    ensures SoFarBest(h, m, programs, phys, fixed, graph, n, first, step.best, walks + [walk])
  {
    hide Value, Assigns, FullWalk;
    forall w | w in walks + [walk] ensures Passed(h, m, programs, phys, fixed, graph, n, step.bestCost, w) {
      if w in walks {
        assert Passed(h, m, programs, phys, fixed, graph, n, Value(h, best, graph), w);
      }
    }
    assert walk in walks + [walk];
    assert forall w | w in walks :: w in walks + [walk];
  }

  lemma {:induction false} SolvedOnWalk(h: Costs, m: Machine, programs: seq<nat>, phys: seq<nat>, fixed: Placement,
                                        graph: AppGraph, resets: nat, n: nat, first: Placement, best: Placement,
                                        walks: seq<seq<Placement>>, step: SearchStep, walk: seq<Placement>)
    requires WalkGood(h, m, phys, graph, n, step, best, walk) && Assigns(walk[0], programs, phys, fixed)
    requires step.Finished? && StepGood(h, step, best, programs, phys, fixed, graph) && |walks| < resets
    ensures Searched(h, m, programs, phys, fixed, graph, resets, n, first, step.placement, walks)
  {
    hide Value, Assigns;
    ValueIsNat(h, first, graph);
    assert SolvedBy(h, m, programs, phys, fixed, graph, n, step.placement, walk);
  }

  lemma {:induction false} AllResets(h: Costs, m: Machine, programs: seq<nat>, phys: seq<nat>, fixed: Placement,
                                     graph: AppGraph, resets: nat, n: nat, first: Placement, best: Placement,
                                     walks: seq<seq<Placement>>)
    requires SoFarBest(h, m, programs, phys, fixed, graph, n, first, best, walks) && |walks| == resets
    ensures Searched(h, m, programs, phys, fixed, graph, resets, n, first, best, walks)
  {
  }

  /** A search with a reset and an iteration: the cost comes to 0, or no single swap solves
      some start, and the result costs at most what one of the swaps leads to. */
  lemma {:induction false} SearchImproves(h: Costs, m: Machine, programs: seq<nat>, phys: seq<nat>, fixed: Placement,
                                          graph: AppGraph, resets: nat, n: nat, first: Placement, r: Placement,
                                          walks: seq<seq<Placement>>)
    returns (start: Placement, next: Placement)
    requires resets > 0 && n > 0
    requires Searched(h, m, programs, phys, fixed, graph, resets, n, first, r, walks)
    ensures Assigns(start, programs, phys, fixed)
    ensures Value(h, r, graph) == 0 ||
            (!SomeSwapSolves(h, m, phys, start, graph) && OneSwapAway(m, phys, start, next) &&
             Value(h, r, graph) <= Value(h, next, graph))
  {
    hide Value, Assigns, OneSwapAway, SomeSwapSolves;
    if |walks| == resets {
      var w := walks[0];
      assert w in walks;
      start, next := w[0], w[1];
      assert OneSwapAway(m, phys, w[0], w[0 + 1]);
    } else {
      var walk :| SolvedBy(h, m, programs, phys, fixed, graph, n, r, walk);
      start, next := walk[0], walk[0];
    }
  }

  class LocalSearch {
    var numIterations: nat
    var numResets: nat
    var physToProgramMap: map<nat, nat>
    var heuristicCost: Costs
    var connectedPairs: seq<(nat, nat)>
    var qubitPairToIndexMap: map<(nat, nat), nat>

    constructor ()
      ensures numResets == 1 && numIterations == 100000 && Reset()
    {
      numResets, numIterations := 1, 100000;
      physToProgramMap, heuristicCost, connectedPairs, qubitPairToIndexMap := map[], map[], [], map[];
    }

    ghost predicate Reset()
      reads this
    {
      physToProgramMap == map[] && heuristicCost == map[] && connectedPairs == [] && qubitPairToIndexMap == map[]
    }

    method LocalSearchReset()
      modifies `physToProgramMap, `heuristicCost, `connectedPairs, `qubitPairToIndexMap
      ensures Reset()
    {
      physToProgramMap, heuristicCost, connectedPairs, qubitPairToIndexMap := map[], map[], [], map[];
    }

    /** The tables hold the pairs of these qubits, apart by their distance or next to each
        other. */
    ghost predicate Precomputed(phys: seq<nat>, fixed: Placement, m: Machine)
      reads `heuristicCost, `connectedPairs, `qubitPairToIndexMap
    {
      && heuristicCost == CostsOn(m, AllPairs(phys, fixed))
      && Indexed(m, FreePairs(phys, |phys|, 0), connectedPairs, qubitPairToIndexMap)
    }

    method PrecomputeSwapHeuristic(physicalQubits: seq<nat>, fixed: Placement, m: Machine)
      requires Reset() && Ascending(physicalQubits)
      modifies `heuristicCost, `connectedPairs, `qubitPairToIndexMap
      ensures Precomputed(physicalQubits, fixed, m)
    {
      hide CostsOn, Indexed, FreePairs, FixedPairs, SwapHeuristic;
      var n := |physicalQubits|;
      StartPairs(physicalQubits, fixed, m);
      var i := 0;
      while i < n
        invariant 0 <= i <= n
        invariant heuristicCost == CostsOn(m, FreePairs(physicalQubits, i, 0) + FixedPairs(physicalQubits, i, fixed))
        invariant Indexed(m, FreePairs(physicalQubits, i, 0), connectedPairs, qubitPairToIndexMap)
      {
        RowOfPairs(physicalQubits, i);
        var j := i + 1;
        while j < n
          invariant i < j <= n
          invariant heuristicCost == CostsOn(m, FreePairs(physicalQubits, i, j) + FixedPairs(physicalQubits, i, fixed))
          invariant Indexed(m, FreePairs(physicalQubits, i, j), connectedPairs, qubitPairToIndexMap)
        {
          var pair := Sorted(physicalQubits[i], physicalQubits[j]);
          NextFreePair(physicalQubits, i, j);
          NextPair(m, FreePairs(physicalQubits, i, j), pair, connectedPairs, qubitPairToIndexMap);
          NextCost(m, FreePairs(physicalQubits, i, j) + FixedPairs(physicalQubits, i, fixed), pair);
          assert (FreePairs(physicalQubits, i, j) + FixedPairs(physicalQubits, i, fixed)) + {pair} ==
            FreePairs(physicalQubits, i, j + 1) + FixedPairs(physicalQubits, i, fixed);
          var swapHeuristic := SwapHeuristic(m, pair);
          if swapHeuristic > 0 {
            heuristicCost := heuristicCost[pair := swapHeuristic];
          } else {
            qubitPairToIndexMap := qubitPairToIndexMap[pair := |connectedPairs|];
            connectedPairs := connectedPairs + [pair];
          }
          j := j + 1;
        }
        FixedCosts(physicalQubits, i, fixed, m);
        i := i + 1;
      }
    }

    /** The value of a placement, edge by edge. */
    method ValueHeuristic(placement: Placement, graph: AppGraph) returns (value: int)
      requires Undirected(graph) && graph.Keys <= placement.Keys
      ensures value == Value(heuristicCost, placement, graph)
    {
      hide Term, EdgesOf, EdgesTo;
      ghost var term := Term(heuristicCost, placement);
      value := 0;
      var nodes := graph.Keys;
      NoEdges(graph);
      while nodes != {}
        invariant nodes <= graph.Keys && value == Sum(term, EdgesOf(graph, graph.Keys - nodes))
      {
        var a :| a in nodes;
        var adjacent := graph[a];
        NextNode(graph, graph.Keys - nodes, a);
        while adjacent != {}
          invariant adjacent <= graph[a]
          invariant value == Sum(term, EdgesOf(graph, graph.Keys - nodes) + EdgesTo(a, graph[a] - adjacent))
        {
          var b :| b in adjacent;
          NextEdge(term, graph, graph.Keys - nodes, a, graph[a] - adjacent, b);
          NodeOf(graph, a, b);
          TermAt(heuristicCost, placement, a, b);
          assert graph[a] - (adjacent - {b}) == (graph[a] - adjacent) + {b};
          var qid1, qid2 := placement[a], placement[b];
          if qid1 < qid2 {
            if (qid1, qid2) in heuristicCost {
              value := value + heuristicCost[(qid1, qid2)];
            }
          }
          adjacent := adjacent - {b};
        }
        assert graph[a] - adjacent == graph[a];
        assert graph.Keys - (nodes - {a}) == (graph.Keys - nodes) + {a};
        nodes := nodes - {a};
      }
      assert graph.Keys - nodes == graph.Keys;
    }

    /** The neighbours of a program qubit that moves. */
    method MovingCost(placement: Placement, graph: AppGraph, q1: nat, q2: nat) returns (cost: int)
      requires Undirected(graph) && graph.Keys <= placement.Keys
      ensures cost == Moving(heuristicCost, placement, physToProgramMap, graph, q1, q2)
    {
      hide Change, Undirected;
      cost := 0;
      if q1 in physToProgramMap {
        var a := physToProgramMap[q1];
        ghost var change := Change(heuristicCost, placement, q1, q2);
        var adjacent := if a in graph then graph[a] else {};
        while adjacent != {}
          invariant adjacent <= Neighbours(graph, a) && cost == Sum(change, Neighbours(graph, a) - adjacent)
        {
          var b :| b in adjacent;
          NodeOf(graph, a, b);
          ghost var done := Neighbours(graph, a) - adjacent;
          assert Neighbours(graph, a) - (adjacent - {b}) == done + {b};
          SumPick(change, done + {b}, b);
          assert done + {b} - {b} == done;
          ChangeAt(heuristicCost, placement, q1, q2, b);
          var place := placement[b];
          var pair := Sorted(q1, place);
          if pair in heuristicCost {
            cost := cost - heuristicCost[pair];
          }
          pair := Sorted(q2, place);
          if pair in heuristicCost {
            cost := cost + heuristicCost[pair];
          }
          adjacent := adjacent - {b};
        }
        assert Neighbours(graph, a) - adjacent == Neighbours(graph, a);
      }
    }

    method ValueHeuristicDifferential(placement: Placement, q1: nat, q2: nat, graph: AppGraph) returns (cost: int)
      requires Undirected(graph) && graph.Keys <= placement.Keys
      ensures cost == Differential(heuristicCost, placement, physToProgramMap, graph, q1, q2)
    {
      var first := MovingCost(placement, graph, q1, q2);
      var second := MovingCost(placement, graph, q2, q1);
      cost := first + second;
    }

    /** Either place may be empty. */
    method SwapQubits(placement: Placement, q1: nat, q2: nat) returns (swapped: Placement)
      requires Inverts(physToProgramMap, placement) && q1 != q2
      modifies `physToProgramMap
      ensures swapped == Swapped(placement, q1, q2) && Inverts(physToProgramMap, swapped)
    {
      ghost var back := physToProgramMap;
      var program1 := if q1 in physToProgramMap then Some(physToProgramMap[q1]) else None;
      var program2 := if q2 in physToProgramMap then Some(physToProgramMap[q2]) else None;
      swapped := placement;
      if program1.Some? {
        swapped := swapped[program1.value := q2];
        physToProgramMap := physToProgramMap[q2 := program1.value];
      } else {
        physToProgramMap := physToProgramMap - {q2};
      }
      if program2.Some? {
        swapped := swapped[program2.value := q1];
        physToProgramMap := physToProgramMap[q1 := program2.value];
      } else {
        physToProgramMap := physToProgramMap - {q1};
      }
      SwappedInTurn(placement, back, q1, q2, swapped, physToProgramMap);
    }

    method InitializePhysToProgramMap(placement: Placement)
      requires OneToOne(placement)
      modifies `physToProgramMap
      ensures Inverts(physToProgramMap, placement)
    {
      physToProgramMap := map[];
      var left := placement.Keys;
      while left != {}
        invariant left <= placement.Keys
        invariant forall q | q in physToProgramMap ::
                  physToProgramMap[q] in placement.Keys - left && placement[physToProgramMap[q]] == q
        invariant forall x | x in placement.Keys - left ::
                    placement[x] in physToProgramMap && physToProgramMap[placement[x]] == x
      {
        var x :| x in left;
        physToProgramMap := physToProgramMap[placement[x] := x];
        left := left - {x};
      }
    }

    /** The indices of all pairs that are in use. */
    method InitializeSwapsToCheck(placement: Placement, m: Machine, ghost phys: seq<nat>, ghost fixed: Placement)
      returns (checks: seq<nat>)
      requires Precomputed(phys, fixed, m) && WellWired(m, phys) && Ascending(phys)
      ensures forall k: nat :: k in checks <==> k < |connectedPairs| && Touches(connectedPairs[k], placement.Values)
    {
      hide WellWired, Touches;
      checks := [];
      var left := placement.Keys;
      ghost var places: set<nat> := {};
      NothingTouched(connectedPairs);
      while left != {}
        invariant left <= placement.Keys && places == set x | x in placement.Keys - left :: placement[x]
        invariant forall k: nat :: k in checks <==> k < |connectedPairs| && Touches(connectedPairs[k], places)
      {
        var x :| x in left;
        var place := placement[x];
        var neighbours := m.connected(place);
        var i := 0;
        while i < |neighbours|
          invariant 0 <= i <= |neighbours|
          invariant forall k: nat :: k in checks <==>
                      k < |connectedPairs| &&
                      (Touches(connectedPairs[k], places) || Found(neighbours[..i], place, connectedPairs[k]))
        {
          var pair := Sorted(neighbours[i], place);
          FoundNext(neighbours, i, place, connectedPairs);
          if pair in qubitPairToIndexMap && qubitPairToIndexMap[pair] !in checks {
            checks := checks + [qubitPairToIndexMap[pair]];
          }
          i := i + 1;
        }
        assert neighbours[..i] == neighbours;
        FoundIsTouched(m, phys, connectedPairs, qubitPairToIndexMap, place, places);
        left := left - {x};
        places := places + {place};
      }
      assert places == placement.Values;
    }

    /** After a swap: the indices of the pairs near it that are in use, but for that of the
        swapped pair; the differentials of pairs that are no longer in use are dropped. */
    method UpdateSwapChecks(placement: Placement, q1: nat, q2: nat, differentials: map<nat, int>, m: Machine,
                            graph: AppGraph, ghost phys: seq<nat>, ghost fixed: Placement)
      returns (checks: seq<nat>, kept: map<nat, int>)
      requires Precomputed(phys, fixed, m) && WellWired(m, phys) && Ascending(phys)
      requires (q1, q2) in qubitPairToIndexMap && Undirected(graph) && graph.Keys <= placement.Keys
      requires Inverts(physToProgramMap, placement)
      ensures var near := Affected(placement, physToProgramMap, graph, q1, q2);
              && (forall k: nat :: k in checks <==>
                    k < |connectedPairs| && connectedPairs[k] != (q1, q2) &&
                    Touches(connectedPairs[k], near) && Touches(connectedPairs[k], physToProgramMap.Keys))
              && (forall k: nat :: k in kept <==>
                    k in differentials &&
                    !(k < |connectedPairs| && Touches(connectedPairs[k], near) &&
                      !Touches(connectedPairs[k], physToProgramMap.Keys)))
              && (forall k | k in kept :: kept[k] == differentials[k])
    {
      hide WellWired, Touches, NearChecked, Found, Indexed;
      var programs := NearPlace(physToProgramMap, graph, q1) + NearPlace(physToProgramMap, graph, q2);
      NearIsPlaced(placement, physToProgramMap, graph, q1);
      NearIsPlaced(placement, physToProgramMap, graph, q2);
      var mapped := (set x | x in programs :: placement[x]) + {q1, q2};
      assert mapped == Affected(placement, physToProgramMap, graph, q1, q2);
      hide Affected, NearPlace, Inverts;
      checks, kept := [], differentials;
      var left := mapped;
      NothingChecked(connectedPairs, physToProgramMap.Keys, differentials);
      assert mapped - left == {};
      while left != {}
        invariant left <= mapped
        invariant NearChecked(mapped - left, [], 0, connectedPairs, physToProgramMap.Keys, checks, differentials, kept)
      {
        var place :| place in left;
        checks, kept := CheckPlace(place, m, checks, kept, mapped - left, differentials, phys, fixed);
        assert mapped - (left - {place}) == (mapped - left) + {place};
        left := left - {place};
      }
      assert mapped - left == mapped;
      AllChecked(mapped, connectedPairs, physToProgramMap.Keys, checks, differentials, kept);
      SwappedIndex(m, phys, connectedPairs, qubitPairToIndexMap, (q1, q2));
      checks := Without(checks, qubitPairToIndexMap[(q1, q2)]);
    }

    /** One place near the swap. */
    method CheckPlace(place: nat, m: Machine, checks0: seq<nat>, kept0: map<nat, int>, ghost places: set<nat>,
                      ghost before: map<nat, int>, ghost phys: seq<nat>, ghost fixed: Placement)
      returns (checks: seq<nat>, kept: map<nat, int>)
      requires Precomputed(phys, fixed, m) && WellWired(m, phys) && Ascending(phys)
      requires NearChecked(places, [], 0, connectedPairs, physToProgramMap.Keys, checks0, before, kept0)
      ensures NearChecked(places + {place}, [], 0, connectedPairs, physToProgramMap.Keys, checks, before, kept)
    {
      hide WellWired, Touches, NearChecked, Found;
      checks, kept := checks0, kept0;
      var neighbours := m.connected(place);
      var i := 0;
      NoNeighbours(places, neighbours, place, connectedPairs, physToProgramMap.Keys, checks, before, kept);
      while i < |neighbours|
        invariant 0 <= i <= |neighbours|
        invariant NearChecked(places, neighbours[..i], place, connectedPairs, physToProgramMap.Keys, checks, before,
                              kept)
      {
        var pair := Sorted(neighbours[i], place);
        NextNeighbour(places, neighbours, i, place, connectedPairs, qubitPairToIndexMap, physToProgramMap.Keys, checks,
                      before, kept, m, FreePairs(phys, |phys|, 0));
        if pair in qubitPairToIndexMap {
          var index := qubitPairToIndexMap[pair];
          if pair.0 !in physToProgramMap && pair.1 !in physToProgramMap {
            kept := kept - {index};
          } else if index !in checks {
            checks := checks + [index];
          }
        }
        i := i + 1;
      }
      assert neighbours[..i] == neighbours;
      PlaceDone(places, neighbours, place, connectedPairs, qubitPairToIndexMap, physToProgramMap.Keys, checks, before,
                kept, m, phys);
    }

    /** The differentials to check, one after the other, up to one that brings the cost to 0. */
    method Recheck(placement: Placement, cost: int, checks: seq<nat>, differentials: map<nat, int>, graph: AppGraph)
      returns (kept: map<nat, int>, last: Option<nat>)
      requires Undirected(graph) && graph.Keys <= placement.Keys && forall k | k in checks :: k < |connectedPairs|
      requires Right(heuristicCost, connectedPairs, placement, physToProgramMap, graph, differentials, checks)
      ensures last.None? ==>
                && Right(heuristicCost, connectedPairs, placement, physToProgramMap, graph, kept, [])
                && (forall k: nat :: k in kept <==> k in differentials || k in checks)
                && (forall k | k in checks :: cost + kept[k] != 0)
      ensures last.Some? ==>
                && last.value in checks
                && var (q1, q2) := connectedPairs[last.value];
                   cost + Differential(heuristicCost, placement, physToProgramMap, graph, q1, q2) == 0
    {
      hide Differential, Undirected;
      kept := differentials;
      var i := 0;
      while i < |checks|
        invariant 0 <= i <= |checks|
        invariant Right(heuristicCost, connectedPairs, placement, physToProgramMap, graph, kept, checks[i..])
        invariant forall k: nat :: k in kept <==> k in differentials || k in checks[..i]
        invariant forall k | k in checks[..i] :: cost + kept[k] != 0
      {
        assert checks[i] in checks;
        var (q1, q2) := connectedPairs[checks[i]];
        var differential := ValueHeuristicDifferential(placement, q1, q2, graph);
        if cost + differential == 0 {
          return kept, Some(checks[i]);
        }
        CheckedNext(heuristicCost, connectedPairs, placement, physToProgramMap, graph, kept, checks, i, differential);
        kept := kept[checks[i] := differential];
        i := i + 1;
      }
      assert checks[..i] == checks && checks[i..] == [];
      last := None;
    }

    /** After that all differentials are right, and there are some if a pair is in use. */
    method RecheckAll(placement: Placement, cost: int, checks: seq<nat>, differentials: map<nat, int>, graph: AppGraph)
      returns (kept: map<nat, int>, last: Option<nat>)
      requires Undirected(graph) && graph.Keys <= placement.Keys && Inverts(physToProgramMap, placement)
      requires Right(heuristicCost, connectedPairs, placement, physToProgramMap, graph, differentials, checks)
      requires Covering(connectedPairs, physToProgramMap, differentials, checks)
      ensures last.None? ==>
                && Right(heuristicCost, connectedPairs, placement, physToProgramMap, graph, kept, [])
                && Covering(connectedPairs, physToProgramMap, kept, [])
                && (kept == map[] <==> NothingInUse(connectedPairs, placement))
                && (differentials != map[] ==> kept != map[])
                && (differentials == map[] ==> forall k | k in kept :: cost + kept[k] != 0)
      ensures last.Some? ==>
                && last.value < |connectedPairs| && !NothingInUse(connectedPairs, placement)
                && Touches(connectedPairs[last.value], physToProgramMap.Keys)
                && var (q1, q2) := connectedPairs[last.value];
                   cost + Differential(heuristicCost, placement, physToProgramMap, graph, q1, q2) == 0
    {
      hide Right, Covering, Differential, Inverts, Undirected, Touches, NothingInUse;
      CoveringMeans(connectedPairs, physToProgramMap, differentials, checks);
      kept, last := Recheck(placement, cost, checks, differentials, graph);
      if last.None? {
        assert differentials != map[] ==> exists k :: k in differentials && k in kept;
        Rechecked(connectedPairs, physToProgramMap, differentials, checks, kept);
        RightMeans(heuristicCost, connectedPairs, placement, physToProgramMap, graph, kept);
        InUseMeans(connectedPairs, placement, physToProgramMap, kept, checks, differentials);
      } else {
        InUseMeans(connectedPairs, placement, physToProgramMap, map[], checks, differentials);
        CheckedIsInUse(connectedPairs, physToProgramMap, differentials, checks, last.value);
      }
    }

    /** One reset: from a random placement, swap after swap.  Which swap is taken is left
        open; the compiler's search weighs them by what they would change.  `walk` is the way
        that the reset goes. */
    method OneReset(programQubits: seq<nat>, physicalQubits: seq<nat>, fixed: Placement, graph: AppGraph, m: Machine,
                    best0: Placement, bestCost0: int)
      returns (step: SearchStep, ghost walk: seq<Placement>)
      requires Precomputed(physicalQubits, fixed, m) && connectedPairs != [] && programQubits != []
      requires Asked(programQubits, physicalQubits, fixed, graph, m)
      requires Assigns(best0, programQubits, physicalQubits, fixed) && bestCost0 == Value(heuristicCost, best0, graph)
      modifies `physToProgramMap
      ensures StepGood(heuristicCost, step, best0, programQubits, physicalQubits, fixed, graph)
      ensures WalkGood(heuristicCost, m, physicalQubits, graph, numIterations, step, best0, walk)
      ensures Assigns(walk[0], programQubits, physicalQubits, fixed)
      ensures step.Stuck? <==> numIterations > 0 && NothingInUse(connectedPairs, walk[0])
      ensures step.Stuck? ==> |programQubits| <= |LonelyQubits(m, physicalQubits)|
    {
      hide Asked, Assigns, Indexed, CostsOn, AllPairs, FreePairs, Value, Right, Covering, Differential, Inverts,
           WellWired, LonelyQubits, Touches, DistinctIds, Undirected, Ascending, NothingInUse, OneSwapAway,
           SomeSwapSolves, SoFar, Swapped, WalkGood;
      AskedMeans(programQubits, physicalQubits, fixed, graph, m);
      var best, bestCost := best0, bestCost0;
      var current := RandomPlacement(programQubits, physicalQubits, fixed);
      AssignsMeans(current, programQubits, physicalQubits, fixed, graph);
      ghost var h, start := heuristicCost, current;
      walk := [current];
      NewWalk(h, m, physicalQubits, graph, current, best0, bestCost);
      InitializePhysToProgramMap(current);
      var currentCost := ValueHeuristic(current, graph);
      var checks := InitializeSwapsToCheck(current, m, physicalQubits, fixed);
      var differentials: map<nat, int> := map[];
      ChecksCover(connectedPairs, current, physToProgramMap, checks, heuristicCost, graph);
      var iteration := 0;
      while iteration < numIterations
        invariant 0 <= iteration <= numIterations && |walk| == iteration + 1
        invariant walk[0] == start && walk[iteration] == current
        invariant SoFar(h, m, physicalQubits, graph, best0, best, bestCost, walk)
        invariant Assigns(best, programQubits, physicalQubits, fixed) && bestCost == Value(heuristicCost, best, graph)
        invariant bestCost <= bestCost0
        invariant if iteration == 0 then differentials == map[]
                  else differentials != map[] && !NothingInUse(connectedPairs, start) &&
                       !SomeSwapSolves(h, m, physicalQubits, start, graph)
        invariant Assigns(current, programQubits, physicalQubits, fixed) && Inverts(physToProgramMap, current)
        invariant currentCost == Value(heuristicCost, current, graph)
        invariant Right(heuristicCost, connectedPairs, current, physToProgramMap, graph, differentials, checks)
        invariant Covering(connectedPairs, physToProgramMap, differentials, checks)
      {
        var result := OneIteration(current, currentCost, checks, differentials, programQubits, physicalQubits, fixed,
                                   graph, m);
        match result {
          case Solved(placement) =>
            WalkEnds(h, m, physicalQubits, graph, numIterations, Finished(placement), best0, best, bestCost, walk);
            return Finished(placement), walk;
          case Idle =>
            StuckStartIff(m, connectedPairs, qubitPairToIndexMap, programQubits, physicalQubits, fixed);
            WalkEnds(h, m, physicalQubits, graph, numIterations, Stuck, best0, best, bestCost, walk);
            return Stuck, walk;
          case Moved(next, cost, nextChecks, kept) =>
            WalkOn(h, m, physicalQubits, graph, best0, best, bestCost, walk, next, cost);
            current, currentCost, checks, differentials := next, cost, nextChecks, kept;
        }
        walk := walk + [current];
        if bestCost > currentCost {
          best, bestCost := current, currentCost;
        }
        iteration := iteration + 1;
      }
      step := Continue(best, bestCost);
      WalkEnds(h, m, physicalQubits, graph, numIterations, step, best0, best, bestCost, walk);
    }

    /** One iteration.  As long as nothing is known of any pair, all pairs in use are to be
        checked. */
    method OneIteration(current: Placement, currentCost: int, checks: seq<nat>, differentials0: map<nat, int>,
                        ghost programQubits: seq<nat>, ghost physicalQubits: seq<nat>, ghost fixed: Placement,
                        graph: AppGraph, m: Machine)
      returns (result: Iteration)
      requires Precomputed(physicalQubits, fixed, m) && Asked(programQubits, physicalQubits, fixed, graph, m)
      requires Assigns(current, programQubits, physicalQubits, fixed) && Inverts(physToProgramMap, current)
      requires currentCost == Value(heuristicCost, current, graph)
      requires Right(heuristicCost, connectedPairs, current, physToProgramMap, graph, differentials0, checks)
      requires Covering(connectedPairs, physToProgramMap, differentials0, checks)
      modifies `physToProgramMap
      ensures result.Idle? ==> differentials0 == map[] && NothingInUse(connectedPairs, current)
      ensures NothingInUse(connectedPairs, current) && differentials0 == map[] ==> result.Idle?
      ensures !result.Solved? && differentials0 == map[] ==>
                !SomeSwapSolves(heuristicCost, m, physicalQubits, current, graph)
      ensures result.Solved? ==>
                && OneSwapAway(m, physicalQubits, current, result.placement)
                && Assigns(result.placement, programQubits, physicalQubits, fixed)
                && Value(heuristicCost, result.placement, graph) == 0
      ensures result.Moved? ==>
                && OneSwapAway(m, physicalQubits, current, result.next) && result.kept != map[]
                && Assigns(result.next, programQubits, physicalQubits, fixed)
                && Inverts(physToProgramMap, result.next) && result.cost == Value(heuristicCost, result.next, graph)
                && Right(heuristicCost, connectedPairs, result.next, physToProgramMap, graph, result.kept,
                         result.checks)
                && Covering(connectedPairs, physToProgramMap, result.kept, result.checks)
    {
      hide Asked, Assigns, Indexed, CostsOn, AllPairs, FreePairs, Value, Right, Covering, Differential, Inverts,
           WellWired, LonelyQubits, Touches, DistinctIds, Undirected, Ascending, NothingInUse, OneSwapAway,
           SomeSwapSolves, Swapped;
      AskedMeans(programQubits, physicalQubits, fixed, graph, m);
      AssignsMeans(current, programQubits, physicalQubits, fixed, graph);
      var differentials, last := RecheckAll(current, currentCost, checks, differentials0, graph);
      if last.Some? {
        PairInUse(m, physicalQubits, connectedPairs, qubitPairToIndexMap, current, physToProgramMap, last.value);
        var swapped := TakeSwap(last.value, programQubits, physicalQubits, fixed, graph, m, current);
        return Solved(swapped);
      }
      if differentials0 == map[] {
        NothingSolves(m, programQubits, physicalQubits, fixed, graph, connectedPairs, qubitPairToIndexMap, current,
                      physToProgramMap, differentials, currentCost);
      }
      if differentials == map[] {
        return Idle;
      }
      var k :| k in differentials;
      DifferentialAt(heuristicCost, connectedPairs, current, physToProgramMap, graph, differentials, k);
      var next, nextChecks, kept := NextSwap(current, k, differentials, programQubits, physicalQubits, fixed, graph, m);
      result := Moved(next, currentCost + differentials[k], nextChecks, kept);
    }

    /** Swaps the k-th pair and brings the differentials up to date. */
    method NextSwap(placement: Placement, k: nat, differentials: map<nat, int>, ghost programQubits: seq<nat>,
                    ghost physicalQubits: seq<nat>, ghost fixed: Placement, graph: AppGraph, m: Machine)
      returns (swapped: Placement, checks: seq<nat>, kept: map<nat, int>)
      requires Precomputed(physicalQubits, fixed, m) && Asked(programQubits, physicalQubits, fixed, graph, m)
      requires k in differentials && Inverts(physToProgramMap, placement)
      requires Assigns(placement, programQubits, physicalQubits, fixed)
      requires Right(heuristicCost, connectedPairs, placement, physToProgramMap, graph, differentials, [])
      requires Covering(connectedPairs, physToProgramMap, differentials, [])
      modifies `physToProgramMap
      ensures Assigns(swapped, programQubits, physicalQubits, fixed) && Inverts(physToProgramMap, swapped)
      ensures Value(heuristicCost, swapped, graph) == Value(heuristicCost, placement, graph) + differentials[k]
      ensures Right(heuristicCost, connectedPairs, swapped, physToProgramMap, graph, kept, checks)
      ensures Covering(connectedPairs, physToProgramMap, kept, checks) && k in kept
      ensures OneSwapAway(m, physicalQubits, placement, swapped)
    {
      hide Asked, Assigns, Indexed, CostsOn, AllPairs, FreePairs, Value, Right, Covering, Differential, Inverts,
           WellWired, Touches, Undirected, Ascending, Swappable, Swapped, Affected, OneSwapAway;
      AskedMeans(programQubits, physicalQubits, fixed, graph, m);
      DifferentialAt(heuristicCost, connectedPairs, placement, physToProgramMap, graph, differentials, k);
      ghost var back := physToProgramMap;
      var (q1, q2) := connectedPairs[k];
      CheckedIsInUse(connectedPairs, physToProgramMap, differentials, [], k);
      PairInUse(m, physicalQubits, connectedPairs, qubitPairToIndexMap, placement, back, k);
      MaySwap(m, programQubits, physicalQubits, fixed, graph, connectedPairs, qubitPairToIndexMap, placement, back, k);
      swapped := TakeSwap(k, programQubits, physicalQubits, fixed, graph, m, placement);
      AssignsMeans(swapped, programQubits, physicalQubits, fixed, graph);
      checks, kept := UpdateSwapChecks(swapped, q1, q2, differentials, m, graph, physicalQubits, fixed);
      SwapStep(heuristicCost, connectedPairs, placement, back, physToProgramMap, graph, differentials, k, checks, kept,
               m, physicalQubits, fixed, qubitPairToIndexMap);
      kept := kept[k := -kept[k]];
    }

    /** Swaps the k-th pair. */
    method TakeSwap(k: nat, ghost programQubits: seq<nat>, ghost physicalQubits: seq<nat>, ghost fixed: Placement,
                    ghost graph: AppGraph, ghost m: Machine, placement: Placement)
      returns (swapped: Placement)
      requires Precomputed(physicalQubits, fixed, m) && Asked(programQubits, physicalQubits, fixed, graph, m)
      requires k < |connectedPairs| && Inverts(physToProgramMap, placement)
      requires Assigns(placement, programQubits, physicalQubits, fixed)
      modifies `physToProgramMap
      ensures var (q1, q2) := connectedPairs[k];
              && swapped == Swapped(placement, q1, q2) && Inverts(physToProgramMap, swapped)
              && q1 < q2 && (q1, q2) in qubitPairToIndexMap && qubitPairToIndexMap[(q1, q2)] == k
              && Assigns(swapped, programQubits, physicalQubits, fixed)
              && Value(heuristicCost, swapped, graph) ==
                 Value(heuristicCost, placement, graph) +
                   Differential(heuristicCost, placement, old(physToProgramMap), graph, q1, q2)
    {
      hide Value, Differential, Inverts, WellWired, Assigns, Asked, CostsOn, AllPairs, FreePairs, Swapped, Swappable;
      var (q1, q2) := connectedPairs[k];
      MaySwap(m, programQubits, physicalQubits, fixed, graph, connectedPairs, qubitPairToIndexMap, placement,
              physToProgramMap, k);
      DifferentialIsExact(heuristicCost, placement, physToProgramMap, graph, q1, q2);
      swapped := SwapQubits(placement, q1, q2);
    }

    /** The whole search.  Every program qubit gets a physical one of its own, the fixed ones
        keep theirs, and the value is at most that of the placement in order and of everything
        that the resets came by. */
    method Search(programQubits: seq<nat>, physicalQubits: seq<nat>, fixed: Placement, graph: AppGraph, m: Machine)
      returns (r: Option<Placement>, ghost walks: seq<seq<Placement>>)
      requires Reset() && DistinctIds(programQubits) && Ascending(physicalQubits) && OneToOne(fixed)
      requires forall x | x in programQubits :: x !in fixed
      requires Undirected(graph) && graph.Keys <= fixed.Keys + Elements(programQubits) && WellWired(m, physicalQubits)
      modifies `physToProgramMap, `heuristicCost, `connectedPairs, `qubitPairToIndexMap
      ensures r.None? ==>
                || |programQubits| > |physicalQubits|
                || (exists x :: x in fixed && fixed[x] in physicalQubits)
                || (0 < |programQubits| <= |LonelyQubits(m, physicalQubits)| < |physicalQubits| &&
                    old(numResets) > 0 && old(numIterations) > 0)
      ensures r.Some? ==>
                && |programQubits| <= |physicalQubits|
                && (forall x | x in fixed :: fixed[x] !in physicalQubits)
                && Assigns(r.value, programQubits, physicalQubits, fixed)
                && SearchGood(m, programQubits, physicalQubits, fixed, graph, numResets, numIterations, r.value, walks)
    {
      hide Value, Assigns, Indexed, WellWired, CostsOn, AllPairs, Undirected, Searched, LonelyQubits;
      walks := [];
      if |programQubits| > |physicalQubits| {
        return None, walks;
      }
      var intersection := set x | x in fixed && fixed[x] in physicalQubits :: fixed[x];
      if intersection != {} {
        return None, walks;
      }
      assert forall x | x in fixed && fixed[x] in physicalQubits :: fixed[x] in intersection;
      PrecomputeSwapHeuristic(physicalQubits, fixed, m);
      var bestPlacement := PlaceInOrder(programQubits, physicalQubits, fixed);
      AscendingIsDistinct(physicalQubits);
      PlacedInOrder(programQubits, physicalQubits, physicalQubits, fixed);
      SomeNotLonely(m, physicalQubits, connectedPairs, qubitPairToIndexMap);
      if connectedPairs == [] || |programQubits| == 0 {
        return Some(bestPlacement), walks;
      }
      AssignsMeans(bestPlacement, programQubits, physicalQubits, fixed, graph);
      r, walks := Resets(programQubits, physicalQubits, fixed, graph, m, bestPlacement);
    }

    /** Reset after reset. */
    method Resets(programQubits: seq<nat>, physicalQubits: seq<nat>, fixed: Placement, graph: AppGraph, m: Machine,
                  first: Placement)
      returns (r: Option<Placement>, ghost walks: seq<seq<Placement>>)
      requires Precomputed(physicalQubits, fixed, m) && connectedPairs != [] && programQubits != []
      requires Asked(programQubits, physicalQubits, fixed, graph, m) && graph.Keys <= first.Keys
      requires Assigns(first, programQubits, physicalQubits, fixed)
      modifies `physToProgramMap
      ensures r.None? ==>
                |programQubits| <= |LonelyQubits(m, physicalQubits)| && numResets > 0 && numIterations > 0
      ensures r.Some? ==>
                && Assigns(r.value, programQubits, physicalQubits, fixed)
                && Searched(heuristicCost, m, programQubits, physicalQubits, fixed, graph, numResets, numIterations,
                            first, r.value, walks)
    {
      hide Value, Assigns, Indexed, WellWired, CostsOn, AllPairs, FreePairs, Undirected, LonelyQubits, NothingInUse,
           Searched, SoFarBest, WalkGood, Ascending, DistinctIds;
      AskedMeans(programQubits, physicalQubits, fixed, graph, m);
      var bestPlacement := first;
      var bestPlacementCost := ValueHeuristic(first, graph);
      ghost var h := heuristicCost;
      walks := [];
      NoWalks(h, m, programQubits, physicalQubits, fixed, graph, numIterations, first);
      var reset := 0;
      while reset < numResets
        invariant 0 <= reset <= numResets && |walks| == reset
        invariant Assigns(bestPlacement, programQubits, physicalQubits, fixed)
        invariant bestPlacementCost == Value(h, bestPlacement, graph)
        invariant SoFarBest(h, m, programQubits, physicalQubits, fixed, graph, numIterations, first, bestPlacement,
                            walks)
      {
        ghost var walk;
        var step;
        step, walk := OneReset(programQubits, physicalQubits, fixed, graph, m, bestPlacement, bestPlacementCost);
        match step {
          case Continue(best, bestCost) =>
            OneMoreWalk(h, m, programQubits, physicalQubits, fixed, graph, numIterations, first, bestPlacement, walks,
                        step, walk);
            walks := walks + [walk];
            bestPlacement, bestPlacementCost := best, bestCost;
          case Finished(placement) =>
            SolvedOnWalk(h, m, programQubits, physicalQubits, fixed, graph, numResets, numIterations, first,
                         bestPlacement, walks, step, walk);
            return Some(placement), walks;
          case Stuck => return None, walks;
        }
        reset := reset + 1;
      }
      r := Some(bestPlacement);
      AllResets(h, m, programQubits, physicalQubits, fixed, graph, numResets, numIterations, first, bestPlacement,
                walks);
    }

    /** The costs from one qubit to the fixed ones, which are never swapped. */
    method FixedCosts(physicalQubits: seq<nat>, i: nat, fixed: Placement, m: Machine)
      requires i < |physicalQubits|
      requires heuristicCost ==
               CostsOn(m, FreePairs(physicalQubits, i, |physicalQubits|) + FixedPairs(physicalQubits, i, fixed))
      modifies `heuristicCost
      ensures heuristicCost ==
              CostsOn(m, FreePairs(physicalQubits, i + 1, 0) + FixedPairs(physicalQubits, i + 1, fixed))
    {
      hide CostsOn, FreePairs, FixedPairs, SwapHeuristic, FixedRow;
      ghost var free := FreePairs(physicalQubits, i, |physicalQubits|);
      ghost var before := FixedPairs(physicalQubits, i, fixed);
      RowOfPairs(physicalQubits, i);
      var left := fixed.Keys;
      assert before + FixedRow(physicalQubits, i, fixed, left) == before by {
        NoFixedYet(physicalQubits, i, fixed);
      }
      while left != {}
        invariant left <= fixed.Keys
        invariant heuristicCost == CostsOn(m, free + (before + FixedRow(physicalQubits, i, fixed, left)))
      {
        var p :| p in left;
        var pair := Sorted(physicalQubits[i], fixed[p]);
        RowOfFixed(physicalQubits, i, fixed, left, p);
        NextCost(m, free + (before + FixedRow(physicalQubits, i, fixed, left)), pair);
        assert free + (before + FixedRow(physicalQubits, i, fixed, left)) + {pair} ==
          free + (before + FixedRow(physicalQubits, i, fixed, left - {p}));
        var swapHeuristic := SwapHeuristic(m, pair);
        if swapHeuristic > 0 {
          heuristicCost := heuristicCost[pair := swapHeuristic];
        }
        left := left - {p};
      }
      LastFixed(physicalQubits, i, fixed);
    }
  }

  lemma {:induction false} NoFixedYet(phys: seq<nat>, i: nat, fixed: Placement)
    requires i < |phys|
    ensures FixedRow(phys, i, fixed, fixed.Keys) == {}
  {
  }

  lemma {:induction false} LastFixed(phys: seq<nat>, i: nat, fixed: Placement)
    requires i < |phys|
    ensures FixedPairs(phys, i, fixed) + FixedRow(phys, i, fixed, {}) == FixedPairs(phys, i + 1, fixed)
  {
  }

  lemma {:induction false} StartPairs(phys: seq<nat>, fixed: Placement, m: Machine)
    ensures FreePairs(phys, 0, 0) + FixedPairs(phys, 0, fixed) == {} && CostsOn(m, {}) == map[]
    ensures Indexed(m, FreePairs(phys, 0, 0), [], map[])
  {
  }

  // ----- Edges, node by node -----

  ghost function EdgesOf(graph: AppGraph, nodes: set<nat>): set<(nat, nat)> {
    set a, b | a in nodes && a in graph && b in graph[a] :: (a, b)
  }

  ghost function EdgesTo(a: nat, ends: set<nat>): set<(nat, nat)> {
    set b | b in ends :: (a, b)
  }

  lemma {:induction false} NoEdges(graph: AppGraph)
    ensures EdgesOf(graph, graph.Keys - graph.Keys) == {} && EdgesOf(graph, graph.Keys) == Edges(graph)
  {
  }

  lemma {:induction false} NextNode(graph: AppGraph, nodes: set<nat>, a: nat)
    requires a in graph && a !in nodes
    ensures EdgesOf(graph, nodes + {a}) == EdgesOf(graph, nodes) + EdgesTo(a, graph[a])
    ensures EdgesOf(graph, nodes) + EdgesTo(a, graph[a] - graph[a]) == EdgesOf(graph, nodes)
  {
  }

  lemma {:induction false} NextEdge(term: ((nat, nat)) -> int, graph: AppGraph, nodes: set<nat>, a: nat,
                                    ends: set<nat>, b: nat)
    requires a !in nodes && b !in ends
    ensures Sum(term, EdgesOf(graph, nodes) + EdgesTo(a, ends + {b})) ==
            Sum(term, EdgesOf(graph, nodes) + EdgesTo(a, ends)) + term((a, b))
  {
    var before, after := EdgesOf(graph, nodes) + EdgesTo(a, ends), EdgesOf(graph, nodes) + EdgesTo(a, ends + {b});
    SumPick(term, after, (a, b));
    assert after - {(a, b)} == before;
  }

  lemma {:induction false} NodeOf(graph: AppGraph, a: nat, b: nat)
    requires Undirected(graph) && b in Neighbours(graph, a)
    ensures b in graph
  {
    assert a in Neighbours(graph, b);
  }

  lemma {:induction false} TermAt(h: Costs, p: Placement, a: nat, b: nat)
    requires a in p && b in p
    ensures Term(h, p)((a, b)) == if p[a] < p[b] && (p[a], p[b]) in h then h[(p[a], p[b])] else 0
  {
  }

  lemma {:induction false} ChangeAt(h: Costs, p: Placement, from: nat, to: nat, b: nat)
    requires b in p
    ensures Change(h, p, from, to)(b) == Cost(h, to, p[b]) - Cost(h, from, p[b])
  {
  }

  /** What the four updates come to. */
  lemma {:induction false} SwappedInTurn(p: Placement, back: map<nat, nat>, q1: nat, q2: nat, r: Placement,
                                         after: map<nat, nat>)
    requires Inverts(back, p) && q1 != q2
    requires var first := if q1 in back then p[back[q1] := q2] else p;
             r == if q2 in back then first[back[q2] := q1] else first
    requires var first := if q1 in back then back[q2 := back[q1]] else back - {q2};
             after == if q2 in back then first[q1 := back[q2]] else first - {q1}
    ensures r == Swapped(p, q1, q2) && Inverts(after, r)
  {
    forall x | x in p ensures x in r && r[x] == Other(p[x], q1, q2) {
      assert back[p[x]] == x;
    }
    assert r.Keys == p.Keys;
  }

  // ----- Pairs near a place -----

  /** One of the neighbours makes up the pair. */
  ghost predicate Found(neighbours: seq<nat>, place: nat, pair: (nat, nat)) {
    exists n :: n in neighbours && Sorted(n, place) == pair
  }

  lemma {:induction false} NothingTouched(pairs: seq<(nat, nat)>)
    ensures forall k | 0 <= k < |pairs| :: !Touches(pairs[k], {})
  {
  }

  lemma {:induction false} FoundNext(neighbours: seq<nat>, i: nat, place: nat, pairs: seq<(nat, nat)>)
    requires i < |neighbours|
    ensures forall k | 0 <= k < |pairs| ::
              Found(neighbours[..i + 1], place, pairs[k]) <==>
              Found(neighbours[..i], place, pairs[k]) || pairs[k] == Sorted(neighbours[i], place)
  {
    assert neighbours[..i + 1] == neighbours[..i] + [neighbours[i]];
  }

  /** The pairs that the neighbours of a place make up are those that it is in. */
  lemma {:induction false} FoundIsTouched(m: Machine, phys: seq<nat>, pairs: seq<(nat, nat)>,
                                          index: map<(nat, nat), nat>, place: nat, places: set<nat>)
    requires Indexed(m, FreePairs(phys, |phys|, 0), pairs, index) && WellWired(m, phys) && Ascending(phys)
    ensures forall k | 0 <= k < |pairs| ::
              Found(m.connected(place), place, pairs[k]) <==> pairs[k].0 == place || pairs[k].1 == place
    ensures forall k | 0 <= k < |pairs| ::
              Touches(pairs[k], places + {place}) <==>
              Touches(pairs[k], places) || Found(m.connected(place), place, pairs[k])
  {
    forall k | 0 <= k < |pairs|
      ensures Found(m.connected(place), place, pairs[k]) <==> pairs[k].0 == place || pairs[k].1 == place
    {
      PairIsWired(m, phys, pairs, index, k);
      if pairs[k].0 == place {
        assert Sorted(pairs[k].1, place) == pairs[k];
      }
      if pairs[k].1 == place {
        assert Sorted(pairs[k].0, place) == pairs[k];
      }
    }
  }

  lemma {:induction false} PairIsWired(m: Machine, phys: seq<nat>, pairs: seq<(nat, nat)>,
                                       index: map<(nat, nat), nat>, k: nat)
    requires Indexed(m, FreePairs(phys, |phys|, 0), pairs, index) && WellWired(m, phys) && Ascending(phys)
    requires k < |pairs|
    ensures var (a, b) := pairs[k];
            a < b && a in phys && b in phys && SwapHeuristic(m, (a, b)) == 0 &&
            b in m.connected(a) && a in m.connected(b)
  {
    hide SwapHeuristic;
    var (a, b) := pairs[k];
    assert pairs[k] in index;
    assert (a, b) in FreePairs(phys, |phys|, 0);
  }

  /** What the loops of UpdateSwapChecks have done for some places, and for some neighbours
      of the next. */
  ghost predicate NearChecked(places: set<nat>, neighbours: seq<nat>, place: nat, pairs: seq<(nat, nat)>,
                              inUse: set<nat>, checks: seq<nat>, before: map<nat, int>, kept: map<nat, int>)
  {
    && (forall k: nat :: k in checks <==>
          k < |pairs| && Touches(pairs[k], inUse) && (Touches(pairs[k], places) || Found(neighbours, place, pairs[k])))
    && (forall k: nat :: k in kept <==>
          k in before && !(k < |pairs| && !Touches(pairs[k], inUse) &&
                           (Touches(pairs[k], places) || Found(neighbours, place, pairs[k]))))
    && (forall k | k in kept :: kept[k] == before[k])
  }

  lemma {:induction false} NothingChecked(pairs: seq<(nat, nat)>, inUse: set<nat>, before: map<nat, int>)
    ensures NearChecked({}, [], 0, pairs, inUse, [], before, before)
  {
  }

  lemma {:induction false} AllChecked(places: set<nat>, pairs: seq<(nat, nat)>, inUse: set<nat>, checks: seq<nat>,
                                      before: map<nat, int>, kept: map<nat, int>)
    requires NearChecked(places, [], 0, pairs, inUse, checks, before, kept)
    ensures forall k: nat :: k in checks <==> k < |pairs| && Touches(pairs[k], inUse) && Touches(pairs[k], places)
    ensures forall k: nat :: k in kept <==>
              k in before && !(k < |pairs| && !Touches(pairs[k], inUse) && Touches(pairs[k], places))
    ensures forall k | k in kept :: kept[k] == before[k]
  {
    hide Touches;
    assert forall p: (nat, nat) :: !Found([], 0, p);
    hide Found;
  }

  lemma {:induction false} SwappedIndex(m: Machine, phys: seq<nat>, pairs: seq<(nat, nat)>,
                                        index: map<(nat, nat), nat>, pair: (nat, nat))
    requires Indexed(m, FreePairs(phys, |phys|, 0), pairs, index) && pair in index
    ensures forall k | 0 <= k < |pairs| :: pairs[k] == pair <==> k == index[pair]
  {
    hide FreePairs;
  }

  lemma {:induction false} NoNeighbours(places: set<nat>, neighbours: seq<nat>, place: nat, pairs: seq<(nat, nat)>,
                                        inUse: set<nat>, checks: seq<nat>, before: map<nat, int>, kept: map<nat, int>)
    requires NearChecked(places, [], 0, pairs, inUse, checks, before, kept)
    ensures NearChecked(places, neighbours[..0], place, pairs, inUse, checks, before, kept)
  {
    hide Touches;
    assert neighbours[..0] == [];
    assert forall p: (nat, nat), q: nat :: !Found([], q, p);
  }

  lemma {:induction false} NextNeighbour(places: set<nat>, neighbours: seq<nat>, i: nat, place: nat,
                                         pairs: seq<(nat, nat)>, index: map<(nat, nat), nat>, inUse: set<nat>,
                                         checks: seq<nat>, before: map<nat, int>, kept: map<nat, int>,
                                         m: Machine, seen: set<(nat, nat)>)
    requires i < |neighbours| && Indexed(m, seen, pairs, index)
    requires NearChecked(places, neighbours[..i], place, pairs, inUse, checks, before, kept)
    ensures var pair := Sorted(neighbours[i], place);
            var next := neighbours[..i + 1];
            if pair !in index then NearChecked(places, next, place, pairs, inUse, checks, before, kept)
            else if pair.0 !in inUse && pair.1 !in inUse then
              NearChecked(places, next, place, pairs, inUse, checks, before, kept - {index[pair]})
            else
              NearChecked(places, next, place, pairs, inUse,
                          if index[pair] in checks then checks else checks + [index[pair]], before, kept)
  {
    hide Found;
    FoundNext(neighbours, i, place, pairs);
  }

  lemma {:induction false} PlaceDone(places: set<nat>, neighbours: seq<nat>, place: nat, pairs: seq<(nat, nat)>,
                                     index: map<(nat, nat), nat>, inUse: set<nat>, checks: seq<nat>,
                                     before: map<nat, int>, kept: map<nat, int>, m: Machine, phys: seq<nat>)
    requires Indexed(m, FreePairs(phys, |phys|, 0), pairs, index) && WellWired(m, phys) && Ascending(phys)
    requires neighbours == m.connected(place)
    requires NearChecked(places, neighbours, place, pairs, inUse, checks, before, kept)
    ensures NearChecked(places + {place}, [], 0, pairs, inUse, checks, before, kept)
  {
    FoundIsTouched(m, phys, pairs, index, place, places);
    assert forall p: (nat, nat) :: !Found([], 0, p);
    hide Touches, Found, WellWired, Indexed;
  }

  lemma {:induction false} NearIsPlaced(p: Placement, back: map<nat, nat>, graph: AppGraph, q: nat)
    requires Inverts(back, p) && Undirected(graph) && graph.Keys <= p.Keys
    ensures forall x | x in NearPlace(back, graph, q) :: x in p
  {
    if q in back {
      forall x | x in Neighbours(graph, back[q]) ensures x in p {
        NodeOf(graph, back[q], x);
      }
    }
  }

  /** `x` taken out. */
  function Without(s: seq<nat>, x: nat): (r: seq<nat>)
    ensures forall y :: y in r <==> y in s && y != x
  {
    if s == [] then [] else if s[0] == x then Without(s[1..], x) else [s[0]] + Without(s[1..], x)
  }
}
