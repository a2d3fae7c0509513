/** Placement of the qubits of one block: those that are placed already stay, the others
    are handed to a search over the free physical qubits. */
module LocalPlacement {
  import opened CustomSubset
  import opened QubitMaps
  import opened SwapCosts
  import opened PlacementSearch

  // ----- What is asked of the machine and of the gates -----

  /** The neighbours of a physical qubit are those at distance 1. */
  ghost predicate Wired(m: Machine, n: nat) {
    forall a, b | 0 <= a < n && 0 <= b < n && a != b :: b in m.connected(a) <==> SwapHeuristic(m, Sorted(a, b)) == 0
  }

  /** The search knows where the program qubits of the gates are: they are below the total,
      or have a physical qubit already. */
  ghost predicate Known(graph: AppGraph, pp: seq<nat>, total: nat) {
    forall x | x in graph :: x < |pp| && (x < total || Placed(pp[x]))
  }

  /** Gates on program qubits that are not excluded are known if there are no holes. */
  lemma {:induction false} KnownWithoutHoles(graph: AppGraph, pp: seq<nat>, total: nat)
    requires total == Counted(pp) && NoHoles(pp, total)
    requires forall x | x in graph :: x < |pp| && pp[x] != EXCLUDED
    ensures Known(graph, pp, total)
  {
    ExcludedComeLast(pp, total);
  }

  /** Physical qubits in a line. */
  function Line(): Machine {
    Machine((a: nat, b: nat) => if a < b then b - a else a - b, (q: nat) => if q == 0 then [1] else [q - 1, q + 1])
  }

  /** A line of any length is such a machine; and as long as nothing is placed on a line of two
      or more, no qubit is lonely. */
  lemma {:induction false} LineIsWired(n: nat)
    ensures Wired(Line(), n) && Undirected(map[]) && Known(map[], [], n)
    ensures n >= 2 ==> LonelyFree(Line(), [], n) == {}
  {
    if n >= 2 {
      forall q: nat | q < n ensures q !in LonelyFree(Line(), [], n) {
        var b := if q == 0 then 1 else q - 1;
        assert b in FreePlaces([], n) && SwapHeuristic(Line(), Sorted(q, b)) == 0;
      }
    }
  }

  /** The program qubits that have a physical qubit and are not below the total. */
  function Beyond(pp: seq<nat>, total: nat): set<nat> {
    set p | 0 <= p < |pp| && total <= p && Placed(pp[p])
  }

  /** Everything fits. */
  ghost predicate Room(pp: seq<nat>, n: nat) {
    Counted(pp) == 0 || (Counted(pp) + |Beyond(pp, Counted(pp))| <= n && |pp| <= n)
  }

  /** The ids below the total that have no physical qubit. */
  function IdsToPlace(pp: seq<nat>, total: nat): set<nat> {
    set p | 0 <= p < total && !(p < |pp| && Placed(pp[p]))
  }

  function FreePlaces(qp: seq<nat>, n: nat): set<nat> {
    set q | 0 <= q < n && (q < |qp| ==> qp[q] == FREE)
  }

  /** The free physical qubits that are next to no other free one. */
  ghost function LonelyFree(m: Machine, qp: seq<nat>, n: nat): set<nat> {
    set q | q in FreePlaces(qp, n) &&
            forall b | b in FreePlaces(qp, n) && b != q :: SwapHeuristic(m, Sorted(q, b)) > 0
  }

  /** All ids to place fit on lonely qubits, and there are others. */
  ghost predicate MayStick(m: Machine, pp: seq<nat>, qp: seq<nat>, n: nat) {
    0 < |IdsToPlace(pp, Counted(pp))| <= |LonelyFree(m, qp, n)| < |FreePlaces(qp, n)|
  }

  method GetMappedPhysQubits(map_: MapProgToPhysQubits) returns (mapped: set<nat>)
    ensures forall q: nat :: q in mapped <==> q < |map_.physToProg| && map_.physToProg[q] != FREE
  {
    mapped := {};
    var i := 0;
    while i < |map_.physToProg|
      invariant 0 <= i <= |map_.physToProg|
      invariant forall q: nat :: q in mapped <==> q < i && map_.physToProg[q] != FREE
    {
      if map_.physToProg[i] != FREE {
        mapped := mapped + {i};
      }
      i := i + 1;
    }
  }

  /** 0, 1, 2, ... */
  ghost predicate Counting(s: seq<nat>) {
    forall i | 0 <= i < |s| :: s[i] == i
  }

  method AllPhysQubits(n: nat) returns (all: seq<nat>)
    ensures |all| == n && Counting(all)
  {
    all := [];
    while |all| < n
      invariant |all| <= n && Counting(all)
    {
      all := all + [|all|];
    }
  }

  method SplitQubits(map_: MapProgToPhysQubits, total: nat, allPhysQubits: seq<nat>)
    returns (fixed: map<nat, nat>, toPlace: seq<nat>, free: seq<nat>)
    requires Consistent(map_.progToPhys, map_.physToProg) && SmallIds(map_.progToPhys, map_.physToProg)
    requires Counting(allPhysQubits) && |allPhysQubits| == |map_.physToProg|
    ensures IsSplit(map_.progToPhys, map_.physToProg, total, fixed, toPlace, free)
  {
    var mapped := GetMappedPhysQubits(map_);
    fixed, toPlace, free := map[], [], [];
    var i := 0;
    while i < |allPhysQubits|
      invariant 0 <= i <= |allPhysQubits| && Ascending(free)
      invariant forall q: nat :: q in free <==> q < i && map_.physToProg[q] == FREE
      invariant forall p: nat :: p in fixed <==>
                p < |map_.progToPhys| && Placed(map_.progToPhys[p]) && map_.progToPhys[p] < i
      invariant forall p | p in fixed :: p < |map_.progToPhys| && fixed[p] == map_.progToPhys[p]
    {
      var qubit := allPhysQubits[i];
      if qubit in mapped {
        var progQubit := map_.physToProg[qubit];
        if progQubit !in fixed {
          fixed := fixed[progQubit := qubit];
        }
      } else {
        AscendingNext(free, qubit);
        free := free + [qubit];
      }
      i := i + 1;
    }
    var progQubit := 0;
    while progQubit < total
      invariant 0 <= progQubit <= total && Ascending(toPlace)
      invariant forall p: nat :: p in toPlace <==> p < progQubit && p !in fixed
    {
      if progQubit !in fixed {
        AscendingNext(toPlace, progQubit);
        toPlace := toPlace + [progQubit];
      }
      progQubit := progQubit + 1;
    }
  }

  lemma {:induction false} AscendingNext(s: seq<nat>, x: nat)
    requires Ascending(s) && forall y | y in s :: y < x
    ensures Ascending(s + [x])
  {
    assert forall i | 0 <= i < |s| :: s[i] in s;
  }

  /** What the search for a block is asked for, and what it came to. */
  datatype Job = Job(fixed: Placement, toPlace: seq<nat>, free: seq<nat>, placement: Placement,
                     walks: seq<seq<Placement>>)

  /** The split of the maps with `n` physical qubits, and a placement that the search for it
      came to. */
  ghost predicate Answered(job: Job, pp: seq<nat>, before: seq<nat>, n: nat, graph: AppGraph, m: Machine,
                           resets: nat, iterations: nat)
    requires |before| <= n
  {
    && IsSplit(pp, before + seq(n - |before|, _ => FREE), Counted(pp), job.fixed, job.toPlace, job.free)
    && SearchGood(m, job.toPlace, job.free, job.fixed, graph, resets, iterations, job.placement, job.walks)
  }

  lemma {:induction false} AnsweredBy(job: Job, pp: seq<nat>, before: seq<nat>, qp: seq<nat>, n: nat, graph: AppGraph,
                                      m: Machine, resets: nat, iterations: nat)
    requires |before| <= n && qp == before + seq(n - |before|, _ => FREE)
    requires IsSplit(pp, qp, Counted(pp), job.fixed, job.toPlace, job.free)
    requires SearchGood(m, job.toPlace, job.free, job.fixed, graph, resets, iterations, job.placement, job.walks)
    ensures Answered(job, pp, before, n, graph, m, resets, iterations)
  {
    hide IsSplit, SearchGood;
  }

  /** The search may have been stuck. */
  lemma {:induction false} StuckMeans(pp: seq<nat>, before: seq<nat>, qp: seq<nat>, total: nat, fixed: map<nat, nat>,
                                      toPlace: seq<nat>, free: seq<nat>, m: Machine, n: nat)
    requires IsSplit(pp, qp, total, fixed, toPlace, free) && |before| <= n && total == Counted(pp)
    requires qp == before + seq(n - |before|, _ => FREE)
    ensures 0 < |toPlace| <= |LonelyQubits(m, free)| < |free| ==> MayStick(m, pp, before, n)
  {
    hide IsSplit, Counted, LonelyQubits, LonelyFree, FreePlaces, IdsToPlace;
    SplitMeans(pp, before, qp, total, fixed, toPlace, free, m, n);
  }

  /** One block.  It ends well only if there is room, and always if there is room and the
      search cannot be stuck.  Then every program qubit below the
      total has a physical one; in any case those that were placed have kept theirs, and the
      maps undo each other. */
  method PlaceBlock(map_: MapProgToPhysQubits, numPlatformQubits: nat, search: LocalSearch, graph: AppGraph,
                    m: Machine) returns (ok: bool, ghost job: Job)
    requires Consistent(map_.progToPhys, map_.physToProg)
    requires |map_.progToPhys| <= FREE && |map_.physToProg| <= numPlatformQubits <= FREE
    requires Wired(m, numPlatformQubits) && Undirected(graph)
    requires Known(graph, map_.progToPhys, Counted(map_.progToPhys))
    modifies map_, search
    ensures ok ==> Room(old(map_.progToPhys), numPlatformQubits)
    ensures Room(old(map_.progToPhys), numPlatformQubits) && !ok ==>
              && MayStick(m, old(map_.progToPhys), old(map_.physToProg), numPlatformQubits)
              && old(search.numResets) > 0 && old(search.numIterations) > 0
    ensures ok && Counted(old(map_.progToPhys)) > 0 ==>
              && Answered(job, old(map_.progToPhys), old(map_.physToProg), numPlatformQubits, graph, m,
                       old(search.numResets), old(search.numIterations))
              && map_.progToPhys == Filled(old(map_.progToPhys), job.placement)
    ensures Consistent(map_.progToPhys, map_.physToProg)
    ensures |map_.progToPhys| == |old(map_.progToPhys)|
    ensures forall p | 0 <= p < |map_.progToPhys| && old(map_.progToPhys[p]) != VIRTUAL ::
            map_.progToPhys[p] == old(map_.progToPhys[p])
    ensures ok && Counted(old(map_.progToPhys)) > 0 ==>
              forall p | 0 <= p < |map_.progToPhys| && old(map_.progToPhys[p]) == VIRTUAL ::
                map_.progToPhys[p] != VIRTUAL <==> p < Counted(old(map_.progToPhys))
    ensures ok && NoHoles(old(map_.progToPhys), Counted(old(map_.progToPhys))) ==>
              forall p | 0 <= p < |map_.progToPhys| :: map_.progToPhys[p] != VIRTUAL
  {
    hide Counted, Filled, FilledBack, IsSplit, UpTo, Consistent, Known, Wired, Undirected, Assigns, LonelyQubits,
         LonelyFree, FreePlaces, IdsToPlace, WellWired, NoHoles, Beyond, Fits, Apart, Value, SearchGood, Answered,
         MayStick;
    job := Job(map[], [], [], map[], []);
    var all := AllPhysQubits(numPlatformQubits);
    var total := map_.GetNumProgQubits();
    CountedBounds(map_.progToPhys);
    HolesAtTotal(map_.progToPhys, total);
    if total == 0 {
      return true, job;
    }
    if total > numPlatformQubits {
      return false, job;
    }
    ghost var before := map_.physToProg;
    map_.SetNumPhysQubits(numPlatformQubits);
    ghost var pp, qp := map_.progToPhys, map_.physToProg;
    var fixed, toPlace, free := SplitQubits(map_, total, all);
    RoomForAll(pp, qp, total, fixed, toPlace, free);
    SearchIsAsked(pp, qp, total, fixed, toPlace, free, graph, m, numPlatformQubits);
    search.LocalSearchReset();
    var placement;
    ghost var walks;
    placement, walks := search.Search(toPlace, free, fixed, graph, m);
    if placement.None? {
      StuckMeans(pp, before, qp, total, fixed, toPlace, free, m, numPlatformQubits);
      return false, job;
    }
    job := Job(fixed, toPlace, free, placement.value, walks);
    AnsweredBy(job, pp, before, qp, numPlatformQubits, graph, m, search.numResets, search.numIterations);
    PlacementFits(pp, qp, total, fixed, toPlace, free, placement.value);
    ok := map_.SetCustomMap(placement.value);
    if ok {
      FilledConsistent(pp, qp, placement.value, map_.physToProg);
      FilledVirtual(pp, qp, total, fixed, toPlace, free, placement.value);
    }
  }

  /** Excluded ids that come last are not virtual. */
  lemma {:induction false} HolesAtTotal(pp: seq<nat>, total: nat)
    requires total == Counted(pp)
    ensures NoHoles(pp, total) ==> forall p | total <= p < |pp| :: pp[p] != VIRTUAL
  {
    if NoHoles(pp, total) {
      ExcludedComeLast(pp, total);
    }
  }

  lemma {:induction false} RoomForAll(pp: seq<nat>, qp: seq<nat>, total: nat, fixed: map<nat, nat>, toPlace: seq<nat>,
                                      free: seq<nat>)
    requires Consistent(pp, qp) && IsSplit(pp, qp, total, fixed, toPlace, free) && SmallIds(pp, qp)
    ensures |toPlace| <= |free| <==> total + |Beyond(pp, total)| <= |qp|
  {
    EnoughFree(pp, qp, total, fixed, toPlace, free);
    assert Beyond(pp, total) == fixed.Keys - UpTo(total);
  }

  /** The split is what the search expects. */
  lemma {:induction false} SearchIsAsked(pp: seq<nat>, qp: seq<nat>, total: nat, fixed: map<nat, nat>,
                                         toPlace: seq<nat>, free: seq<nat>, graph: AppGraph, m: Machine, n: nat)
    requires Consistent(pp, qp) && IsSplit(pp, qp, total, fixed, toPlace, free) && SmallIds(pp, qp)
    requires Known(graph, pp, total) && Wired(m, n) && |qp| == n
    ensures DistinctIds(toPlace) && Ascending(free) && OneToOne(fixed)
    ensures forall x | x in toPlace :: x !in fixed
    ensures forall x | x in fixed :: fixed[x] !in free
    ensures graph.Keys <= fixed.Keys + Elements(toPlace) && WellWired(m, free)
  {
    SplitIsApart(pp, qp, total, fixed, toPlace, free);
    hide Consistent;
  }

  /** The lists of the split are these sets. */
  lemma {:induction false} SplitMeans(pp: seq<nat>, before: seq<nat>, qp: seq<nat>, total: nat, fixed: map<nat, nat>,
                                      toPlace: seq<nat>, free: seq<nat>, m: Machine, n: nat)
    requires IsSplit(pp, qp, total, fixed, toPlace, free) && |before| <= n
    requires qp == before + seq(n - |before|, _ => FREE)
    ensures |toPlace| == |IdsToPlace(pp, total)| && |free| == |FreePlaces(before, n)|
    ensures LonelyQubits(m, free) == LonelyFree(m, before, n)
  {
    hide SwapHeuristic;
    AscendingSize(toPlace);
    AscendingSize(free);
    hide Ascending;
    assert Elements(toPlace) == IdsToPlace(pp, total);
    assert forall q: nat :: q in free <==> q < n && (q < |before| ==> before[q] == FREE);
    assert Elements(free) == FreePlaces(before, n);
  }

  /** The search for a block may start where it is stuck exactly under that condition. */
  lemma {:induction false} MayStickIff(pp: seq<nat>, before: seq<nat>, qp: seq<nat>, total: nat, fixed: map<nat, nat>,
                                       toPlace: seq<nat>, free: seq<nat>, m: Machine, n: nat,
                                       pairs: seq<(nat, nat)>, index: map<(nat, nat), nat>)
    requires Consistent(pp, qp) && IsSplit(pp, qp, total, fixed, toPlace, free) && SmallIds(pp, qp)
    requires total == Counted(pp) && |before| <= n && qp == before + seq(n - |before|, _ => FREE)
    requires Indexed(m, FreePairs(free, |free|, 0), pairs, index)
    ensures MayStick(m, pp, before, n) <==>
            toPlace != [] && pairs != [] && exists p :: Assigns(p, toPlace, free, fixed) && NothingInUse(pairs, p)
  {
    hide Assigns, NothingInUse, Indexed, LonelyQubits, LonelyFree, Counted, Consistent, FreePairs;
    SplitMeans(pp, before, qp, total, fixed, toPlace, free, m, n);
    SplitIsApart(pp, qp, total, fixed, toPlace, free);
    SomeNotLonely(m, free, pairs, index);
    StuckStartIff(m, pairs, index, toPlace, free, fixed);
  }

  lemma {:induction false} SplitIsApart(pp: seq<nat>, qp: seq<nat>, total: nat, fixed: map<nat, nat>,
                                        toPlace: seq<nat>, free: seq<nat>)
    requires Consistent(pp, qp) && IsSplit(pp, qp, total, fixed, toPlace, free) && SmallIds(pp, qp)
    ensures DistinctIds(toPlace) && Ascending(free) && OneToOne(fixed)
    ensures forall x | x in toPlace :: x !in fixed
    ensures forall x | x in fixed :: fixed[x] !in free
  {
    PhysPartition(pp, qp, total, fixed, toPlace, free);
    assert forall x | x in fixed :: fixed[x] in fixed.Values && fixed[x] !in Elements(free);
    hide Consistent;
    AscendingIsDistinct(toPlace);
  }

  lemma {:induction false} PlacementFits(pp: seq<nat>, qp: seq<nat>, total: nat, fixed: map<nat, nat>,
                                         toPlace: seq<nat>, free: seq<nat>, placement: map<nat, nat>)
    requires Consistent(pp, qp) && IsSplit(pp, qp, total, fixed, toPlace, free) && total <= |pp|
    requires Assigns(placement, toPlace, free, fixed)
    ensures Fits(pp, qp, placement) && Apart(pp, qp, placement)
  {
  }

  /** What is virtual afterwards. */
  lemma {:induction false} FilledVirtual(pp: seq<nat>, qp: seq<nat>, total: nat, fixed: map<nat, nat>,
                                         toPlace: seq<nat>, free: seq<nat>, placement: map<nat, nat>)
    requires IsSplit(pp, qp, total, fixed, toPlace, free) && SmallIds(pp, qp)
    requires Assigns(placement, toPlace, free, fixed)
    ensures forall p | 0 <= p < |pp| && pp[p] != VIRTUAL :: Filled(pp, placement)[p] == pp[p]
    ensures forall p | 0 <= p < |pp| && pp[p] == VIRTUAL :: Filled(pp, placement)[p] != VIRTUAL <==> p < total
  {
  }
}
