/** Whole runs: a graph that grows by addToFLEQGraph and changes by replaceNodeWith, any
    number of times and in any order.  What holds of every graph on the way. */
module FleqRuns {
  import opened FleqSpec
  import opened FleqBuilding
  import opened FleqDeath
  import opened FleqAcyclic
  import opened FleqReplace

  // ----- addToFLEQGraph and deaths -----

  /** Nodes that `r` has and `g` has not are live, and but for `roots` they hang from a
      live parent. */
  ghost predicate Hung(g: Graph, r: Graph, roots: set<Value>) {
    forall x | x in r && x !in g :: !IsDead(r, x) && (x in roots || HasLiveParent(r, x))
  }

  /** Types stay and parent lists only grow, so a live parent stays one. */
  ghost predicate KeepsLife(g: Graph, r: Graph) {
    forall x | x in g :: x in r && IsDead(g, x) == IsDead(r, x) && (HasLiveParent(g, x) ==> HasLiveParent(r, x))
  }

  lemma {:induction false} GrowsKeepsLife(env: Program, g: Graph, r: Graph, busy: set<Value>)
    requires Grows(g, r, busy) && Inside(env, g)
    ensures KeepsLife(g, r)
  {
    forall x | x in g ensures x in r && IsDead(g, x) == IsDead(r, x) && (HasLiveParent(g, x) ==> HasLiveParent(r, x)) {
      if HasLiveParent(g, x) {
        var p :| p in g[x].parents && !IsDead(g, p);
        assert p in g && p in r[x].parents && !IsDead(r, p);
      }
    }
  }

  lemma {:induction false} HungTrans(g: Graph, h: Graph, r: Graph, a: set<Value>, b: set<Value>, roots: set<Value>)
    requires g.Keys <= h.Keys && Hung(g, h, a) && Hung(h, r, b) && KeepsLife(h, r)
    requires forall x | x in a + b && x !in g :: x in roots || HasLiveParent(r, x)
    ensures Hung(g, r, roots)
  {
    hide IsDead, HasLiveParent;
  }

  /** Every node that addToFLEQGraph(v) makes is live and, but for `v`, has a live parent. */
  lemma {:induction false} AddToHangs(env: Program, g: Graph, v: Value)
    requires WellFormed(env) && Inside(env, g) && v in env.values
    ensures Hung(g, AddTo(env, g, v), {v})
    decreases Unexpanded(env, g), 0, 0
  {
    hide AddTo, AddAll, Inside, Unexpanded, Known, Grows, Hung, KeepsLife;
    AddToUnfolds(env, g, v);
    var g1 := GetOrInsert(env, g, v);
    InsertHangs(env, g, v);
    if g1[v].deps == [] {
      var lst := env.depsOf(v, g1[v].ty);
      AddAllFacts(env, g1, v, lst);
      GrowsKeepsLife(env, g1, AddAll(env, g1, v, lst), {v});
      if g1[v].ty == Dead {
        NothingAdded(env, g1, v);
      } else {
        AddAllHangs(env, g1, v, lst);
        HungTrans(g, g1, AddAll(env, g1, v, lst), {v}, {}, {v});
      }
    }
  }

  lemma {:induction false} InsertHangs(env: Program, g: Graph, v: Value)
    requires WellFormed(env) && v in env.values
    ensures Hung(g, GetOrInsert(env, g, v), {v})
  {
  }

  lemma {:induction false} AddAllHangs(env: Program, g: Graph, p: Value, lst: seq<Value>)
    requires WellFormed(env) && Inside(env, g) && p in g && Known(env, lst) && !IsDead(g, p)
    ensures Hung(g, AddAll(env, g, p, lst), {})
    decreases Unexpanded(env, g) - {p}, 2, |lst|
  {
    hide AddTo, AddAll, Turn, Inside, WellFormed, Unexpanded, Known, Grows, Hung, KeepsLife, IsDead;
    if lst == [] {
      NothingAdded(env, g, p);
      NothingHung(g);
    } else {
      AddAllUnfolds(env, g, p, lst);
      var t := Turn(env, g, p, lst[0]);
      TurnHangs(env, g, p, lst[0]);
      GrowsKeepsLife(env, g, t, {p});
      StaysAlive(g, t, p);
      AddAllHangs(env, t, p, lst[1..]);
      AddAllFacts(env, t, p, lst[1..]);
      GrowsKeepsLife(env, t, AddAll(env, t, p, lst[1..]), {p});
      GrowsKeys(g, t, {p});
      HungTrans(g, t, AddAll(env, t, p, lst[1..]), {}, {}, {});
    }
  }

  lemma {:induction false} GrowsKeys(g: Graph, r: Graph, busy: set<Value>)
    requires Grows(g, r, busy)
    ensures g.Keys <= r.Keys
  {
  }

  lemma {:induction false} StaysAlive(g: Graph, r: Graph, p: Value)
    requires KeepsLife(g, r) && p in g
    ensures IsDead(r, p) == IsDead(g, p)
  {
  }

  lemma {:induction false} NothingHung(g: Graph)
    ensures Hung(g, g, {})
  {
  }

  lemma {:induction false} TurnHangs(env: Program, g: Graph, p: Value, c: Value)
    requires WellFormed(env) && Inside(env, g) && p in g && c in env.values && !IsDead(g, p)
    ensures Hung(g, Turn(env, g, p, c), {})
    decreases Unexpanded(env, g) - {p}, 1, 0
  {
    hide AddTo, AddAll, Turn, Inside, WellFormed, Unexpanded, Grows, Hung, KeepsLife, IsDead, HasLiveParent,
         AddCallee, AddParent;
    TurnUnfolds(env, g, p, c);
    var g2 := AddCallee(GetOrInsert(env, g, c), p, c);
    var g3 := AddTo(env, g2, c);
    var g4 := AddParent(g3, c, p);
    CalleeHangs(env, g, p, c);
    AddToHangs(env, g2, c);
    ParentFacts(env, g3, c, p);
    GrowsTrans(g2, g3, g4, {}, {});
    GrowsKeepsLife(env, g2, g4, {});
    GrowsKeepsLife(env, g, g2, {p});
    StaysAlive(g, g2, p);
    StaysAlive(g2, g4, p);
    ParentHangs(g2, g3, c, p);
    HungTrans(g, g2, g4, {c}, {}, {});
  }

  lemma {:induction false} CalleeHangs(env: Program, g: Graph, p: Value, c: Value)
    requires WellFormed(env) && p in g && c in env.values
    ensures var r := AddCallee(GetOrInsert(env, g, c), p, c); g.Keys <= r.Keys && Hung(g, r, {c})
  {
  }

  lemma {:induction false} ParentHangs(g: Graph, h: Graph, c: Value, p: Value)
    requires c in h && c in g && p in h && Hung(g, h, {c}) && !IsDead(AddParent(h, c, p), p)
    ensures var r := AddParent(h, c, p); Hung(g, r, {}) && HasLiveParent(r, c)
  {
    var r := AddParent(h, c, p);
    assert p in r[c].parents;
    forall x | x in r && x !in g ensures !IsDead(r, x) && HasLiveParent(r, x) {
      assert !IsDead(h, x) && HasLiveParent(h, x);
      var q :| q in h[x].parents && !IsDead(h, q);
      assert q in r[x].parents && !IsDead(r, q);
    }
  }

  /** No dead node gets a child by it. */
  lemma {:induction false} AddToQuiet(env: Program, g: Graph, v: Value)
    requires WellFormed(env) && Inside(env, g) && v in env.values && Quiet(g)
    ensures Quiet(AddTo(env, g, v))
  {
    hide AddTo, HasLiveParent;
    var r := AddTo(env, g, v);
    AddToExact(env, g, v);
    AddToHangs(env, g, v);
    assert Hung(g, r, r.Keys);
    GrowsKeepsLife(env, g, r, {});
    forall p, c | p in r && IsDead(r, p) && c in r[p].deps ensures IsDead(r, c) || HasLiveParent(r, c) {
      DeadStaysBare(env, g, r, p);
      assert c in g;
    }
  }

  lemma {:induction false} DeadStaysBare(env: Program, g: Graph, r: Graph, p: Value)
    requires WellFormed(env) && Inside(env, r) && Exact(env, g, r, {}) && Hung(g, r, r.Keys) && KeepsLife(g, r) &&
             p in r && IsDead(r, p)
    ensures p in g && IsDead(g, p) && (r[p].deps == g[p].deps || r[p].deps == [])
  {
  }

  // ----- What every step keeps -----

  /** Edges are counted alike in both directions, but for some out of dead nodes. */
  ghost predicate Counted(g: Graph, lost: Edges) {
    Balanced(g, lost) && DeadSources(g, lost)
  }

  ghost predicate Sound(env: Program, g: Graph) {
    Inside(env, g) && exists lost :: Counted(g, lost)
  }

  /** But for `roots`, every live node has a live parent. */
  ghost predicate Rooted(g: Graph, roots: set<Value>) {
    forall x | x in g && !IsDead(g, x) :: x in roots || HasLiveParent(g, x)
  }

  lemma {:induction false} BalancedIsMirrored(env: Program, g: Graph, lost: Edges)
    requires Inside(env, g) && Balanced(g, lost)
    ensures Mirrored(g) && Closed(g)
  {
    forall c, p | c in g && p in g[c].parents ensures p in g && c in g[p].deps {
      assert BalancedAt(g, lost, p, c);
    }
  }

  lemma {:induction false} AddToSound(env: Program, g: Graph, v: Value, lost: Edges)
    requires WellFormed(env) && Inside(env, g) && Counted(g, lost) && v in env.values
    ensures var r := AddTo(env, g, v); Sound(env, r) && Counted(r, lost)
  {
    hide AddTo, Balanced, Inside;
    var r := AddTo(env, g, v);
    AddToBalanced(env, g, v, lost);
    GrowsKeepsLife(env, g, r, {});
    assert DeadSources(r, lost);
    assert Counted(r, lost);
  }

  lemma {:induction false} AddToRooted(env: Program, g: Graph, v: Value, roots: set<Value>)
    requires WellFormed(env) && Inside(env, g) && v in env.values && Rooted(g, roots)
    ensures Rooted(AddTo(env, g, v), roots + {v})
  {
    hide AddTo, HasLiveParent, IsDead, Inside;
    AddToHangs(env, g, v);
    GrowsKeepsLife(env, g, AddTo(env, g, v), {});
  }

  /** The edges whose parent entry is missing after a replacement, as a multiset. */
  ghost function Forget(lost: Edges, ps: seq<Value>, fn: Value): Edges {
    if ps == [] then lost else Forget(lost[(ps[0], fn) := 0], ps[1..], fn)
  }

  lemma {:induction false} ForgetAt(lost: Edges, ps: seq<Value>, fn: Value, p: Value, c: Value)
    ensures Forget(lost, ps, fn)[(p, c)] == if c == fn && p in ps then 0 else lost[(p, c)]
    decreases |ps|
  {
    if ps != [] {
      ForgetAt(lost[(ps[0], fn) := 0], ps[1..], fn, p, c);
      assert ps == [ps[0]] + ps[1..];
    }
  }

  ghost function LostAfter(g: Graph, fn: Value, nn: Value, lost: Edges): Edges
    requires fn in g && nn in g
  {
    Forget(lost, g[fn].parents, fn) +
    if fn in g[nn].parents && g[fn].parents != [] then multiset{(fn, nn)} else multiset{}
  }

  lemma {:induction false} LostAfterAt(g: Graph, fn: Value, nn: Value, lost: Edges, p: Value, c: Value)
    requires fn in g && nn in g && fn != nn
    ensures LostAfter(g, fn, nn, lost)[(p, c)] == MissingAfter(g, fn, nn, lost, p, c)
  {
    ForgetAt(lost, g[fn].parents, fn, p, c);
    hide Forget;
  }

  lemma {:induction false} ReplaceBalanced(g: Graph, fn: Value, nn: Value, lost: Edges)
    requires CanReplace(g, fn, nn) && Mirrored(g) && Closed(g) && Balanced(g, lost)
    ensures Balanced(Replace(g, fn, nn), LostAfter(g, fn, nn, lost))
  {
    hide Rewired, Acyclic, Reaches, MarkDead, LiftedRank, LostAfter, Mirrored, Closed;
    ReplaceOnlyKills(g, fn, nn);
    var h, r, more := Rewired(g, fn, nn), Replace(g, fn, nn), LostAfter(g, fn, nn, lost);
    forall e | e in more ensures e.0 in r && e.1 in r {
      LostAfterAt(g, fn, nn, lost, e.0, e.1);
      assert e in lost || e == (fn, nn);
    }
    forall p, c | p in r && c in r ensures BalancedAt(r, more, p, c) {
      LostAfterAt(g, fn, nn, lost, p, c);
      RewiredBalance(g, fn, nn, lost, p, c);
    }
  }

  lemma {:induction false} ReplaceOnlyKills(g: Graph, fn: Value, nn: Value)
    requires CanReplace(g, fn, nn) && Mirrored(g) && Closed(g)
    ensures Nodes(g, g[fn].parents)
    ensures OnlyDeaths(Rewired(g, fn, nn), Replace(g, fn, nn)) && Replace(g, fn, nn).Keys == g.Keys
  {
    hide Rewired, Acyclic, Reaches, LiftedRank, OnlyDeaths, MarkDead, Mirrored;
    RewiredClosed(g, fn, nn);
    RewiredIsRanked(g, fn, nn);
    var h, rank := Rewired(g, fn, nn), LiftedRank(g, nn);
    MarkDeadKeeps(h, [fn], rank, rank(fn) + 1);
    SameKeys(h, Replace(g, fn, nn));
  }

  lemma {:induction false} SameKeys(g: Graph, r: Graph)
    requires OnlyDeaths(g, r)
    ensures g.Keys == r.Keys
  {
  }

  /** replaceNodeWith keeps the graph sound and without cycles, and `fn` dies. */
  lemma {:induction false} ReplaceSound(env: Program, g: Graph, fn: Value, nn: Value, lost: Edges)
    requires Inside(env, g) && Counted(g, lost) && CanReplace(g, fn, nn)
    ensures Mirrored(g) && Closed(g)
    ensures var r := Replace(g, fn, nn); Sound(env, r) && Acyclic(r) && IsDead(r, fn)
  {
    hide Inside, Balanced, CanReplace, Replace, LostAfter, Acyclic, Rewired, Decided, Justified, SweptOf, DeadBy,
         IsDead;
    BalancedIsMirrored(env, g, lost);
    CanReplaceNodes(g, fn, nn);
    var r := Replace(g, fn, nn);
    ReplaceExact(g, fn, nn, lost);
    ReplaceBalanced(g, fn, nn, lost);
    ReplaceInside(env, g, fn, nn, lost);
    ReplaceAcyclic(g, fn, nn);
    ReplaceDeadSources(g, fn, nn, lost, r);
    assert Counted(r, LostAfter(g, fn, nn, lost));
  }

  lemma {:induction false} ReplaceInside(env: Program, g: Graph, fn: Value, nn: Value, lost: Edges)
    requires CanReplace(g, fn, nn) && Mirrored(g) && Closed(g) && Balanced(g, lost) && Inside(env, g)
    ensures Inside(env, Replace(g, fn, nn))
  {
    hide Rewired, Acyclic, Reaches, Replace, Balanced;
    ReplaceOnlyKills(g, fn, nn);
    RewiredClosed(g, fn, nn);
    RewiredMirrored(g, fn, nn, lost);
  }

  lemma {:induction false} ReplaceAcyclic(g: Graph, fn: Value, nn: Value)
    requires CanReplace(g, fn, nn) && Mirrored(g) && Closed(g)
    ensures Acyclic(Replace(g, fn, nn))
  {
    hide Rewired, Acyclic, Reaches, Replace, LiftedRank, Mirrored, Closed;
    ReplaceOnlyKills(g, fn, nn);
    RewiredIsRanked(g, fn, nn);
    var r := Replace(g, fn, nn);
    assert Ranked(r, LiftedRank(g, nn));
    RankedIsAcyclic(r, LiftedRank(g, nn));
  }

  lemma {:induction false} ReplaceDeadSources(g: Graph, fn: Value, nn: Value, lost: Edges, r: Graph)
    requires CanReplace(g, fn, nn) && Mirrored(g) && Closed(g) && DeadSources(g, lost) && IsDead(r, fn)
    requires r == Replace(g, fn, nn)
    ensures DeadSources(r, LostAfter(g, fn, nn, lost))
  {
    hide Rewired, Acyclic, Reaches, Replace, LiftedRank, LostAfter;
    ReplaceOnlyKills(g, fn, nn);
    RewiredShape(g, fn, nn);
    forall e | e in LostAfter(g, fn, nn, lost) ensures IsDead(r, e.0) {
      LostAfterAt(g, fn, nn, lost, e.0, e.1);
      assert e in lost || e == (fn, nn);
    }
  }

  lemma {:induction false} ReplaceRooted(g: Graph, fn: Value, nn: Value, lost: Edges, roots: set<Value>)
    requires CanReplace(g, fn, nn) && Mirrored(g) && Closed(g) && Counted(g, lost) && Rooted(g, roots + {nn})
    ensures Rooted(Replace(g, fn, nn), if HasLiveParent(g, fn) then roots else roots + {nn})
  {
    hide Rewired, Acyclic, Reaches, Replace, LiftedRank, Balanced, Mirrored, Closed, OnlyDeaths, DeadSources, Decided,
         Justified, SweptOf, DeadBy, HasLiveParent, CanReplace;
    CanReplaceNodes(g, fn, nn);
    ReplaceExact(g, fn, nn, lost);
    RewiredMirrored(g, fn, nn, lost);
    var h, r := Rewired(g, fn, nn), Replace(g, fn, nn);
    SameKeys(h, r);
    forall x | x in r && !IsDead(r, x) && x !in roots && (x == nn ==> HasLiveParent(g, fn))
      ensures HasLiveParent(r, x)
    {
      if x == nn {
        AdoptedStaysLive(g, fn, nn, lost, h, r);
      } else {
        SameDeath(g, fn, nn, x);
        DeathsOnly(h, r, x);
        assert HasLiveParent(g, x);
        StillQuietAt(g, fn, nn, lost, h, r, x);
      }
    }
  }

  lemma {:induction false} DeathsOnly(h: Graph, r: Graph, x: Value)
    requires OnlyDeaths(h, r) && x in r && !IsDead(r, x)
    ensures !IsDead(h, x)
  {
  }

  // ----- Runs -----

  /** A call on the graph; Replacing names the node to go and the value to take its place. */
  datatype Call = Growing(v: Value) | Replacing(fn: Value, v: Value)

  /** A graph together with the values that are wanted for themselves: those that
      addToFLEQGraph was called for directly, and those that took the place of a node
      without a live parent. */
  datatype State = State(graph: Graph, roots: set<Value>)

  /** One call.  A replacement asks of the graph to which the new value was added: that it
      has no cycle, and that the new node reaches neither `fn` nor a parent of `fn`.
      (What else the functions require holds in every run.) */
  ghost predicate Step(env: Program, s: State, call: Call, t: State) {
    call.v in env.values &&
    (WellFormed(env) && Inside(env, s.graph) ==>
       var g := AddTo(env, s.graph, call.v);
       match call
       case Growing(v) => t == State(g, s.roots + {v})
       case Replacing(fn, v) =>
         Replaces(g, fn, v, t.graph) && t.roots == if HasLiveParent(g, fn) then s.roots else s.roots + {v})
  }

  ghost predicate Replaces(g: Graph, fn: Value, v: Value, r: Graph) {
    && CanReplace(g, fn, v)
    && (Mirrored(g) && Closed(g) ==> r == Replace(g, fn, v))
  }

  ghost predicate Holds(env: Program, s: State) {
    WellFormed(env) && Sound(env, s.graph) && Rooted(s.graph, s.roots) && Typed(env, s.graph)
  }

  lemma {:induction false} ReplaceTyped(env: Program, g: Graph, fn: Value, nn: Value)
    requires CanReplace(g, fn, nn) && Mirrored(g) && Closed(g) && Typed(env, g)
    ensures Typed(env, Replace(g, fn, nn))
  {
    hide Rewired, Acyclic, Reaches, Replace, Mirrored, Closed;
    ReplaceOnlyKills(g, fn, nn);
    RewiredShape(g, fn, nn);
  }

  lemma {:induction false} StepKeeps(env: Program, s: State, call: Call, t: State)
    requires Holds(env, s) && Step(env, s, call, t)
    ensures Holds(env, t)
    ensures call.Replacing? ==> Acyclic(t.graph) && IsDead(t.graph, call.fn)
  {
    hide AddTo, Inside, CanReplace, Counted, Rooted, Acyclic, Replace, Balanced, WellFormed, DeadSources, HasLiveParent,
         Typed, TypedNew, Grows;
    var lost :| Counted(s.graph, lost);
    AddToSound(env, s.graph, call.v, lost);
    AddToRooted(env, s.graph, call.v, s.roots);
    AddToTypes(env, s.graph, call.v);
    var g := AddTo(env, s.graph, call.v);
    GrowsTyped(env, s.graph, g, {});
    if call.Replacing? {
      ReplaceSound(env, g, call.fn, call.v, lost);
      ReplaceTyped(env, g, call.fn, call.v);
      ReplaceRooted(g, call.fn, call.v, lost, s.roots);
    }
  }

  /** The replacements that leave the new node unneeded below a dead parent. */
  ghost predicate Abandons(env: Program, s: State, call: Call) {
    call.Replacing? && WellFormed(env) && Inside(env, s.graph) && call.v in env.values &&
    var g := AddTo(env, s.graph, call.v);
    call.fn in g && Unneeded(g, call.v) && !HasLiveParent(g, call.fn) && g[call.fn].parents != []
  }

  /** They are the only calls after which a quiet graph is not quiet. */
  lemma {:induction false} StepQuietIff(env: Program, s: State, call: Call, t: State)
    requires Holds(env, s) && Step(env, s, call, t) && Quiet(s.graph)
    ensures Quiet(t.graph) <==> !Abandons(env, s, call)
  {
    hide AddTo, Inside, CanReplace, Counted, Rooted, Replace, WellFormed, Unneeded, Quiet, HasLiveParent;
    var lost :| Counted(s.graph, lost);
    AddToSound(env, s.graph, call.v, lost);
    AddToQuiet(env, s.graph, call.v);
    var g := AddTo(env, s.graph, call.v);
    if call.Replacing? {
      CountedIs(g, lost);
      BalancedIsMirrored(env, g, lost);
      CanReplaceNodes(g, call.fn, call.v);
      ReplaceQuietIff(g, call.fn, call.v, lost);
    }
  }

  lemma {:induction false} CountedIs(g: Graph, lost: Edges)
    requires Counted(g, lost)
    ensures Balanced(g, lost) && DeadSources(g, lost)
  {
  }

  /** The constructor: an empty graph to which the root is added. */
  ghost predicate Starts(env: Program, root: Value, s: State) {
    WellFormed(env) && root in env.values && s == State(AddTo(env, map[], root), {root})
  }

  lemma {:induction false} StartHolds(env: Program, root: Value, s: State)
    requires Starts(env, root, s)
    ensures Holds(env, s)
  {
    hide AddTo, WellFormed;
    var empty: Graph := map[];
    assert Counted(empty, multiset{});
    AddToSound(env, empty, root, multiset{});
    AddToRooted(env, empty, root, {});
    AddToTypes(env, empty, root);
    assert {} + {root} == {root};
  }

  ghost predicate Run(env: Program, root: Value, states: seq<State>, calls: seq<Call>) {
    && |states| == |calls| + 1 && Starts(env, root, states[0])
    && forall i | 0 <= i < |calls| :: Step(env, states[i], calls[i], states[i + 1])
  }

  lemma {:induction false} RunHolds(env: Program, root: Value, states: seq<State>, calls: seq<Call>, i: nat)
    requires Run(env, root, states, calls) && i < |states|
    ensures Holds(env, states[i])
    decreases i
  {
    hide Holds, Step, Starts;
    if i == 0 {
      StartHolds(env, root, states[0]);
    } else {
      RunHolds(env, root, states, calls, i - 1);
      StepKeeps(env, states[i - 1], calls[i - 1], states[i - 1 + 1]);
    }
  }

  /** In every graph of every run: a node is dead, or of the type that characterizeNodeType
      gives its value. */
  lemma {:induction false} RunTypes(env: Program, root: Value, states: seq<State>, calls: seq<Call>, i: nat, x: Value)
    requires Run(env, root, states, calls) && i < |states| && x in states[i].graph
    ensures IsDead(states[i].graph, x) || states[i].graph[x].ty == env.kind(x)
  {
    hide Run, Sound, Rooted;
    RunHolds(env, root, states, calls, i);
  }

  /** A run without such replacements is quiet throughout. */
  lemma {:induction false} RunStaysQuiet(env: Program, root: Value, states: seq<State>, calls: seq<Call>, i: nat)
    requires Run(env, root, states, calls) && i < |states|
    requires forall j | 0 <= j < i :: !Abandons(env, states[j], calls[j])
    ensures Quiet(states[i].graph)
    decreases i
  {
    hide Holds, Step, Starts, Quiet, Abandons;
    if i == 0 {
      StartQuiet(env, root, states[0]);
    } else {
      RunHolds(env, root, states, calls, i - 1);
      RunStaysQuiet(env, root, states, calls, i - 1);
      StepQuietIff(env, states[i - 1], calls[i - 1], states[i - 1 + 1]);
    }
  }

  lemma {:induction false} StartQuiet(env: Program, root: Value, s: State)
    requires Starts(env, root, s)
    ensures Quiet(s.graph)
  {
    hide AddTo, WellFormed;
    AddToQuiet(env, map[], root);
  }

  /** In every graph of every run: a live node lists a child exactly as often as the child
      lists it as a parent. */
  lemma {:induction false} LiveEdgesCountedAlike(env: Program, root: Value, states: seq<State>, calls: seq<Call>,
          i: nat, p: Value, c: Value)
    requires Run(env, root, states, calls) && i < |states|
    requires var g := states[i].graph; p in g && c in g && !IsDead(g, p)
    ensures var g := states[i].graph; multiset(g[p].deps)[c] == multiset(g[c].parents)[p]
  {
    hide Run, Inside, IsDead, Rooted;
    RunHolds(env, root, states, calls, i);
    var g := states[i].graph;
    var lost :| Counted(g, lost);
    assert BalancedAt(g, lost, p, c);
    assert (p, c) !in lost;
  }

  /** A chain of live nodes from `a` down to `b`. */
  ghost predicate LivePath(g: Graph, path: seq<Value>, a: Value, b: Value) {
    Goes(g, path, a, b) && forall x | x in path :: x in g && !IsDead(g, x)
  }

  /** Nothing stays live that the roots do not need: in every graph of every run that has
      no cycle, a live node hangs by a chain of live nodes from a root. */
  lemma {:induction false} LiveIsReachable(env: Program, root: Value, states: seq<State>, calls: seq<Call>, i: nat,
          x: Value)
    returns (a: Value, path: seq<Value>)
    requires Run(env, root, states, calls) && i < |states|
    requires var g := states[i].graph; Acyclic(g) && x in g && !IsDead(g, x)
    ensures a in states[i].roots && LivePath(states[i].graph, path, a, x)
  {
    hide Run, Inside, IsDead, Rooted, Balanced, Counted, Acyclic;
    RunHolds(env, root, states, calls, i);
    var g := states[i].graph;
    var lost :| Counted(g, lost);
    CountedIs(g, lost);
    BalancedIsMirrored(env, g, lost);
    AcyclicIsRanked(g);
    var rank := DepthIn(g);
    var m := Bound(g.Keys, rank);
    a, path := Climb(g, states[i].roots, rank, m, x);
  }

  lemma {:induction false} Climb(g: Graph, roots: set<Value>, rank: Value -> nat, m: nat, x: Value)
    returns (a: Value, path: seq<Value>)
    requires Mirrored(g) && Ranked(g, rank) && Rooted(g, roots) && x in g && !IsDead(g, x)
    requires forall y | y in g :: rank(y) <= m
    ensures a in roots && LivePath(g, path, a, x)
    decreases m - rank(x)
  {
    if x in roots {
      a, path := x, [x];
    } else {
      assert HasLiveParent(g, x);
      var p :| p in g[x].parents && !IsDead(g, p);
      assert p in g && x in g[p].deps && rank(x) < rank(p);
      var before: seq<Value>;
      a, before := Climb(g, roots, rank, m, p);
      path := before + [x];
      PathOn(g, before, a, p, x);
    }
  }

  lemma {:induction false} PathOn(g: Graph, before: seq<Value>, a: Value, p: Value, x: Value)
    requires LivePath(g, before, a, p) && p in g && x in g[p].deps && x in g && !IsDead(g, x)
    ensures LivePath(g, before + [x], a, x)
  {
    var path := before + [x];
    forall i | 0 <= i < |path| - 1 ensures Edge(g, path[i], path[i + 1]) {
      if i < |before| - 1 {
        assert Edge(g, before[i], before[i + 1]);
      }
    }
  }
}
